/** Bytes of a pool of 32-bit words, and copying them. */
module Payloads {
  import opened Words

  /** The `len` bytes at offset `p`, if the pool has them. */
  function BytesAt(m: seq<word>, p: int, len: int): Option<seq<word>> {
    if 0 <= p && 0 <= len && p / 4 + len / 4 <= |m| then Some(m[p / 4..p / 4 + len / 4]) else None
  }

  /** The `len` bytes at offset `q` of `n` are those at offset `p` of `m`. */
  predicate SameBytes(n: seq<word>, q: int, m: seq<word>, p: int, len: int) {
    BytesAt(m, p, len).Some? && BytesAt(n, q, len) == BytesAt(m, p, len)
  }

  function Smaller(a: int, b: int): int { if a < b then a else b }

  /** rt_memcpy of `words` words between ranges that do not overlap. */
  method CopyWords(mem: array<word>, dst: nat, src: nat, words: nat)
    requires dst + words <= mem.Length && src + words <= mem.Length
    requires src + words <= dst || dst + words <= src
    modifies mem
    ensures mem[dst..dst + words] == old(mem[src..src + words])
    ensures forall k :: 0 <= k < mem.Length && (k < dst || dst + words <= k) ==> mem[k] == old(mem[k])
  {
    var n := 0;
    while n < words
      invariant 0 <= n <= words
      invariant forall k :: 0 <= k < mem.Length && (k < dst || dst + n <= k) ==> mem[k] == old(mem[k])
      invariant mem[dst..dst + n] == old(mem[src..src + n])
    {
      mem[dst + n] := mem[src + n];
      n := n + 1;
    }
  }
}
