/** How a block layout of mem.c lies in memory: `struct heap_mem` headers inside an array of 32-bit words.
    A header is three words: magic and used flag, `next`, `prev`. */
module HeapMemory {
  import opened Words
  import opened Blocks
  import opened Payloads
  import HeapSpec

  const HDR := HeapSpec.HDR
  const HEAP_MAGIC := 0x1ea0

  /** The first header word: `magic` in the low half, `used` in the high half. */
  function Tag(used: bool): word {
    if used then HEAP_MAGIC + 0x1_0000 else HEAP_MAGIC
  }

  /** The header at byte offset `o`. */
  predicate Header(m: seq<word>, o: nat, used: bool, next: nat, prev: nat) {
    && o / 4 + 2 < |m|
    && m[o / 4] == Tag(used) && m[o / 4 + 1] == next && m[o / 4 + 2] == prev
  }

  /** Every block of `bs` has its header in memory; `prev` is the offset in front of the first block. */
  predicate Headers(m: seq<word>, bs: seq<Block>, prev: nat) {
    bs != [] ==> Header(m, bs[0].off, bs[0].used, bs[0].end, prev) && Headers(m, bs[1..], bs[0].off)
  }

  /** Offset that the `prev` field of block `i` holds; the first block points at itself. */
  function PrevOff(bs: seq<Block>, i: nat): nat
    requires i <= |bs|
  {
    if i == 0 then 0 else bs[i - 1].off
  }

  /** The whole heap: all block headers and the closing header at heap_end, whose `prev` is not kept. */
  ghost predicate Encodes(m: seq<word>, bs: seq<Block>, size: nat) {
    && size % 4 == 0 && size + 2 * HDR < MODULUS && 4 * |m| == size + 2 * HDR
    && Tiles(bs, 0, size + HDR, HDR)
    && Headers(m, bs, 0)
    && m[(size + HDR) / 4] == Tag(true) && m[(size + HDR) / 4 + 1] == size + HDR
  }

  /** `n` agrees with `m` except on bytes lo..hi and on the `prev` word of the header at `hi`. */
  ghost predicate SameBut(m: seq<word>, n: seq<word>, lo: nat, hi: nat) {
    |n| == |m| && forall k :: 0 <= k < |m| && (k < lo / 4 || hi / 4 <= k) && k != hi / 4 + 2 ==> n[k] == m[k]
  }

  /** The payload words of block `b`. */
  function PayloadWords(m: seq<word>, b: Block): seq<word> {
    if b.off + HDR <= b.end <= 4 * |m| then m[(b.off + HDR) / 4..b.end / 4] else []
  }

  /** No block of `kept` has its payload changed. */
  ghost predicate PayloadsKept(m: seq<word>, n: seq<word>, kept: set<Block>) {
    |n| == |m| && forall b {:trigger PayloadWords(n, b)} :: b in kept ==> PayloadWords(n, b) == PayloadWords(m, b)
  }

  lemma {:induction false} HeadersAppend(m: seq<word>, a: seq<Block>, b: seq<Block>, prev: nat)
    ensures Headers(m, a + b, prev) <==>
            Headers(m, a, prev) && Headers(m, b, if a == [] then prev else a[|a| - 1].off)
  {
    if a == [] {
      assert a + b == b;
    } else {
      assert (a + b)[1..] == a[1..] + b;
      HeadersAppend(m, a[1..], b, a[0].off);
    }
  }

  lemma HeadersCut(m: seq<word>, bs: seq<Block>, i: nat)
    requires Headers(m, bs, 0) && i <= |bs|
    ensures Headers(m, bs[..i], 0) && Headers(m, bs[i..], PrevOff(bs, i))
    ensures i < |bs| ==> Header(m, bs[i].off, bs[i].used, bs[i].end, PrevOff(bs, i))
  {
    assert bs == bs[..i] + bs[i..];
    HeadersAppend(m, bs[..i], bs[i..], 0);
  }

  /** Headers depend only on the words of the range their blocks tile. */
  lemma {:induction false} HeadersFrame(m: seq<word>, n: seq<word>, bs: seq<Block>, lo: nat, hi: nat, prev: nat)
    requires Tiles(bs, lo, hi, HDR) && Headers(m, bs, prev)
    requires |n| == |m| && forall k :: lo / 4 <= k < hi / 4 && k < |m| ==> n[k] == m[k]
    ensures Headers(n, bs, prev)
  {
    if bs != [] {
      TilesCut(bs, lo, hi, HDR, 1);
      TilesCut(bs, lo, hi, HDR, 0);
      HeadersFrame(m, n, bs[1..], bs[0].end, hi, bs[0].off);
    }
  }

  /** The blocks behind a rewritten stretch keep their headers once the first `prev` is set. */
  lemma TailHeaders(m: seq<word>, n: seq<word>, bs: seq<Block>, lo: nat, hi: nat, from: nat, old_: nat, prev: nat)
    requires Tiles(bs, lo, hi, HDR) && Headers(m, bs, old_)
    requires SameBut(m, n, from, lo)
    requires bs != [] ==> lo / 4 + 2 < |m| && n[lo / 4 + 2] == prev
    ensures Headers(n, bs, prev)
  {
    if bs != [] {
      TilesCut(bs, lo, hi, HDR, 0);
      HeadersFrame(m, n, bs[1..], bs[0].end, hi, bs[0].off);
    }
  }

  /** Memory follows a replacement of blocks: the new blocks have headers, nothing outside the stretch was
      written but the `prev` field behind it. */
  lemma Rewrite(m: seq<word>, n: seq<word>, bs: seq<Block>, size: nat, lo: nat, hi: nat, mid: seq<Block>)
    requires Encodes(m, bs, size) && lo < hi <= |bs| && mid != []
    requires Tiles(mid, bs[lo].off, bs[hi - 1].end, HDR) && Headers(n, mid, PrevOff(bs, lo))
    requires SameBut(m, n, bs[lo].off, bs[hi - 1].end)
    requires hi < |bs| ==> bs[hi - 1].end / 4 + 2 < |n| && n[bs[hi - 1].end / 4 + 2] == mid[|mid| - 1].off
    ensures Encodes(n, Replace(bs, lo, hi, mid), size)
  {
    TilesReplace(bs, lo, hi, mid, 0, size + HDR, HDR);
    RewriteHeaders(m, n, bs, size + HDR, lo, hi, mid);
    EndKept(m, n, bs, size + HDR, lo, hi);
  }

  /** The header at heap_end keeps its flag and its `next`. */
  lemma EndKept(m: seq<word>, n: seq<word>, bs: seq<Block>, end: nat, lo: nat, hi: nat)
    requires Tiles(bs, 0, end, HDR) && end % 4 == 0 && lo < hi <= |bs|
    requires SameBut(m, n, bs[lo].off, bs[hi - 1].end) && end / 4 + 1 < |m|
    ensures n[end / 4] == m[end / 4] && n[end / 4 + 1] == m[end / 4 + 1]
  {
    TilesCut(bs, 0, end, HDR, hi);
    TilesCut(bs, 0, end, HDR, hi - 1);
    assert bs[hi - 1].end == end || bs[hi - 1].end + HDR + 4 <= end;
  }

  lemma RewriteHeaders(m: seq<word>, n: seq<word>, bs: seq<Block>, end: nat, lo: nat, hi: nat, mid: seq<Block>)
    requires Tiles(bs, 0, end, HDR) && Headers(m, bs, 0) && lo < hi <= |bs| && mid != []
    requires Headers(n, mid, PrevOff(bs, lo))
    requires SameBut(m, n, bs[lo].off, bs[hi - 1].end)
    requires hi < |bs| ==> bs[hi - 1].end / 4 + 2 < |n| && n[bs[hi - 1].end / 4 + 2] == mid[|mid| - 1].off
    ensures Headers(n, Replace(bs, lo, hi, mid), 0)
  {
    FrontKept(m, n, bs, end, lo, hi);
    BackKept(m, n, bs, end, lo, hi, mid[|mid| - 1].off);
    HeadersJoin(n, bs[..lo], mid, bs[hi..]);
  }

  lemma HeadersJoin(m: seq<word>, a: seq<Block>, b: seq<Block>, c: seq<Block>)
    requires Headers(m, a, 0) && b != [] && Headers(m, b, PrevOff(a, |a|)) && Headers(m, c, b[|b| - 1].off)
    ensures Headers(m, a + b + c, 0)
  {
    HeadersAppend(m, a, b, 0);
    HeadersAppend(m, a + b, c, 0);
  }

  lemma FrontKept(m: seq<word>, n: seq<word>, bs: seq<Block>, end: nat, lo: nat, hi: nat)
    requires Tiles(bs, 0, end, HDR) && Headers(m, bs, 0) && lo < hi <= |bs|
    requires SameBut(m, n, bs[lo].off, bs[hi - 1].end)
    ensures Headers(n, bs[..lo], 0)
  {
    TilesCut(bs, 0, end, HDR, lo);
    HeadersCut(m, bs, lo);
    TilesCut(bs, 0, end, HDR, hi - 1);
    if lo < hi - 1 { TilesOrdered(bs, 0, end, HDR, lo, hi - 1); }
    HeadersFrame(m, n, bs[..lo], 0, bs[lo].off, 0);
  }

  lemma BackKept(m: seq<word>, n: seq<word>, bs: seq<Block>, end: nat, lo: nat, hi: nat, prev: nat)
    requires Tiles(bs, 0, end, HDR) && Headers(m, bs, 0) && lo < hi <= |bs|
    requires SameBut(m, n, bs[lo].off, bs[hi - 1].end)
    requires hi < |bs| ==> bs[hi - 1].end / 4 + 2 < |n| && n[bs[hi - 1].end / 4 + 2] == prev
    ensures Headers(n, bs[hi..], prev)
  {
    TilesCut(bs, 0, end, HDR, hi);
    HeadersCut(m, bs, hi);
    TailHeaders(m, n, bs[hi..], bs[hi - 1].end, end, bs[lo].off, bs[hi - 1].off, prev);
  }

  lemma KeptApart(m: seq<word>, n: seq<word>, b: Block, lo: nat, hi: nat)
    requires SameBut(m, n, lo, hi) && WellSized(b, HDR) && (b.end <= lo <= hi || hi <= b.off)
    ensures PayloadWords(n, b) == PayloadWords(m, b)
  {
    forall k | (b.off + HDR) / 4 <= k < b.end / 4 && k < |m|
      ensures n[k] == m[k]
    {
    }
  }

  /** Writing inside a stretch of blocks leaves the payloads of all other blocks. */
  lemma KeptOutside(m: seq<word>, n: seq<word>, bs: seq<Block>, size: nat, lo: nat, hi: nat)
    requires Tiles(bs, 0, size + HDR, HDR) && lo < hi <= |bs|
    requires SameBut(m, n, bs[lo].off, bs[hi - 1].end)
    ensures PayloadsKept(m, n, Live(bs) - Live(bs[lo..hi]))
  {
    var end := size + HDR;
    TilesCut(bs, 0, end, HDR, hi - 1);
    TilesCut(bs, 0, end, HDR, lo);
    if lo < hi - 1 { TilesOrdered(bs, 0, end, HDR, lo, hi - 1); }
    forall b | b in Live(bs) - Live(bs[lo..hi])
      ensures PayloadWords(n, b) == PayloadWords(m, b)
    {
      MembersReplace(bs, lo, hi, [], b);
      if b in bs[..lo] {
        var j :| 0 <= j < lo && bs[j] == b;
        TilesCut(bs, 0, end, HDR, j);
        TilesOrdered(bs, 0, end, HDR, j, lo);
      } else {
        var j :| hi <= j < |bs| && bs[j] == b;
        TilesCut(bs, 0, end, HDR, j);
        TilesOrdered(bs, 0, end, HDR, hi - 1, j);
      }
      KeptApart(m, n, b, bs[lo].off, bs[hi - 1].end);
    }
  }

  // ---------------------------------------------------------------- the memory writes of the allocator

  /** Merging takes two writes: `next` of the first block and `prev` of the header behind the second. */
  lemma MergeRewrites(m: seq<word>, n: seq<word>, bs: seq<Block>, size: nat, i: nat)
    requires Encodes(m, bs, size) && i + 1 < |bs| && !bs[i].used && !bs[i + 1].used
    requires bs[i].off / 4 + 1 < |m| && bs[i + 1].end / 4 + 2 < |m| && bs[i + 1].end < MODULUS && bs[i].off < MODULUS
    requires n == m[bs[i].off / 4 + 1 := bs[i + 1].end][bs[i + 1].end / 4 + 2 := bs[i].off]
    ensures Encodes(n, Merge(bs, i), size)
    ensures PayloadsKept(m, n, Live(bs)) && Live(Merge(bs, i)) == Live(bs)
  {
    var mid := [Block(bs[i].off, bs[i + 1].end, false)];
    TilesCut(bs, 0, size + HDR, HDR, i);
    TilesCut(bs, 0, size + HDR, HDR, i + 1);
    MergeHeader(m, n, bs, i);
    TilesOne(mid[0], HDR);
    Rewrite(m, n, bs, size, i, i + 2, mid);
    LiveStretch(bs, i, i + 1, i + 2);
    LiveReplace(bs, size + HDR, HDR, i, i + 2, mid);
    KeptOutside(m, n, bs, size, i, i + 2);
  }

  lemma MergeHeader(m: seq<word>, n: seq<word>, bs: seq<Block>, i: nat)
    requires Headers(m, bs, 0) && i + 1 < |bs| && !bs[i].used
    requires bs[i].off % 4 == 0 && bs[i + 1].end % 4 == 0 && bs[i].off + HDR < bs[i + 1].end
    requires bs[i].off / 4 + 1 < |m| && bs[i + 1].end / 4 + 2 < |m| && bs[i + 1].end < MODULUS && bs[i].off < MODULUS
    requires n == m[bs[i].off / 4 + 1 := bs[i + 1].end][bs[i + 1].end / 4 + 2 := bs[i].off]
    ensures Headers(n, [Block(bs[i].off, bs[i + 1].end, false)], PrevOff(bs, i))
    ensures SameBut(m, n, bs[i].off, bs[i + 1].end)
  {
    HeadersCut(m, bs, i);
    var mid := [Block(bs[i].off, bs[i + 1].end, false)];
    assert mid[1..] == [];
  }

  /** The two headers that rt_system_heap_init writes. */
  lemma InitRewrites(m: seq<word>, size: nat)
    requires HeapSpec.GoodSize(size) && 4 * |m| == size + 2 * HDR
    requires Header(m, 0, false, size + HDR, 0)
    requires m[(size + HDR) / 4] == Tag(true) && m[(size + HDR) / 4 + 1] == size + HDR
    ensures Encodes(m, HeapSpec.Init(size).blocks, size)
  {
    var bs := HeapSpec.Init(size).blocks;
    assert bs[1..] == [];
  }

  /** The words of a split: the new header, `next` of the old one, and `prev` of the header behind, if it is
      not heap_end. */
  function SplitWords(m: seq<word>, b: Block, cut: nat, last: bool): (n: seq<word>)
    requires b.off + HDR + 4 <= cut && cut + HDR + 4 <= b.end && b.end / 4 + 2 < |m| && |m| < MODULUS / 4
    requires b.off % 4 == 0 && cut % 4 == 0
    ensures |n| == |m|
  {
    var n := m[cut / 4 := Tag(false)][cut / 4 + 1 := b.end][cut / 4 + 2 := b.off][b.off / 4 + 1 := cut];
    if last then n else n[b.end / 4 + 2 := cut]
  }

  lemma SplitHeaders(m: seq<word>, b: Block, cut: nat, last: bool, prev: nat)
    requires b.off + HDR + 4 <= cut && cut + HDR + 4 <= b.end && b.end / 4 + 2 < |m| && |m| < MODULUS / 4
    requires b.off % 4 == 0 && cut % 4 == 0 && b.end % 4 == 0
    requires Header(m, b.off, b.used, b.end, prev)
    ensures var n := SplitWords(m, b, cut, last);
      && Headers(n, [b.(end := cut), Block(cut, b.end, false)], prev)
      && SameBut(m, n, b.off, b.end)
      && PayloadsKept(m, n, {Block(b.off, cut, true)})
      && (!last ==> n[b.end / 4 + 2] == cut)
  {
    var n := SplitWords(m, b, cut, last);
    var mid := [b.(end := cut), Block(cut, b.end, false)];
    assert mid[1..] == [mid[1]] && mid[1..][1..] == [];
    assert Header(n, b.off, b.used, cut, prev);
    assert Header(n, cut, false, b.end, b.off);
  }

  lemma SplitRewrites(m: seq<word>, n: seq<word>, bs: seq<Block>, size: nat, i: nat, cut: nat)
    requires Encodes(m, bs, size) && i < |bs|
    requires cut % 4 == 0 && bs[i].off + HDR + 4 <= cut && cut + HDR + 4 <= bs[i].end
    requires bs[i].off % 4 == 0 && bs[i].end / 4 + 2 < |m| && n == SplitWords(m, bs[i], cut, i + 1 == |bs|)
    ensures Encodes(n, Split(bs, i, cut), size)
    ensures PayloadsKept(m, n, Live(bs) - {bs[i]} + {Block(bs[i].off, cut, true)})
  {
    var mid := [bs[i].(end := cut), Block(cut, bs[i].end, false)];
    TilesCut(bs, 0, size + HDR, HDR, i);
    HeadersCut(m, bs, i);
    SplitHeaders(m, bs[i], cut, i + 1 == |bs|, PrevOff(bs, i));
    TilesTwo(mid[0], mid[1], HDR);
    Rewrite(m, n, bs, size, i, i + 1, mid);
    LiveStretch(bs, i, i, i + 1);
    KeptOutside(m, n, bs, size, i, i + 1);
  }

  lemma FlagHeader(m: seq<word>, n: seq<word>, b: Block, prev: nat, used: bool)
    requires Header(m, b.off, b.used, b.end, prev)
    requires b.off % 4 == 0 && b.end % 4 == 0 && b.off + HDR < b.end
    requires n == m[b.off / 4 := Tag(used)]
    ensures Headers(n, [b.(used := used)], prev)
    ensures SameBut(m, n, b.off, b.end) && PayloadsKept(m, n, {b})
    ensures b.end / 4 + 2 < |m| ==> n[b.end / 4 + 2] == m[b.end / 4 + 2]
  {
    assert [b.(used := used)][1..] == [];
  }

  /** The header behind block `i` points back at it. */
  lemma PrevBehind(m: seq<word>, bs: seq<Block>, size: nat, i: nat)
    requires Encodes(m, bs, size) && i + 1 < |bs|
    ensures bs[i].end / 4 + 2 < |m| && m[bs[i].end / 4 + 2] == bs[i].off
  {
    TilesCut(bs, 0, size + HDR, HDR, i + 1);
    HeadersCut(m, bs, i + 1);
  }

  /** Writing the first header word of block `i` changes its used flag and nothing else. */
  lemma FlagRewrites(m: seq<word>, n: seq<word>, bs: seq<Block>, size: nat, i: nat, used: bool)
    requires Encodes(m, bs, size) && i < |bs|
    requires bs[i].off / 4 < |m| && n == m[bs[i].off / 4 := Tag(used)]
    ensures Encodes(n, Flag(bs, i, used), size)
    ensures PayloadsKept(m, n, Live(bs) + {bs[i]})
  {
    TilesCut(bs, 0, size + HDR, HDR, i);
    HeadersCut(m, bs, i);
    if i + 1 < |bs| { PrevBehind(m, bs, size, i); }
    FlagHeader(m, n, bs[i], PrevOff(bs, i), used);
    TilesOne(bs[i].(used := used), HDR);
    assert PayloadsKept(m, n, Live(bs) + {bs[i]}) by {
      LiveStretch(bs, i, i, i + 1);
      KeptOutside(m, n, bs, size, i, i + 1);
    }
    Rewrite(m, n, bs, size, i, i + 1, [bs[i].(used := used)]);
  }

  /** Writing inside the payload of one block touches no header and no other payload. */
  lemma PayloadWrite(m: seq<word>, n: seq<word>, bs: seq<Block>, size: nat, i: nat)
    requires Encodes(m, bs, size) && i < |bs|
    requires |n| == |m|
    requires forall k :: 0 <= k < |m| && (k < (bs[i].off + HDR) / 4 || bs[i].end / 4 <= k) ==> n[k] == m[k]
    ensures Encodes(n, bs, size)
    ensures PayloadsKept(m, n, Live(bs) - {bs[i]})
  {
    TilesCut(bs, 0, size + HDR, HDR, i);
    HeadersCut(m, bs, i);
    PayloadHeader(m, n, bs[i], PrevOff(bs, i));
    if i + 1 < |bs| { PrevBehind(m, bs, size, i); }
    TilesOne(bs[i], HDR);
    Rewrite(m, n, bs, size, i, i + 1, [bs[i]]);
    assert Replace(bs, i, i + 1, [bs[i]]) == bs;
    assert bs[i..i + 1] == [bs[i]];
    KeptOutside(m, n, bs, size, i, i + 1);
  }

  lemma PayloadHeader(m: seq<word>, n: seq<word>, b: Block, prev: nat)
    requires Header(m, b.off, b.used, b.end, prev)
    requires b.off % 4 == 0 && |n| == |m| && b.off + HDR <= b.end
    requires forall k :: 0 <= k < |m| && (k < (b.off + HDR) / 4 || b.end / 4 <= k) ==> n[k] == m[k]
    ensures Headers(n, [b], prev) && SameBut(m, n, b.off, b.end)
    ensures b.end / 4 + 2 < |m| ==> n[b.end / 4 + 2] == m[b.end / 4 + 2]
  {
    assert [b][1..] == [];
  }

  /** Bytes at the front of a kept payload stay what they were. */
  lemma SameBytesKept(m: seq<word>, n: seq<word>, kept: set<Block>, b: Block, len: nat)
    requires PayloadsKept(m, n, kept) && b in kept
    requires b.off % 4 == 0 && len % 4 == 0 && b.off + HDR + len <= b.end <= 4 * |m| && b.end % 4 == 0
    ensures SameBytes(n, b.off + HDR, m, b.off + HDR, len)
  {
    var w := len / 4;
    assert PayloadWords(n, b)[..w] == PayloadWords(m, b)[..w];
    assert PayloadWords(m, b)[..w] == m[(b.off + HDR) / 4..(b.off + HDR) / 4 + w];
    assert PayloadWords(n, b)[..w] == n[(b.off + HDR) / 4..(b.off + HDR) / 4 + w];
  }

  lemma KeptTwice(m: seq<word>, n: seq<word>, o: seq<word>, a: set<Block>, b: set<Block>, c: set<Block>)
    requires PayloadsKept(m, n, a) && PayloadsKept(n, o, b) && c <= a && c <= b
    ensures PayloadsKept(m, o, c)
  {
  }
}
