/** How a memheap lies in memory: the two rings threaded through the block headers. A field of
    `struct rt_memheap_item` is a map from the offset of the item to the value stored there. */
module MemHeapItems {
  import opened Words
  import opened Blocks
  import opened Lists
  import opened MemHeapSpec

  type Flags = map<int, bool>
  type Ptrs = map<int, int>

  /** The physical fields of all items: USED bit, `next` and `prev`. */
  datatype Phys = Phys(used: Flags, next: Ptrs, prev: Ptrs)

  predicate ItemAt(m: Phys, o: int, used: bool, next: int, prev: int) {
    && o in m.used && o in m.next && o in m.prev
    && m.used[o] == used && m.next[o] == next && m.prev[o] == prev
  }

  /** Every block of `bs` has its item; `prev` is the item in front of the first one. */
  predicate Items(m: Phys, bs: seq<Block>, prev: int) {
    bs != [] ==> ItemAt(m, bs[0].off, bs[0].used, bs[0].end, prev) && Items(m, bs[1..], bs[0].off)
  }

  /** What `prev` of block `i` (of the tail, behind the last block) points at: the first block points at the tail. */
  function PrevItem(bs: seq<Block>, tail: nat, i: nat): int
    requires i <= |bs|
  {
    if i == 0 then tail else bs[i - 1].off
  }

  /** The physical ring: the items of all blocks and the used tail that closes it. */
  predicate Ring(m: Phys, bs: seq<Block>, tail: nat) {
    && bs != [] && Tiles(bs, 0, tail, HDR)
    && Items(m, bs, tail)
    && ItemAt(m, tail, true, 0, bs[|bs| - 1].off)
  }

  /** `n` agrees with `m` outside lo..hi but for the `prev` of the item at `hi`. */
  predicate SameOutside(m: Phys, n: Phys, lo: nat, hi: nat) {
    && (forall o :: o in m.used && (o < lo || hi <= o) ==> o in n.used && n.used[o] == m.used[o])
    && (forall o :: o in m.next && (o < lo || hi <= o) ==> o in n.next && n.next[o] == m.next[o])
    && (forall o :: o in m.prev && (o < lo || hi < o) ==> o in n.prev && n.prev[o] == m.prev[o])
  }

  lemma {:induction false} ItemsAppend(m: Phys, a: seq<Block>, b: seq<Block>, prev: int)
    ensures Items(m, a + b, prev) <==> Items(m, a, prev) && Items(m, b, if a == [] then prev else a[|a| - 1].off)
  {
    if a == [] {
      assert a + b == b;
    } else {
      assert (a + b)[1..] == a[1..] + b;
      ItemsAppend(m, a[1..], b, a[0].off);
    }
  }

  lemma ItemsCut(m: Phys, bs: seq<Block>, tail: nat, i: nat)
    requires Items(m, bs, tail) && i <= |bs|
    ensures Items(m, bs[..i], tail) && Items(m, bs[i..], PrevItem(bs, tail, i))
    ensures i < |bs| ==> ItemAt(m, bs[i].off, bs[i].used, bs[i].end, PrevItem(bs, tail, i))
  {
    assert bs == bs[..i] + bs[i..];
    ItemsAppend(m, bs[..i], bs[i..], tail);
  }

  /** The items in front of a rewritten stretch. */
  lemma {:induction false} FrontItems(m: Phys, n: Phys, bs: seq<Block>, lo: nat, mid: nat, hi: nat, prev: int)
    requires Tiles(bs, lo, mid, HDR) && Items(m, bs, prev) && SameOutside(m, n, mid, hi)
    ensures Items(n, bs, prev)
  {
    if bs != [] {
      TilesCut(bs, lo, mid, HDR, 1);
      TilesCut(bs, lo, mid, HDR, 0);
      FrontItems(m, n, bs[1..], bs[0].end, mid, hi, bs[0].off);
    }
  }

  /** The items strictly behind a rewritten stretch. */
  lemma {:induction false} BackItems(m: Phys, n: Phys, bs: seq<Block>, from: nat, hi: nat, start: nat, end: nat, prev: int)
    requires Tiles(bs, start, end, HDR) && Items(m, bs, prev) && SameOutside(m, n, from, hi) && hi < start
    ensures Items(n, bs, prev)
  {
    if bs != [] {
      TilesCut(bs, start, end, HDR, 0);
      BackItems(m, n, bs[1..], from, hi, bs[0].end, end, bs[0].off);
    }
  }

  /** The items behind a rewritten stretch, once the first of them points back at the new last block. */
  lemma BehindItems(m: Phys, n: Phys, bs: seq<Block>, from: nat, hi: nat, end: nat, before: int, prev: int)
    requires Tiles(bs, hi, end, HDR) && Items(m, bs, before) && SameOutside(m, n, from, hi)
    requires hi in n.prev && n.prev[hi] == prev
    ensures Items(n, bs, prev)
  {
    if bs != [] { BackItems(m, n, bs[1..], from, hi, bs[0].end, end, bs[0].off); }
  }

  /** The ring follows a replacement of blocks: the new blocks have items, and nothing else was written but the
      `prev` behind the stretch. */
  lemma Rewire(m: Phys, n: Phys, bs: seq<Block>, tail: nat, lo: nat, hi: nat, mid: seq<Block>)
    requires Ring(m, bs, tail) && lo < hi <= |bs| && mid != []
    requires Tiles(mid, bs[lo].off, bs[hi - 1].end, HDR) && Items(n, mid, PrevItem(bs, tail, lo))
    requires SameOutside(m, n, bs[lo].off, bs[hi - 1].end)
    requires bs[hi - 1].end in n.prev && n.prev[bs[hi - 1].end] == mid[|mid| - 1].off
    ensures Ring(n, Replace(bs, lo, hi, mid), tail)
  {
    TilesReplace(bs, lo, hi, mid, 0, tail, HDR);
    RewireFront(m, n, bs, tail, lo, hi);
    RewireBehind(m, n, bs, tail, lo, hi, mid[|mid| - 1].off);
    ItemsJoin(n, bs[..lo], mid, bs[hi..], tail);
    RewireTail(m, n, bs, tail, lo, hi, mid);
  }

  lemma ItemsJoin(m: Phys, a: seq<Block>, b: seq<Block>, c: seq<Block>, tail: nat)
    requires Items(m, a, tail) && b != [] && Items(m, b, PrevItem(a, tail, |a|)) && Items(m, c, b[|b| - 1].off)
    ensures Items(m, a + b + c, tail)
  {
    ItemsAppend(m, a, b, tail);
    ItemsAppend(m, a + b, c, tail);
  }

  lemma RewireFront(m: Phys, n: Phys, bs: seq<Block>, tail: nat, lo: nat, hi: nat)
    requires Ring(m, bs, tail) && lo < hi <= |bs| && SameOutside(m, n, bs[lo].off, bs[hi - 1].end)
    ensures Items(n, bs[..lo], tail)
  {
    TilesCut(bs, 0, tail, HDR, lo);
    ItemsCut(m, bs, tail, lo);
    FrontItems(m, n, bs[..lo], 0, bs[lo].off, bs[hi - 1].end, tail);
  }

  lemma RewireBehind(m: Phys, n: Phys, bs: seq<Block>, tail: nat, lo: nat, hi: nat, prev: int)
    requires Ring(m, bs, tail) && lo < hi <= |bs| && SameOutside(m, n, bs[lo].off, bs[hi - 1].end)
    requires bs[hi - 1].end in n.prev && n.prev[bs[hi - 1].end] == prev
    ensures Items(n, bs[hi..], prev)
  {
    TilesCut(bs, 0, tail, HDR, hi);
    ItemsCut(m, bs, tail, hi);
    BehindItems(m, n, bs[hi..], bs[lo].off, bs[hi - 1].end, tail, PrevItem(bs, tail, hi), prev);
  }

  lemma RewireTail(m: Phys, n: Phys, bs: seq<Block>, tail: nat, lo: nat, hi: nat, mid: seq<Block>)
    requires Ring(m, bs, tail) && lo < hi <= |bs| && mid != [] && SameOutside(m, n, bs[lo].off, bs[hi - 1].end)
    requires bs[hi - 1].end in n.prev && n.prev[bs[hi - 1].end] == mid[|mid| - 1].off
    ensures var cs := Replace(bs, lo, hi, mid); ItemAt(n, tail, true, 0, cs[|cs| - 1].off)
  {
    TilesCut(bs, 0, tail, HDR, hi);
    TilesCut(bs, 0, tail, HDR, hi - 1);
    if hi < |bs| {
      TilesCut(bs, 0, tail, HDR, |bs| - 1);
      TilesOrdered(bs, 0, tail, HDR, hi - 1, |bs| - 1);
    }
  }

  /** What a look at the item of block `i`, and at the one behind it, finds. */
  lemma ReadItem(m: Phys, bs: seq<Block>, tail: nat, i: nat)
    requires Ring(m, bs, tail) && i < |bs|
    ensures ItemAt(m, bs[i].off, bs[i].used, bs[i].end, PrevItem(bs, tail, i))
    ensures bs[i].off % 4 == 0 && bs[i].end % 4 == 0 && bs[i].off + HDR + 4 <= bs[i].end <= tail
    ensures if i + 1 < |bs| then bs[i].end == bs[i + 1].off && ItemAt(m, bs[i].end, bs[i + 1].used, bs[i + 1].end, bs[i].off)
      else bs[i].end == tail && ItemAt(m, tail, true, 0, bs[i].off)
  {
    ItemsCut(m, bs, tail, i);
    TilesCut(bs, 0, tail, HDR, i);
    TilesCut(bs, 0, tail, HDR, i + 1);
    if i + 1 < |bs| { ItemsCut(m, bs, tail, i + 1); }
  }

  /** The item in front of block `i`: the block before it, or the used tail. */
  lemma ReadPrev(m: Phys, bs: seq<Block>, tail: nat, i: nat)
    requires Ring(m, bs, tail) && i < |bs|
    ensures var p := PrevItem(bs, tail, i);
      && p in m.used && p in m.next && p in m.prev
      && m.used[p] == (i == 0 || bs[i - 1].used)
      && (i > 0 ==> m.next[p] == bs[i].off)
  {
    if i > 0 { ReadItem(m, bs, tail, i - 1); }
  }

  /** Linking a new item in at `cut`. */
  function Insert(m: Phys, o: int, cut: int): Phys
    requires o in m.next
  {
    Phys(m.used[cut := false], m.next[cut := m.next[o]][o := cut], m.prev[cut := o][m.next[o] := cut])
  }

  lemma InsertSplits(m: Phys, bs: seq<Block>, tail: nat, i: nat, cut: nat)
    requires Ring(m, bs, tail) && i < |bs| && cut % 4 == 0
    requires bs[i].off + HDR + 4 <= cut && cut + HDR + 4 <= bs[i].end
    requires bs[i].off in m.next
    ensures Ring(Insert(m, bs[i].off, cut), Split(bs, i, cut), tail)
  {
    var n := Insert(m, bs[i].off, cut);
    var mid := [bs[i].(end := cut), Block(cut, bs[i].end, false)];
    ReadItem(m, bs, tail, i);
    TilesTwo(mid[0], mid[1], HDR);
    assert mid[1..] == [mid[1]] && mid[1..][1..] == [];
    assert ItemAt(n, mid[0].off, mid[0].used, cut, PrevItem(bs, tail, i));
    assert ItemAt(n, cut, false, bs[i].end, bs[i].off);
    Rewire(m, n, bs, tail, i, i + 1, mid);
  }

  /** Taking the item behind the one at `o` out of the ring. */
  function Bypass(m: Phys, o: int): Phys
    requires o in m.next && m.next[o] in m.next
  {
    var n := m.next[o];
    Phys(m.used, m.next[o := m.next[n]], m.prev[m.next[n] := o])
  }

  lemma BypassMerges(m: Phys, bs: seq<Block>, tail: nat, i: nat)
    requires Ring(m, bs, tail) && i + 1 < |bs|
    ensures bs[i].off in m.next && m.next[bs[i].off] in m.next
    ensures Ring(Bypass(m, bs[i].off), Merge(bs, i), tail)
  {
    ReadItem(m, bs, tail, i);
    ReadItem(m, bs, tail, i + 1);
    var n := Bypass(m, bs[i].off);
    var mid := [Block(bs[i].off, bs[i + 1].end, bs[i].used)];
    TilesOne(mid[0], HDR);
    assert mid[1..] == [];
    assert ItemAt(n, bs[i].off, bs[i].used, bs[i + 1].end, PrevItem(bs, tail, i));
    Rewire(m, n, bs, tail, i, i + 2, mid);
  }

  lemma FlagSets(m: Phys, bs: seq<Block>, tail: nat, i: nat, used: bool)
    requires Ring(m, bs, tail) && i < |bs|
    ensures Ring(m.(used := m.used[bs[i].off := used]), Flag(bs, i, used), tail)
  {
    var n := m.(used := m.used[bs[i].off := used]);
    var mid := [bs[i].(used := used)];
    ReadItem(m, bs, tail, i);
    TilesOne(mid[0], HDR);
    assert mid[1..] == [];
    assert ItemAt(n, bs[i].off, used, bs[i].end, PrevItem(bs, tail, i));
    Rewire(m, n, bs, tail, i, i + 1, mid);
  }

  // ---------------------------------------------------------------- the payloads

  /** The payload words of block `b`. */
  function PayloadWords(m: seq<word>, b: Block): seq<word> {
    if b.off + HDR <= b.end <= 4 * |m| then m[(b.off + HDR) / 4..b.end / 4] else []
  }

  /** No block of `kept` has its payload changed. */
  ghost predicate PayloadsKept(m: seq<word>, n: seq<word>, kept: set<Block>) {
    |n| == |m| && forall b {:trigger PayloadWords(n, b)} :: b in kept ==> PayloadWords(n, b) == PayloadWords(m, b)
  }

  /** Writing inside the payload of one live block changes no other live payload. */
  lemma PayloadWrite(s: State, m: seq<word>, n: seq<word>, b: Block)
    requires Layout(s) && b in Live(s.blocks) && |n| == |m|
    requires forall k :: 0 <= k < |m| && (k < (b.off + HDR) / 4 || b.end / 4 <= k) ==> n[k] == m[k]
    ensures PayloadsKept(m, n, Live(s.blocks) - {b})
  {
    forall c | c in Live(s.blocks) - {b}
      ensures PayloadWords(n, c) == PayloadWords(m, c)
    {
      LivePayloads(s, c, b);
      LivePayloads(s, b, c);
      LivePayloads(s, c, c);
      SameSlice(m, n, c, (b.off + HDR) / 4, b.end / 4);
    }
  }

  lemma SameSlice(m: seq<word>, n: seq<word>, c: Block, lo: nat, hi: nat)
    requires |n| == |m| && forall k :: 0 <= k < |m| && (k < lo || hi <= k) ==> n[k] == m[k]
    requires c.end / 4 <= lo || hi <= (c.off + HDR) / 4
    ensures PayloadWords(n, c) == PayloadWords(m, c)
  {
  }

  // ---------------------------------------------------------------- the free ring

  /** `a` and `z` are neighbours. */
  predicate Joined(nf: Ptrs, pf: Ptrs, a: int, z: int) {
    a in nf && z in pf && nf[a] == z && pf[z] == a
  }

  /** The links lead from `a` through `xs` to `z`, and back. */
  predicate Chain(nf: Ptrs, pf: Ptrs, a: int, xs: seq<nat>, z: int)
    decreases |xs|
  {
    if xs == [] then Joined(nf, pf, a, z) else Joined(nf, pf, a, xs[0]) && Chain(nf, pf, xs[0], xs[1..], z)
  }

  lemma {:induction false} ChainFrame(nf: Ptrs, pf: Ptrs, nf': Ptrs, pf': Ptrs, a: int, xs: seq<nat>, z: int)
    requires Chain(nf, pf, a, xs, z)
    requires forall k :: k in nf && (k == a || k in xs) ==> k in nf' && nf'[k] == nf[k]
    requires forall k :: k in pf && (k == z || k in xs) ==> k in pf' && pf'[k] == pf[k]
    ensures Chain(nf', pf', a, xs, z)
    decreases |xs|
  {
    if xs != [] { ChainFrame(nf, pf, nf', pf', xs[0], xs[1..], z); }
  }

  /** The fields of an element of a chain. */
  lemma {:induction false} ChainAt(nf: Ptrs, pf: Ptrs, a: int, xs: seq<nat>, z: int, k: nat)
    requires Chain(nf, pf, a, xs, z) && k < |xs|
    ensures Joined(nf, pf, xs[k], if k + 1 < |xs| then xs[k + 1] else z)
    ensures Joined(nf, pf, if k == 0 then a else xs[k - 1], xs[k])
    decreases |xs|
  {
    if k > 0 { ChainAt(nf, pf, xs[0], xs[1..], z, k - 1); }
  }

  /** Linking the neighbours of `x` to each other takes `x` out of the chain. */
  lemma {:induction false} UnlinkChain(nf: Ptrs, pf: Ptrs, a: int, xs: seq<nat>, z: int, x: nat)
    requires Chain(nf, pf, a, xs, z) && Distinct(xs) && a !in xs && z !in xs && x in xs
    ensures x in nf && x in pf
    ensures pf[x] == a || pf[x] in xs
    ensures nf[x] == z || nf[x] in xs[1..]
    ensures Chain(nf[pf[x] := nf[x]], pf[nf[x] := pf[x]], a, Drop(xs, x), z)
    decreases |xs|
  {
    if xs[0] != x {
      UnlinkChain(nf, pf, xs[0], xs[1..], z, x);
    } else if |xs| > 1 {
      ChainFrame(nf, pf, nf[a := xs[1]], pf[xs[1] := a], xs[1], xs[1..][1..], z);
    }
  }

  /** Linking `x` in between `a` and the first element. */
  lemma PushChain(nf: Ptrs, pf: Ptrs, a: int, xs: seq<nat>, x: nat)
    requires Chain(nf, pf, a, xs, a) && Distinct(xs) && a !in xs && x !in xs && x != a
    ensures a in nf
    ensures Chain(nf[x := nf[a]][a := x], pf[x := a][nf[a] := x], a, [x] + xs, a)
  {
    var (nf', pf') := (nf[x := nf[a]][a := x], pf[x := a][nf[a] := x]);
    assert ([x] + xs)[1..] == xs;
    if xs != [] {
      ChainFrame(nf, pf, nf', pf', xs[0], xs[1..], a);
    }
  }
}
