/** Sequences of adjacent memory blocks: the shape both heap allocators keep.
    A block runs from its header at `off` up to the next header at `end`. */
module Blocks {

  datatype Block = Block(off: nat, end: nat, used: bool)

  /** One block on its own: word aligned, with room for a header of `h` bytes and one word. */
  predicate WellSized(b: Block, h: nat) {
    b.off % 4 == 0 && b.end % 4 == 0 && b.off + h + 4 <= b.end
  }

  /** The blocks lie end to end from `lo` to `hi`, leaving no gap and no overlap. */
  predicate Tiles(bs: seq<Block>, lo: nat, hi: nat, h: nat) {
    if bs == [] then lo == hi
    else bs[0].off == lo && WellSized(bs[0], h) && Tiles(bs[1..], bs[0].end, hi, h)
  }

  /** No two neighbours are both free: all merging has been done. */
  predicate Coalesced(bs: seq<Block>) {
    |bs| > 1 ==> (bs[0].used || bs[1].used) && Coalesced(bs[1..])
  }

  /** Blocks `lo` up to (not including) `hi` give way to `mid`. */
  function Replace(bs: seq<Block>, lo: nat, hi: nat, mid: seq<Block>): seq<Block>
    requires lo <= hi <= |bs|
  {
    bs[..lo] + mid + bs[hi..]
  }

  /** Total length, less `h` bytes a block, of the blocks whose used flag is `used`. */
  function Sum(bs: seq<Block>, used: bool, h: nat): int {
    if bs == [] then 0
    else (if bs[0].used == used then bs[0].end - bs[0].off - h else 0) + Sum(bs[1..], used, h)
  }

  /** The blocks in use. */
  function Live(bs: seq<Block>): set<Block> {
    set b | b in bs && b.used
  }

  // ---------------------------------------------------------------- joining and cutting

  lemma {:induction false} SumAppend(a: seq<Block>, b: seq<Block>, used: bool, h: nat)
    ensures Sum(a + b, used, h) == Sum(a, used, h) + Sum(b, used, h)
  {
    if a == [] {
      assert a + b == b;
    } else {
      assert (a + b)[1..] == a[1..] + b;
      SumAppend(a[1..], b, used, h);
    }
  }

  lemma {:induction false} TilesAppend(a: seq<Block>, b: seq<Block>, lo: nat, mid: nat, hi: nat, h: nat)
    requires Tiles(a, lo, mid, h) && Tiles(b, mid, hi, h)
    ensures Tiles(a + b, lo, hi, h)
  {
    if a == [] {
      assert a + b == b;
    } else {
      assert (a + b)[1..] == a[1..] + b;
      TilesAppend(a[1..], b, a[0].end, mid, hi, h);
    }
  }

  /** A tiling can be cut in front of any block. */
  lemma {:induction false} TilesCut(bs: seq<Block>, lo: nat, hi: nat, h: nat, i: nat)
    requires Tiles(bs, lo, hi, h)
    requires i <= |bs|
    ensures i < |bs| ==> WellSized(bs[i], h) && lo <= bs[i].off && bs[i].end <= hi
    ensures lo <= hi
    ensures Tiles(bs[..i], lo, if i < |bs| then bs[i].off else hi, h)
    ensures Tiles(bs[i..], if i < |bs| then bs[i].off else hi, hi, h)
    ensures i > 0 ==> bs[i - 1].end == if i < |bs| then bs[i].off else hi
    decreases |bs|
  {
    if bs != [] {
      TilesCut(bs[1..], bs[0].end, hi, h, if i == 0 then 0 else i - 1);
      if i == 0 {
        assert bs[0..] == bs;
      } else {
        assert bs[..i][1..] == bs[1..][..i - 1];
        assert bs[i..] == bs[1..][i - 1..];
      }
    }
  }

  /** Earlier blocks end before later ones start. */
  lemma TilesOrdered(bs: seq<Block>, lo: nat, hi: nat, h: nat, i: nat, j: nat)
    requires Tiles(bs, lo, hi, h)
    requires i < j <= |bs|
    ensures bs[i].end <= if j < |bs| then bs[j].off else hi
  {
    TilesCut(bs, lo, hi, h, j);
    TilesCut(bs[..j], lo, if j < |bs| then bs[j].off else hi, h, i);
  }

  lemma {:induction false} CoalescedAppend(a: seq<Block>, b: seq<Block>)
    requires Coalesced(a) && Coalesced(b)
    requires a != [] && b != [] ==> a[|a| - 1].used || b[0].used
    ensures Coalesced(a + b)
  {
    if a == [] {
      assert a + b == b;
    } else {
      assert (a + b)[1..] == a[1..] + b;
      CoalescedAppend(a[1..], b);
    }
  }

  lemma {:induction false} CoalescedCut(bs: seq<Block>, i: nat)
    requires Coalesced(bs)
    requires i <= |bs|
    ensures Coalesced(bs[..i]) && Coalesced(bs[i..])
    ensures 0 < i < |bs| ==> bs[i - 1].used || bs[i].used
    decreases |bs|
  {
    if i > 0 {
      CoalescedCut(bs[1..], i - 1);
      assert bs[..i][1..] == bs[1..][..i - 1];
      assert bs[i..] == bs[1..][i - 1..];
    } else {
      assert bs[0..] == bs;
    }
  }

  lemma TilesOne(b: Block, h: nat)
    requires WellSized(b, h)
    ensures Tiles([b], b.off, b.end, h)
  {
    assert [b][1..] == [];
  }

  lemma TilesTwo(a: Block, b: Block, h: nat)
    requires WellSized(a, h) && WellSized(b, h) && a.end == b.off
    ensures Tiles([a, b], a.off, b.end, h)
  {
    assert [a, b] == [a] + [b];
    TilesOne(a, h);
    TilesOne(b, h);
    TilesAppend([a], [b], a.off, a.end, b.end, h);
  }

  // ---------------------------------------------------------------- replacing a stretch of blocks

  /** Replacing a stretch of blocks changes a sum by the difference of the two stretches. */
  lemma SumReplace(bs: seq<Block>, lo: nat, hi: nat, mid: seq<Block>, used: bool, h: nat)
    requires lo <= hi <= |bs|
    ensures Sum(Replace(bs, lo, hi, mid), used, h)
         == Sum(bs, used, h) - Sum(bs[lo..hi], used, h) + Sum(mid, used, h)
  {
    SumAppend(bs[..lo] + mid, bs[hi..], used, h);
    SumAppend(bs[..lo], mid, used, h);
    assert bs == bs[..lo] + bs[lo..hi] + bs[hi..];
    SumAppend(bs[..lo] + bs[lo..hi], bs[hi..], used, h);
    SumAppend(bs[..lo], bs[lo..hi], used, h);
  }

  /** Replacing a stretch by blocks that tile the same range keeps the tiling. */
  lemma TilesReplace(bs: seq<Block>, from: nat, to: nat, mid: seq<Block>, lo: nat, hi: nat, h: nat)
    requires Tiles(bs, lo, hi, h)
    requires from < to <= |bs|
    requires Tiles(mid, bs[from].off, bs[to - 1].end, h)
    ensures Tiles(Replace(bs, from, to, mid), lo, hi, h)
  {
    TilesCut(bs, lo, hi, h, from);
    TilesCut(bs, lo, hi, h, to);
    TilesAppend(bs[..from], mid, lo, bs[from].off, bs[to - 1].end, h);
    TilesAppend(bs[..from] + mid, bs[to..], lo, bs[to - 1].end, hi, h);
  }

  /** A replacement stays coalesced when it is coalesced inside and at both seams. */
  lemma CoalescedReplace(bs: seq<Block>, from: nat, to: nat, mid: seq<Block>)
    requires from < to <= |bs| && mid != []
    requires Coalesced(bs) && Coalesced(mid)
    requires from > 0 ==> bs[from - 1].used || mid[0].used
    requires to < |bs| ==> bs[to].used || mid[|mid| - 1].used
    ensures Coalesced(Replace(bs, from, to, mid))
  {
    CoalescedCut(bs, from);
    CoalescedCut(bs, to);
    CoalescedAppend(bs[..from], mid);
    CoalescedAppend(bs[..from] + mid, bs[to..]);
  }

  /** Blocks outside the replaced stretch stay; those of `mid` come in; nothing else does. */
  lemma MembersReplace(bs: seq<Block>, lo: nat, hi: nat, mid: seq<Block>, b: Block)
    requires lo <= hi <= |bs|
    ensures b in Replace(bs, lo, hi, mid) <==> b in bs[..lo] || b in mid || b in bs[hi..]
    ensures b in bs <==> b in bs[..lo] || b in bs[lo..hi] || b in bs[hi..]
  {
    assert bs == bs[..lo] + bs[lo..hi] + bs[hi..];
  }

  /** A block of a tiling occurs once. */
  lemma OccursOnce(bs: seq<Block>, lo: nat, hi: nat, h: nat, i: nat, j: nat)
    requires Tiles(bs, lo, hi, h)
    requires i < |bs| && j < |bs| && i != j
    ensures bs[i].off != bs[j].off
  {
    TilesCut(bs, lo, hi, h, i);
    TilesCut(bs, lo, hi, h, j);
    if i < j {
      TilesOrdered(bs, lo, hi, h, i, j);
    } else {
      TilesOrdered(bs, lo, hi, h, j, i);
    }
  }

  /** A step that only rewrites blocks lo..hi changes exactly those live blocks. */
  lemma LiveReplace(bs: seq<Block>, end: nat, h: nat, lo: nat, hi: nat, mid: seq<Block>)
    requires Tiles(bs, 0, end, h)
    requires lo < hi <= |bs|
    ensures Live(Replace(bs, lo, hi, mid)) == Live(bs) - Live(bs[lo..hi]) + Live(mid)
  {
    forall b
      ensures b in Live(Replace(bs, lo, hi, mid)) <==> b in Live(bs) - Live(bs[lo..hi]) + Live(mid)
    {
      MembersReplace(bs, lo, hi, mid, b);
      if b in bs[lo..hi] {
        var i :| lo <= i < hi && bs[i] == b;
        if b in bs[..lo] || b in bs[hi..] {
          var j :| 0 <= j < |bs| && bs[j] == b && i != j;
          OccursOnce(bs, 0, end, h, i, j);
        }
      }
    }
  }

  /** Distinct blocks of a tiling do not overlap. */
  lemma LiveDisjoint(bs: seq<Block>, lo: nat, hi: nat, h: nat, a: Block, b: Block)
    requires Tiles(bs, lo, hi, h)
    requires a in bs && b in bs && a != b
    ensures a.end <= b.off || b.end <= a.off
    ensures a.off != b.off
  {
    var i :| 0 <= i < |bs| && bs[i] == a;
    var j :| 0 <= j < |bs| && bs[j] == b;
    OccursOnce(bs, lo, hi, h, i, j);
    if i < j {
      TilesOrdered(bs, lo, hi, h, i, j);
    } else {
      TilesOrdered(bs, lo, hi, h, j, i);
    }
  }

  // ---------------------------------------------------------------- finding blocks

  /** Index of the first block at `off`, counting from `from`; |bs| when there is none. */
  function Index(bs: seq<Block>, off: int, from: nat := 0): (i: nat)
    requires from <= |bs|
    ensures from <= i <= |bs|
    ensures i < |bs| ==> bs[i].off == off
    ensures forall k :: from <= k < i ==> bs[k].off != off
    decreases |bs| - from
  {
    if from == |bs| || bs[from].off == off then from else Index(bs, off, from + 1)
  }

  lemma IndexAt(bs: seq<Block>, lo: nat, hi: nat, h: nat, i: nat)
    requires Tiles(bs, lo, hi, h)
    requires i < |bs|
    ensures Index(bs, bs[i].off) == i
  {
    if Index(bs, bs[i].off) != i {
      OccursOnce(bs, lo, hi, h, i, Index(bs, bs[i].off));
    }
  }

  // ---------------------------------------------------------------- the three changes an allocator makes

  /** First block of the free stretch that block `i` joins on becoming free. */
  function MergeFrom(bs: seq<Block>, i: nat): (lo: nat)
    requires i < |bs|
    ensures lo <= i
  {
    if i > 0 && !bs[i - 1].used then i - 1 else i
  }

  /** One past the last block of that stretch. */
  function MergeTo(bs: seq<Block>, i: nat): (hi: nat)
    requires i < |bs|
    ensures i < hi <= |bs|
  {
    if i + 1 < |bs| && !bs[i + 1].used then i + 2 else i + 1
  }

  /** Block `i` becomes free and joins its free neighbours. */
  function Join(bs: seq<Block>, i: nat): seq<Block>
    requires i < |bs|
  {
    var (lo, hi) := (MergeFrom(bs, i), MergeTo(bs, i));
    Replace(bs, lo, hi, [Block(bs[lo].off, bs[hi - 1].end, false)])
  }

  /** Block `i` becomes, or stays, used and ends at `cut`; what follows up to the next used block is free. */
  function CutAt(bs: seq<Block>, i: nat, cut: nat): seq<Block>
    requires i < |bs|
  {
    var hi := MergeTo(bs, i);
    Replace(bs, i, hi, [Block(bs[i].off, cut, true), Block(cut, bs[hi - 1].end, false)])
  }

  /** Block `i` becomes used as it is. */
  function MarkUsed(bs: seq<Block>, i: nat): seq<Block>
    requires i < |bs|
  {
    Replace(bs, i, i + 1, [bs[i].(used := true)])
  }

  lemma JoinTiles(bs: seq<Block>, end: nat, h: nat, i: nat)
    requires Tiles(bs, 0, end, h) && Coalesced(bs)
    requires i < |bs| && bs[i].used
    ensures Tiles(Join(bs, i), 0, end, h) && Coalesced(Join(bs, i))
    ensures Join(bs, i)[MergeFrom(bs, i)] == Block(bs[MergeFrom(bs, i)].off, bs[MergeTo(bs, i) - 1].end, false)
  {
    var (lo, hi) := (MergeFrom(bs, i), MergeTo(bs, i));
    var mid := [Block(bs[lo].off, bs[hi - 1].end, false)];
    TilesCut(bs, 0, end, h, lo);
    TilesCut(bs, 0, end, h, hi - 1);
    if lo < hi - 1 { TilesOrdered(bs, 0, end, h, lo, hi - 1); }
    assert mid[1..] == [];
    TilesReplace(bs, lo, hi, mid, 0, end, h);
    CoalescedCut(bs, lo);
    CoalescedCut(bs, hi);
    CoalescedReplace(bs, lo, hi, mid);
  }

  /** Freeing gives back the block and a header for each neighbour it joins. */
  lemma JoinSums(bs: seq<Block>, end: nat, h: nat, i: nat)
    requires Tiles(bs, 0, end, h)
    requires i < |bs| && bs[i].used
    ensures Sum(Join(bs, i), true, 0) == Sum(bs, true, 0) - (bs[i].end - bs[i].off)
    ensures Sum(Join(bs, i), false, h) == Sum(bs, false, h) + (bs[i].end - bs[i].off - h)
                + (if MergeFrom(bs, i) < i then h else 0) + (if MergeTo(bs, i) > i + 1 then h else 0)
  {
    var (lo, hi) := (MergeFrom(bs, i), MergeTo(bs, i));
    var mid := [Block(bs[lo].off, bs[hi - 1].end, false)];
    SumReplace(bs, lo, hi, mid, true, 0);
    SumReplace(bs, lo, hi, mid, false, h);
    SumStretch(bs, lo, i, hi, true, 0);
    SumStretch(bs, lo, i, hi, false, h);
    TilesCut(bs, 0, end, h, i);
    TilesCut(bs, 0, end, h, i + 1);
    SumOne(mid[0], true, 0);
    SumOne(mid[0], false, h);
  }

  lemma SumOne(b: Block, used: bool, h: nat)
    ensures Sum([b], used, h) == if b.used == used then b.end - b.off - h else 0
  {
    assert [b][1..] == [];
  }

  /** The sum over a stretch of at most three blocks around block `i`. */
  lemma SumStretch(bs: seq<Block>, lo: nat, i: nat, hi: nat, used: bool, h: nat)
    requires i < |bs| && lo <= i <= lo + 1 && i + 1 <= hi <= |bs| && hi <= i + 2
    ensures Sum(bs[lo..hi], used, h) == Sum([bs[i]], used, h)
              + (if lo < i then Sum([bs[lo]], used, h) else 0) + (if hi > i + 1 then Sum([bs[i + 1]], used, h) else 0)
    ensures lo < i ==> Sum([bs[lo]], used, h) == if bs[lo].used == used then bs[lo].end - bs[lo].off - h else 0
    ensures Sum([bs[i]], used, h) == if bs[i].used == used then bs[i].end - bs[i].off - h else 0
    ensures hi > i + 1 ==> Sum([bs[i + 1]], used, h) == if bs[i + 1].used == used then bs[i + 1].end - bs[i + 1].off - h else 0
  {
    var (a, b) := (bs[lo..i], bs[i + 1..hi]);
    assert bs[lo..hi] == a + [bs[i]] + b;
    SumAppend(a + [bs[i]], b, used, h);
    SumAppend(a, [bs[i]], used, h);
    SumOne(bs[i], used, h);
    if lo < i { assert a == [bs[lo]]; SumOne(bs[lo], used, h); }
    if hi > i + 1 { assert b == [bs[i + 1]]; SumOne(bs[i + 1], used, h); }
  }

  lemma LiveStretch(bs: seq<Block>, lo: nat, i: nat, hi: nat)
    requires i < |bs| && lo <= i <= lo + 1 && i + 1 <= hi <= |bs| && hi <= i + 2
    requires lo < i ==> !bs[lo].used
    requires hi > i + 1 ==> !bs[i + 1].used
    ensures Live(bs[lo..hi]) == if bs[i].used then {bs[i]} else {}
  {
    var s := bs[lo..hi];
    assert bs[i] == s[i - lo];
    forall b | b in s
      ensures b == bs[i] || !b.used
    {
      var k :| 0 <= k < |s| && s[k] == b;
      assert s[k] == bs[lo + k];
    }
  }

  lemma JoinLive(bs: seq<Block>, end: nat, h: nat, i: nat)
    requires Tiles(bs, 0, end, h)
    requires i < |bs| && bs[i].used
    ensures Live(Join(bs, i)) == Live(bs) - {bs[i]}
  {
    var (lo, hi) := (MergeFrom(bs, i), MergeTo(bs, i));
    LiveStretch(bs, lo, i, hi);
    LiveReplace(bs, end, h, lo, hi, [Block(bs[lo].off, bs[hi - 1].end, false)]);
  }

  /** `cut` leaves room for a word in front of it and for a header and a word behind it. */
  predicate CutFits(bs: seq<Block>, h: nat, i: nat, cut: nat) {
    && i < |bs| && cut % 4 == 0
    && bs[i].off + h + 4 <= cut && cut + h + 4 <= bs[MergeTo(bs, i) - 1].end
  }

  lemma CutTiles(bs: seq<Block>, end: nat, h: nat, i: nat, cut: nat)
    requires Tiles(bs, 0, end, h) && Coalesced(bs) && CutFits(bs, h, i, cut)
    ensures Tiles(CutAt(bs, i, cut), 0, end, h) && Coalesced(CutAt(bs, i, cut))
  {
    var hi := MergeTo(bs, i);
    var mid := [Block(bs[i].off, cut, true), Block(cut, bs[hi - 1].end, false)];
    TilesCut(bs, 0, end, h, i);
    TilesCut(bs, 0, end, h, hi - 1);
    assert mid[1..] == [mid[1]] && mid[1..][1..] == [];
    TilesReplace(bs, i, hi, mid, 0, end, h);
    CoalescedCut(bs, hi);
    CoalescedCut(bs, i);
    if i + 1 < |bs| { CoalescedCut(bs, i + 1); }
    CoalescedReplace(bs, i, hi, mid);
  }

  lemma CutSums(bs: seq<Block>, end: nat, h: nat, i: nat, cut: nat)
    requires Tiles(bs, 0, end, h) && Coalesced(bs) && CutFits(bs, h, i, cut)
    ensures var (b, hi) := (bs[i], MergeTo(bs, i));
      && Sum(CutAt(bs, i, cut), true, 0) == Sum(bs, true, 0) + (cut - b.off) - (if b.used then b.end - b.off else 0)
      && Sum(CutAt(bs, i, cut), false, h) == Sum(bs, false, h) + (bs[hi - 1].end - cut - h)
           - (if b.used then (if hi > i + 1 then bs[hi - 1].end - b.end - h else 0) else b.end - b.off - h)
  {
    var hi := MergeTo(bs, i);
    var mid := [Block(bs[i].off, cut, true), Block(cut, bs[hi - 1].end, false)];
    SumReplace(bs, i, hi, mid, true, 0);
    SumReplace(bs, i, hi, mid, false, h);
    SumStretch(bs, i, i, hi, true, 0);
    SumStretch(bs, i, i, hi, false, h);
    TilesCut(bs, 0, end, h, i + 1);
    if i + 1 < |bs| { CoalescedCut(bs, i + 1); }
    assert mid == [mid[0]] + [mid[1]];
    SumAppend([mid[0]], [mid[1]], true, 0);
    SumAppend([mid[0]], [mid[1]], false, h);
    SumOne(mid[0], true, 0);
    SumOne(mid[1], true, 0);
    SumOne(mid[0], false, h);
    SumOne(mid[1], false, h);
  }

  lemma CutLive(bs: seq<Block>, end: nat, h: nat, i: nat, cut: nat)
    requires Tiles(bs, 0, end, h) && CutFits(bs, h, i, cut)
    ensures Live(CutAt(bs, i, cut)) == Live(bs) - {bs[i]} + {Block(bs[i].off, cut, true)}
  {
    var hi := MergeTo(bs, i);
    LiveStretch(bs, i, i, hi);
    LiveReplace(bs, end, h, i, hi, [Block(bs[i].off, cut, true), Block(cut, bs[hi - 1].end, false)]);
  }

  lemma MarkTiles(bs: seq<Block>, end: nat, h: nat, i: nat)
    requires Tiles(bs, 0, end, h) && Coalesced(bs) && i < |bs|
    ensures Tiles(MarkUsed(bs, i), 0, end, h) && Coalesced(MarkUsed(bs, i))
  {
    var mid := [bs[i].(used := true)];
    TilesCut(bs, 0, end, h, i);
    assert mid[1..] == [];
    TilesReplace(bs, i, i + 1, mid, 0, end, h);
    CoalescedReplace(bs, i, i + 1, mid);
  }

  lemma MarkSums(bs: seq<Block>, h: nat, i: nat)
    requires i < |bs| && !bs[i].used
    ensures Sum(MarkUsed(bs, i), true, 0) == Sum(bs, true, 0) + (bs[i].end - bs[i].off)
    ensures Sum(MarkUsed(bs, i), false, h) == Sum(bs, false, h) - (bs[i].end - bs[i].off - h)
  {
    var mid := [bs[i].(used := true)];
    SumReplace(bs, i, i + 1, mid, true, 0);
    SumReplace(bs, i, i + 1, mid, false, h);
    SumStretch(bs, i, i, i + 1, true, 0);
    SumStretch(bs, i, i, i + 1, false, h);
    SumOne(mid[0], true, 0);
    SumOne(mid[0], false, h);
  }

  lemma MarkLive(bs: seq<Block>, end: nat, h: nat, i: nat)
    requires Tiles(bs, 0, end, h) && i < |bs| && !bs[i].used
    ensures Live(MarkUsed(bs, i)) == Live(bs) + {bs[i].(used := true)}
  {
    LiveStretch(bs, i, i, i + 1);
    LiveReplace(bs, end, h, i, i + 1, [bs[i].(used := true)]);
  }

  /** Cutting a free block between used neighbours and joining again gives the layout back. */
  lemma CutThenJoin(bs: seq<Block>, i: nat, cut: nat)
    requires i < |bs| && !bs[i].used && MergeFrom(bs, i) == i && MergeTo(bs, i) == i + 1
    ensures i < |CutAt(bs, i, cut)| && CutAt(bs, i, cut)[i] == Block(bs[i].off, cut, true)
    ensures Join(CutAt(bs, i, cut), i) == bs && MergeFrom(CutAt(bs, i, cut), i) == i
    ensures MergeTo(CutAt(bs, i, cut), i) == i + 2 && CutAt(bs, i, cut)[i + 1] == Block(cut, bs[i].end, false)
  {
    var ts := CutAt(bs, i, cut);
    assert ts[..i] == bs[..i];
    assert ts[i + 2..] == bs[i + 1..];
    assert i > 0 ==> ts[i - 1] == bs[i - 1];
    assert bs == bs[..i] + [bs[i]] + bs[i + 1..];
  }

  /** So does marking it used and joining. */
  lemma MarkThenJoin(bs: seq<Block>, i: nat)
    requires i < |bs| && !bs[i].used && MergeFrom(bs, i) == i && MergeTo(bs, i) == i + 1
    ensures i < |MarkUsed(bs, i)| && MarkUsed(bs, i)[i] == bs[i].(used := true)
    ensures Join(MarkUsed(bs, i), i) == bs && MergeFrom(MarkUsed(bs, i), i) == i && MergeTo(MarkUsed(bs, i), i) == i + 1
  {
    var ts := MarkUsed(bs, i);
    assert ts[..i] == bs[..i];
    assert ts[i + 1..] == bs[i + 1..];
    if i + 1 < |ts| { assert ts[i + 1] == ts[i + 1..][0] == bs[i + 1..][0]; }
    assert i > 0 ==> ts[i - 1] == bs[i - 1];
    assert bs == bs[..i] + [bs[i]] + bs[i + 1..];
  }

  // ---------------------------------------------------------------- the same changes in single steps

  /** Block `i` takes in block `i + 1`. */
  function Merge(bs: seq<Block>, i: nat): seq<Block>
    requires i + 1 < |bs|
  {
    Replace(bs, i, i + 2, [Block(bs[i].off, bs[i + 1].end, bs[i].used)])
  }

  /** Block `i` is cut in two at `cut`; the second part is free. */
  function Split(bs: seq<Block>, i: nat, cut: nat): seq<Block>
    requires i < |bs|
  {
    Replace(bs, i, i + 1, [bs[i].(end := cut), Block(cut, bs[i].end, false)])
  }

  /** Block `i` gets the given used flag. */
  function Flag(bs: seq<Block>, i: nat, used: bool): seq<Block>
    requires i < |bs|
  {
    Replace(bs, i, i + 1, [bs[i].(used := used)])
  }

  /** Merging forward and then backward is joining the free neighbours of a free block. */
  lemma JoinIsMerges(bs: seq<Block>, i: nat)
    requires i < |bs| && !bs[i].used
    ensures var cs := if MergeTo(bs, i) == i + 2 then Merge(bs, i) else bs;
      && |cs| > i && MergeFrom(cs, i) == MergeFrom(bs, i) && (i > 0 ==> cs[i - 1] == bs[i - 1])
      && Join(bs, i) == if MergeFrom(cs, i) < i then Merge(cs, i - 1) else cs
  {
    var cs := if MergeTo(bs, i) == i + 2 then Merge(bs, i) else bs;
    assert bs == bs[..i] + [bs[i]] + bs[i + 1..];
    assert cs[..i] == bs[..i];
    assert cs[i + 1..] == bs[MergeTo(bs, i)..];
    if i > 0 { assert cs[i - 1] == bs[i - 1] && cs[..i - 1] == bs[..i - 1]; }
  }

  /** Splitting a block whose successor is used and handing out its first part. */
  lemma SplitFlagIsCut(bs: seq<Block>, i: nat, cut: nat)
    requires i < |bs| && MergeTo(bs, i) == i + 1
    ensures Flag(Split(bs, i, cut), i, true) == CutAt(bs, i, cut)
  {
    var s := Split(bs, i, cut);
    assert s[..i] == bs[..i] && s[i] == bs[i].(end := cut);
    assert s[i + 1..] == [Block(cut, bs[i].end, false)] + bs[i + 1..];
  }

  /** Splitting a used block and joining the freed rest with a free successor. */
  lemma SplitJoinIsCut(bs: seq<Block>, i: nat, cut: nat)
    requires i < |bs| && bs[i].used
    ensures var s := Split(bs, i, cut);
      && i + 1 < |s| && s[i + 1] == Block(cut, bs[i].end, false) && s[i].used
      && MergeFrom(s, i + 1) == i + 1 && MergeTo(s, i + 1) == MergeTo(bs, i) + 1
      && Join(s, i + 1) == CutAt(bs, i, cut)
  {
    var s := Split(bs, i, cut);
    assert s[..i + 1] == bs[..i] + [bs[i].(end := cut)];
    assert s[i + 2..] == bs[i + 1..];
    if i + 2 < |s| { assert s[i + 2] == s[i + 2..][0] == bs[i + 1..][0]; }
    assert s[MergeTo(bs, i) + 1..] == bs[MergeTo(bs, i)..];
  }

  /** Clearing the flag first does not matter to joining. */
  lemma FlagJoinIsJoin(bs: seq<Block>, i: nat)
    requires i < |bs|
    ensures var s := Flag(bs, i, false);
      && s[i] == bs[i].(used := false)
      && MergeFrom(s, i) == MergeFrom(bs, i) && MergeTo(s, i) == MergeTo(bs, i)
      && (i > 0 ==> s[i - 1] == bs[i - 1])
      && Join(s, i) == Join(bs, i)
  {
    var s := Flag(bs, i, false);
    assert s[..i] == bs[..i] && s[i + 1..] == bs[i + 1..];
    if i > 0 { assert s[i - 1] == bs[i - 1]; }
    if i + 1 < |bs| { assert s[i + 1] == s[i + 1..][0] == bs[i + 1..][0]; }
    assert s[..MergeFrom(bs, i)] == bs[..MergeFrom(bs, i)];
    assert s[MergeTo(bs, i)..] == bs[MergeTo(bs, i)..];
  }

  /** Taking in a free successor and splitting again moves the border. */
  lemma MergeSplitIsCut(bs: seq<Block>, i: nat, cut: nat)
    requires i + 1 < |bs| && bs[i].used && !bs[i + 1].used
    ensures i < |Merge(bs, i)| && Merge(bs, i)[i] == Block(bs[i].off, bs[i + 1].end, true)
    ensures Split(Merge(bs, i), i, cut) == CutAt(bs, i, cut)
  {
    var m := Merge(bs, i);
    assert m[..i] == bs[..i] && m[i + 1..] == bs[i + 2..];
  }

  /** Splitting a block in use and merging the rest with a free successor. */
  lemma SplitMergeIsCut(bs: seq<Block>, i: nat, cut: nat)
    requires i < |bs| && bs[i].used
    ensures var s := Split(bs, i, cut);
      && i + 1 < |s| && s[i] == Block(bs[i].off, cut, true) && s[i + 1] == Block(cut, bs[i].end, false)
      && (i + 2 < |s| <==> i + 1 < |bs|) && (i + 1 < |bs| ==> s[i + 2] == bs[i + 1])
      && CutAt(bs, i, cut) == if MergeTo(bs, i) > i + 1 then Merge(s, i + 1) else s
  {
    var s := Split(bs, i, cut);
    assert s[..i + 1] == bs[..i] + [Block(bs[i].off, cut, true)];
    assert s[i + 2..] == bs[i + 1..];
    if i + 2 < |s| {
      assert s[i + 2] == s[i + 2..][0] == bs[i + 1..][0];
      assert s[i + 3..] == bs[i + 2..];
    }
  }

  // ---------------------------------------------------------------- the offsets of the free blocks

  function FreeOffsets(bs: seq<Block>): set<nat> {
    set b | b in bs && !b.used :: b.off
  }

  lemma FreeOffsetsAppend(a: seq<Block>, b: seq<Block>)
    ensures FreeOffsets(a + b) == FreeOffsets(a) + FreeOffsets(b)
  {
  }

  lemma FreeOffsetsOne(b: Block)
    ensures FreeOffsets([b]) == if b.used then {} else {b.off}
  {
    assert b in [b];
  }

  /** Offsets inside the replaced stretch belong to no other block. */
  lemma FreeOffsetsApart(bs: seq<Block>, end: nat, h: nat, lo: nat, hi: nat)
    requires Tiles(bs, 0, end, h) && lo <= hi <= |bs|
    ensures FreeOffsets(bs[..lo]) !! FreeOffsets(bs[lo..hi]) && FreeOffsets(bs[hi..]) !! FreeOffsets(bs[lo..hi])
  {
    forall a, b | a in bs[lo..hi] && (b in bs[..lo] || b in bs[hi..])
      ensures a.off != b.off
    {
      var i :| lo <= i < hi && bs[i] == a;
      var j :| 0 <= j < |bs| && bs[j] == b && i != j;
      OccursOnce(bs, 0, end, h, i, j);
    }
  }

  lemma FreeOffsetsReplace(bs: seq<Block>, end: nat, h: nat, lo: nat, hi: nat, mid: seq<Block>)
    requires Tiles(bs, 0, end, h) && lo <= hi <= |bs|
    ensures FreeOffsets(Replace(bs, lo, hi, mid)) == FreeOffsets(bs) - FreeOffsets(bs[lo..hi]) + FreeOffsets(mid)
  {
    FreeOffsetsApart(bs, end, h, lo, hi);
    assert bs == bs[..lo] + bs[lo..hi] + bs[hi..];
    FreeOffsetsAppend(bs[..lo] + bs[lo..hi], bs[hi..]);
    FreeOffsetsAppend(bs[..lo], bs[lo..hi]);
    FreeOffsetsAppend(bs[..lo] + mid, bs[hi..]);
    FreeOffsetsAppend(bs[..lo], mid);
  }

  /** The free offsets of a stretch of at most three blocks around block `i`. */
  lemma FreeStretch(bs: seq<Block>, lo: nat, i: nat, hi: nat)
    requires i < |bs| && lo <= i <= lo + 1 && i + 1 <= hi <= |bs| && hi <= i + 2
    requires lo < i ==> !bs[lo].used
    requires hi > i + 1 ==> !bs[i + 1].used
    ensures FreeOffsets(bs[lo..hi]) == (if lo < i then {bs[lo].off} else {}) + (if bs[i].used then {} else {bs[i].off})
                                       + (if hi > i + 1 then {bs[i + 1].off} else {})
  {
    var (a, b) := (bs[lo..i], bs[i + 1..hi]);
    assert bs[lo..hi] == a + [bs[i]] + b;
    FreeOffsetsAppend(a + [bs[i]], b);
    FreeOffsetsAppend(a, [bs[i]]);
    FreeOffsetsOne(bs[i]);
    if lo < i { assert a == [bs[lo]]; FreeOffsetsOne(bs[lo]); }
    if hi > i + 1 { assert b == [bs[i + 1]]; FreeOffsetsOne(bs[i + 1]); }
  }

  lemma JoinFree(bs: seq<Block>, end: nat, h: nat, i: nat)
    requires Tiles(bs, 0, end, h) && i < |bs| && bs[i].used
    ensures FreeOffsets(Join(bs, i)) == FreeOffsets(bs) - (if MergeTo(bs, i) > i + 1 then {bs[i + 1].off} else {})
                                        + {bs[MergeFrom(bs, i)].off}
  {
    var (lo, hi) := (MergeFrom(bs, i), MergeTo(bs, i));
    FreeStretch(bs, lo, i, hi);
    FreeOffsetsReplace(bs, end, h, lo, hi, [Block(bs[lo].off, bs[hi - 1].end, false)]);
    FreeOffsetsOne(Block(bs[lo].off, bs[hi - 1].end, false));
    if hi > i + 1 { OccursOnce(bs, 0, end, h, lo, i + 1); }
  }

  lemma CutFree(bs: seq<Block>, end: nat, h: nat, i: nat, cut: nat)
    requires Tiles(bs, 0, end, h) && i < |bs|
    ensures FreeOffsets(CutAt(bs, i, cut)) == FreeOffsets(bs) - (if bs[i].used then {} else {bs[i].off})
                                              - (if MergeTo(bs, i) > i + 1 then {bs[i + 1].off} else {}) + {cut}
  {
    var hi := MergeTo(bs, i);
    var (a, b) := (Block(bs[i].off, cut, true), Block(cut, bs[hi - 1].end, false));
    FreeStretch(bs, i, i, hi);
    FreeOffsetsReplace(bs, end, h, i, hi, [a, b]);
    assert [a, b] == [a] + [b];
    FreeOffsetsAppend([a], [b]);
    FreeOffsetsOne(a);
    FreeOffsetsOne(b);
  }

  lemma MarkFree(bs: seq<Block>, end: nat, h: nat, i: nat)
    requires Tiles(bs, 0, end, h) && i < |bs| && !bs[i].used
    ensures FreeOffsets(MarkUsed(bs, i)) == FreeOffsets(bs) - {bs[i].off}
  {
    FreeStretch(bs, i, i, i + 1);
    FreeOffsetsReplace(bs, end, h, i, i + 1, [bs[i].(used := true)]);
    FreeOffsetsOne(bs[i].(used := true));
  }

  // ---------------------------------------------------------------- bounds and the empty heap

  /** Used and free lengths add up to the whole; neither is negative. */
  lemma {:induction false} SumTotal(bs: seq<Block>, lo: nat, hi: nat, h: nat)
    requires Tiles(bs, lo, hi, h)
    ensures Sum(bs, true, 0) + Sum(bs, false, 0) == hi - lo
    ensures 0 <= Sum(bs, true, 0) && 0 <= Sum(bs, false, h) && 0 <= Sum(bs, false, 0)
    ensures Sum(bs, false, h) <= hi - lo
    ensures lo <= hi
  {
    if bs != [] {
      SumTotal(bs[1..], bs[0].end, hi, h);
    }
  }

  /** With nothing live a coalesced layout is one free block. */
  lemma NothingLive(bs: seq<Block>, end: nat, h: nat)
    requires Tiles(bs, 0, end, h) && Coalesced(bs) && Live(bs) == {} && end > 0
    ensures bs == [Block(0, end, false)]
  {
    assert forall i :: 0 <= i < |bs| ==> bs[i] in bs;
    assert forall b :: b in bs ==> b !in Live(bs);
    if |bs| > 1 {
      assert false;
    }
    assert bs[1..] == [];
  }
}
