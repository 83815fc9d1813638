/** What memheap.c does, as functions on the block layout and the order of the free list, and the properties of
    every run of rt_memheap_alloc, rt_memheap_realloc and rt_memheap_free. Offsets count from start_addr. */
module MemHeapSpec {
  import opened Words
  import opened Blocks
  import opened Lists
  import opened Runs

  const HDR := 24    // RT_MEMHEAP_SIZE
  const MINI := 12   // RT_MEMHEAP_MINIALLOC

  /** `free` lists the offsets of the free blocks in free-list order; the used tail at pool - HDR is not in `blocks`. */
  datatype State = State(pool: nat, blocks: seq<Block>, free: seq<nat>, avail: int, maxUsed: int)

  datatype Op =
    | Alloc(size: word)
    | Free(ptr: Option<nat>)
    | Realloc(mem: Option<nat>, newsize: word)

  // ---------------------------------------------------------------- the operations

  function Init(pool: nat): State
    requires pool >= 2 * HDR
  {
    State(pool, [Block(0, pool - HDR, false)], [0], pool - 2 * HDR, 2 * HDR)
  }

  function Need(size: word): word {
    if Align4(size) < MINI then MINI else Align4(size)
  }

  /** MEMITEM_SIZE */
  function Payload(b: Block): int { b.end - b.off - HDR }

  /** Whether the block at offset `o` has a payload of at least `need`. */
  predicate Roomy(bs: seq<Block>, o: nat, need: nat) {
    var i := Index(bs, o);
    i < |bs| && Payload(bs[i]) >= need
  }

  /** Position in the free list of the first block that is large enough, or |free|. */
  function FirstFit(bs: seq<Block>, free: seq<nat>, need: nat, from: nat := 0): (k: nat)
    requires from <= |free|
    ensures from <= k <= |free|
    ensures k < |free| ==> Roomy(bs, free[k], need)
    ensures forall j :: from <= j < k ==> !Roomy(bs, free[j], need)
    decreases |free| - from
  {
    if from == |free| || Roomy(bs, free[from], need) then from else FirstFit(bs, free, need, from + 1)
  }

  /** The new running maximum after `avail` has changed. */
  function Raise(s: State, avail: int): int {
    if s.pool - avail > s.maxUsed then s.pool - avail else s.maxUsed
  }

  predicate Splits(b: Block, need: nat) {
    Payload(b) >= need + HDR + MINI
  }

  /** Hands out free block `i`. */
  function Take(s: State, i: nat, need: nat): State
    requires i < |s.blocks|
  {
    var b := s.blocks[i];
    if Splits(b, need) then
      var cut := b.off + HDR + need;
      var avail := s.avail - need - HDR;
      State(s.pool, CutAt(s.blocks, i, cut), [cut] + Drop(s.free, b.off), avail, Raise(s, avail))
    else
      var avail := s.avail - Payload(b);
      State(s.pool, MarkUsed(s.blocks, i), Drop(s.free, b.off), avail, Raise(s, avail))
  }

  function Allocate(s: State, size: word): (State, Option<nat>) {
    var k := FirstFit(s.blocks, s.free, Need(size));
    if Need(size) >= s.avail || k == |s.free| then (s, None)
    else (Take(s, Index(s.blocks, s.free[k]), Need(size)), Some(s.free[k] + HDR))
  }

  /** Block `i` becomes free and joins its free neighbours: a free block in front keeps its place in the free list,
      a free block behind leaves the list, and without one in front the block goes to the head of the list. */
  function Release(s: State, i: nat): State
    requires i < |s.blocks|
  {
    var bs := s.blocks;
    var (left, right) := (MergeFrom(bs, i) < i, MergeTo(bs, i) > i + 1);
    var rest := if right then Drop(s.free, bs[i + 1].off) else s.free;
    s.(blocks := Join(bs, i),
       free := if left then rest else [bs[i].off] + rest,
       avail := s.avail + Payload(bs[i]) + (if left then HDR else 0) + (if right then HDR else 0))
  }

  function FreeAt(s: State, p: int): State {
    var i := Index(s.blocks, p - HDR);
    if i < |s.blocks| then Release(s, i) else s
  }

  /** The space from the cut to the next used block becomes one free block at the head of the free list. */
  function CutFree(s: State, i: nat, cut: nat): seq<nat>
    requires i < |s.blocks|
  {
    [cut] + if MergeTo(s.blocks, i) > i + 1 then Drop(s.free, s.blocks[i + 1].off) else s.free
  }

  /** The in-place growth of block `i` into the free block behind it. */
  function Expand(s: State, i: nat, need: nat): State
    requires i < |s.blocks|
  {
    var cut := s.blocks[i].off + HDR + need;
    var avail := s.avail - (need - Payload(s.blocks[i]));
    State(s.pool, CutAt(s.blocks, i, cut), CutFree(s, i, cut), avail, Raise(s, avail))
  }

  /** The test, in 32-bit arithmetic, for growing in place. */
  predicate ExpandGuard(oldsize: int, nextsize: int, need: word) {
    Wrap(nextsize + oldsize) > Wrap(need + MINI)
  }

  function Shrink(s: State, i: nat, need: nat): State
    requires i < |s.blocks|
  {
    var bs := s.blocks;
    var cut := bs[i].off + HDR + need;
    var right := MergeTo(bs, i) > i + 1;
    s.(blocks := CutAt(bs, i, cut),
       free := CutFree(s, i, cut),
       avail := s.avail - (if right then Payload(bs[i + 1]) else 0) + (bs[MergeTo(bs, i) - 1].end - cut - HDR))
  }

  /** How rt_memheap_realloc deals with live block `i` and a size other than 0. */
  datatype Plan = Keep | Grow | Cut | Relocate

  function PlanFor(s: State, i: nat, need: word): Plan
    requires i < |s.blocks|
  {
    var oldsize := Payload(s.blocks[i]);
    if need > oldsize then
      if i + 1 < |s.blocks| && !s.blocks[i + 1].used && ExpandGuard(oldsize, Payload(s.blocks[i + 1]), need) then Grow
      else Relocate
    else if need + HDR + MINI >= oldsize then Keep
    else Cut
  }

  function Reallocate(s: State, p: Option<nat>, newsize: word): (State, Option<nat>) {
    if newsize == 0 then (if p.None? then s else FreeAt(s, p.value), None)
    else if p.None? then Allocate(s, Need(newsize))
    else Resize(s, p.value, Need(newsize))
  }

  /** rt_memheap_realloc of live pointer `p` to the rounded size `need`. */
  function Resize(s: State, p: nat, need: word): (State, Option<nat>) {
    var i := Index(s.blocks, p - HDR);
    if i == |s.blocks| then (s, None)
    else match PlanFor(s, i, need)
      case Keep => (s, Some(p))
      case Grow => (Expand(s, i, need), Some(p))
      case Cut => (Shrink(s, i, need), Some(p))
      case Relocate => Relocated(s, p, need)
  }

  /** A new block, a copy, and the old block is freed. */
  function Relocated(s: State, p: nat, need: word): (State, Option<nat>) {
    var (t, q) := Allocate(s, need);
    (if q.None? then s else FreeAt(t, p), q)
  }

  // ---------------------------------------------------------------- the invariant

  predicate Layout(s: State) {
    s.pool >= HDR && Tiles(s.blocks, 0, s.pool - HDR, HDR) && Coalesced(s.blocks)
  }

  /** The free list holds exactly the offsets of the free blocks, each once. */
  predicate FreeOk(s: State) {
    Distinct(s.free) && Elements(s.free) == FreeOffsets(s.blocks)
  }

  predicate GoodPool(pool: nat) {
    pool % 4 == 0 && 2 * HDR + 4 <= pool < MODULUS
  }

  predicate Inv(s: State) {
    && GoodPool(s.pool) && Layout(s) && FreeOk(s)
    && s.avail == Sum(s.blocks, false, HDR)
    && s.pool - s.avail <= s.maxUsed <= s.pool
  }

  /** An offset strictly inside a block, or anywhere else that is not the start of a block, is not in the free list. */
  lemma CutIsNew(s: State, i: nat, cut: nat)
    requires Layout(s) && FreeOk(s) && i < |s.blocks|
    requires s.blocks[i].off < cut < s.blocks[MergeTo(s.blocks, i) - 1].end
    requires MergeTo(s.blocks, i) == i + 2 ==> cut != s.blocks[i + 1].off
    ensures cut !in s.free
  {
    if cut in s.free {
      assert cut in Elements(s.free);
      var b :| b in s.blocks && !b.used && b.off == cut;
      var j :| 0 <= j < |s.blocks| && s.blocks[j] == b;
      var end := s.pool - HDR;
      var hi := MergeTo(s.blocks, i);
      TilesCut(s.blocks, 0, end, HDR, j);
      if j < i { TilesOrdered(s.blocks, 0, end, HDR, j, i); }
      if j >= hi { TilesOrdered(s.blocks, 0, end, HDR, hi - 1, j); }
    }
  }

  // ---------------------------------------------------------------- every step keeps the invariant

  /** Cutting a block in use keeps layout and free list in step. */
  lemma CutKeeps(s: State, i: nat, cut: nat)
    requires Layout(s) && FreeOk(s) && CutFits(s.blocks, HDR, i, cut) && s.blocks[i].used
    requires MergeTo(s.blocks, i) == i + 2 ==> cut != s.blocks[i + 1].off
    ensures var t := s.(blocks := CutAt(s.blocks, i, cut), free := CutFree(s, i, cut)); Layout(t) && FreeOk(t)
  {
    CutTiles(s.blocks, s.pool - HDR, HDR, i, cut);
    Blocks.CutFree(s.blocks, s.pool - HDR, HDR, i, cut);
    CutIsNew(s, i, cut);
    if MergeTo(s.blocks, i) > i + 1 {
      DropIs(s.free, s.blocks[i + 1].off);
      assert cut !in Elements(s.free);
      PushIs(Drop(s.free, s.blocks[i + 1].off), cut);
    } else {
      PushIs(s.free, cut);
    }
  }

  /** Block `i` may be handed out for a request of `need` bytes. */
  predicate CanTake(s: State, i: nat, need: nat) {
    i < |s.blocks| && !s.blocks[i].used && Payload(s.blocks[i]) >= need && need % 4 == 0 && need >= MINI
  }

  lemma TakeFits(s: State, i: nat, need: nat)
    requires Layout(s) && CanTake(s, i, need)
    ensures MergeFrom(s.blocks, i) == i && MergeTo(s.blocks, i) == i + 1
    ensures WellSized(s.blocks[i], HDR) && s.blocks[i].end <= s.pool - HDR
    ensures Splits(s.blocks[i], need) ==> CutFits(s.blocks, HDR, i, s.blocks[i].off + HDR + need)
  {
    TilesCut(s.blocks, 0, s.pool - HDR, HDR, i);
    CoalescedCut(s.blocks, i);
    if i + 1 < |s.blocks| { CoalescedCut(s.blocks, i + 1); }
  }

  lemma TakeLayout(s: State, i: nat, need: nat)
    requires Layout(s) && CanTake(s, i, need)
    ensures Layout(Take(s, i, need))
  {
    TakeFits(s, i, need);
    if Splits(s.blocks[i], need) {
      CutTiles(s.blocks, s.pool - HDR, HDR, i, s.blocks[i].off + HDR + need);
    } else {
      MarkTiles(s.blocks, s.pool - HDR, HDR, i);
    }
  }

  lemma TakeFree(s: State, i: nat, need: nat)
    requires Layout(s) && FreeOk(s) && CanTake(s, i, need)
    ensures FreeOk(Take(s, i, need))
  {
    var (bs, end, b) := (s.blocks, s.pool - HDR, s.blocks[i]);
    TakeFits(s, i, need);
    DropIs(s.free, b.off);
    if Splits(b, need) {
      var cut := b.off + HDR + need;
      Blocks.CutFree(bs, end, HDR, i, cut);
      CutIsNew(s, i, cut);
      assert cut !in Elements(s.free);
      PushIs(Drop(s.free, b.off), cut);
    } else {
      Blocks.MarkFree(bs, end, HDR, i);
    }
  }

  lemma TakeSums(s: State, i: nat, need: nat)
    requires Layout(s) && CanTake(s, i, need) && s.avail == Sum(s.blocks, false, HDR)
    ensures Take(s, i, need).avail == Sum(Take(s, i, need).blocks, false, HDR)
  {
    TakeFits(s, i, need);
    if Splits(s.blocks[i], need) {
      CutSums(s.blocks, s.pool - HDR, HDR, i, s.blocks[i].off + HDR + need);
    } else {
      MarkSums(s.blocks, HDR, i);
    }
  }

  lemma TakeInv(s: State, i: nat, need: nat)
    requires Inv(s) && CanTake(s, i, need)
    ensures Inv(Take(s, i, need))
  {
    TakeLayout(s, i, need);
    TakeFree(s, i, need);
    TakeSums(s, i, need);
    SumTotal(Take(s, i, need).blocks, 0, s.pool - HDR, HDR);
  }

  /** The free block behind position `k` of the free list. */
  lemma Listed(s: State, k: nat)
    requires Layout(s) && FreeOk(s) && k < |s.free|
    ensures var i := Index(s.blocks, s.free[k]);
      i < |s.blocks| && s.blocks[i].off == s.free[k] && !s.blocks[i].used
  {
    assert s.free[k] in Elements(s.free);
    var b :| b in s.blocks && !b.used && b.off == s.free[k];
    var j :| 0 <= j < |s.blocks| && s.blocks[j] == b;
    IndexAt(s.blocks, 0, s.pool - HDR, HDR, j);
  }

  /** The position in the free list a request is served from, and whether it is served. */
  function Chosen(s: State, size: word): nat {
    FirstFit(s.blocks, s.free, Need(size))
  }

  predicate Served(s: State, size: word) {
    Need(size) < s.avail && Chosen(s, size) < |s.free|
  }

  lemma AllocateIs(s: State, size: word)
    requires Layout(s) && FreeOk(s)
    ensures Served(s, size) ==>
      var i := Index(s.blocks, s.free[Chosen(s, size)]);
      && CanTake(s, i, Need(size)) && s.blocks[i].off == s.free[Chosen(s, size)]
      && Allocate(s, size) == (Take(s, i, Need(size)), Some(s.blocks[i].off + HDR))
    ensures !Served(s, size) ==> Allocate(s, size) == (s, None)
  {
    if Served(s, size) { Listed(s, Chosen(s, size)); }
  }

  lemma AllocateInv(s: State, size: word)
    requires Inv(s)
    ensures Inv(Allocate(s, size).0)
  {
    AllocateIs(s, size);
    if Served(s, size) { TakeInv(s, Index(s.blocks, s.free[Chosen(s, size)]), Need(size)); }
  }

  lemma ReleaseFree(s: State, i: nat)
    requires Layout(s) && FreeOk(s) && i < |s.blocks| && s.blocks[i].used
    ensures FreeOk(Release(s, i))
  {
    var (bs, end) := (s.blocks, s.pool - HDR);
    var (lo, hi) := (MergeFrom(bs, i), MergeTo(bs, i));
    JoinFree(bs, end, HDR, i);
    NotFree(bs, end, i);
    var rest := if hi > i + 1 then Drop(s.free, bs[i + 1].off) else s.free;
    if hi > i + 1 { DropIs(s.free, bs[i + 1].off); }
    if lo < i {
      assert bs[lo] in bs;
      if hi > i + 1 { OccursOnce(bs, 0, end, HDR, lo, i + 1); }
      assert bs[lo].off in FreeOffsets(bs);
    } else {
      PushIs(rest, bs[i].off);
    }
  }

  /** The offset of a block in use is not the offset of a free block. */
  lemma NotFree(bs: seq<Block>, end: nat, i: nat)
    requires Tiles(bs, 0, end, HDR) && i < |bs| && bs[i].used
    ensures bs[i].off !in FreeOffsets(bs)
  {
    if bs[i].off in FreeOffsets(bs) {
      var b :| b in bs && !b.used && b.off == bs[i].off;
      var j :| 0 <= j < |bs| && bs[j] == b;
      OccursOnce(bs, 0, end, HDR, i, j);
    }
  }

  lemma ReleaseInv(s: State, i: nat)
    requires Inv(s) && i < |s.blocks| && s.blocks[i].used
    ensures Inv(Release(s, i))
  {
    JoinTiles(s.blocks, s.pool - HDR, HDR, i);
    JoinSums(s.blocks, s.pool - HDR, HDR, i);
    ReleaseFree(s, i);
    TilesCut(s.blocks, 0, s.pool - HDR, HDR, i);
    SumTotal(Join(s.blocks, i), 0, s.pool - HDR, HDR);
  }

  /** Whether block `i` is in use and `plan` is what realloc to `need` bytes does with it. */
  predicate Planned(s: State, i: nat, need: word, plan: Plan) {
    i < |s.blocks| && s.blocks[i].used && need % 4 == 0 && need >= MINI && PlanFor(s, i, need) == plan
  }

  /** The 32-bit test for growing in place is right exactly for sizes that do not wrap around when
      RT_MEMHEAP_MINIALLOC is added; for larger sizes it passes although the space is missing. */
  lemma ExpandGuardExact(s: State, i: nat, need: word)
    requires Inv(s) && Planned(s, i, need, Grow)
    ensures Payload(s.blocks[i]) + Payload(s.blocks[i + 1]) > need + MINI <==> need + MINI < MODULUS
  {
    TilesCut(s.blocks, 0, s.pool - HDR, HDR, i);
    TilesCut(s.blocks, 0, s.pool - HDR, HDR, i + 1);
  }

  /** Such a size on a small pool. */
  lemma ExpandGuardWraps()
    ensures var s := State(1000, [Block(0, 40, true), Block(40, 976, false)], [40], 912, 88);
      && Inv(s) && Planned(s, 0, 0xFFFF_FFF8, Grow)
      && Payload(s.blocks[0]) + Payload(s.blocks[1]) < 0xFFFF_FFF8
  {
    var s := State(1000, [Block(0, 40, true), Block(40, 976, false)], [40], 912, 88);
    assert s.blocks[1..] == [s.blocks[1]] && s.blocks[1..][1..] == [];
    assert s.free[1..] == [];
    assert s.blocks[1] in s.blocks;
  }

  lemma GrowFits(s: State, i: nat, need: word)
    requires Inv(s) && Planned(s, i, need, Grow) && need + MINI < MODULUS
    ensures MergeTo(s.blocks, i) == i + 2
    ensures var cut := s.blocks[i].off + HDR + need;
      CutFits(s.blocks, HDR, i, cut) && cut != s.blocks[i + 1].off
  {
    ExpandGuardExact(s, i, need);
    TilesCut(s.blocks, 0, s.pool - HDR, HDR, i);
    TilesCut(s.blocks, 0, s.pool - HDR, HDR, i + 1);
  }

  lemma ExpandInv(s: State, i: nat, need: word)
    requires Inv(s) && Planned(s, i, need, Grow) && need + MINI < MODULUS
    ensures Inv(Expand(s, i, need))
  {
    var cut := s.blocks[i].off + HDR + need;
    GrowFits(s, i, need);
    CutKeeps(s, i, cut);
    ExpandSums(s, i, need);
  }

  lemma ExpandSums(s: State, i: nat, need: word)
    requires Inv(s) && Planned(s, i, need, Grow) && need + MINI < MODULUS
    ensures Expand(s, i, need).avail == Sum(CutAt(s.blocks, i, s.blocks[i].off + HDR + need), false, HDR) >= 0
  {
    var cut := s.blocks[i].off + HDR + need;
    GrowFits(s, i, need);
    CutSums(s.blocks, s.pool - HDR, HDR, i, cut);
    CutTiles(s.blocks, s.pool - HDR, HDR, i, cut);
    SumTotal(CutAt(s.blocks, i, cut), 0, s.pool - HDR, HDR);
    TilesCut(s.blocks, 0, s.pool - HDR, HDR, i + 1);
  }

  lemma ShrinkFits(s: State, i: nat, need: word)
    requires Layout(s) && Planned(s, i, need, Cut)
    ensures var cut := s.blocks[i].off + HDR + need;
      CutFits(s.blocks, HDR, i, cut) && (MergeTo(s.blocks, i) == i + 2 ==> cut < s.blocks[i + 1].off)
  {
    TilesCut(s.blocks, 0, s.pool - HDR, HDR, i);
    if i + 1 < |s.blocks| { TilesCut(s.blocks, 0, s.pool - HDR, HDR, i + 1); }
  }

  lemma ShrinkSums(s: State, i: nat, need: word)
    requires Inv(s) && Planned(s, i, need, Cut)
    ensures Shrink(s, i, need).avail == Sum(CutAt(s.blocks, i, s.blocks[i].off + HDR + need), false, HDR) >= s.avail
  {
    var cut := s.blocks[i].off + HDR + need;
    ShrinkFits(s, i, need);
    CutSums(s.blocks, s.pool - HDR, HDR, i, cut);
    TilesCut(s.blocks, 0, s.pool - HDR, HDR, i + 1);
  }

  lemma ShrinkInv(s: State, i: nat, need: word)
    requires Inv(s) && Planned(s, i, need, Cut)
    ensures Inv(Shrink(s, i, need))
  {
    ShrinkFits(s, i, need);
    CutKeeps(s, i, s.blocks[i].off + HDR + need);
    ShrinkSums(s, i, need);
  }

  // ---------------------------------------------------------------- the live payloads

  predicate IsLive(s: State, p: int) {
    var i := Index(s.blocks, p - HDR);
    i < |s.blocks| && s.blocks[i].used
  }

  lemma LiveFound(s: State, b: Block)
    requires Layout(s) && b in Live(s.blocks)
    ensures Index(s.blocks, b.off) < |s.blocks| && s.blocks[Index(s.blocks, b.off)] == b
  {
    var i :| 0 <= i < |s.blocks| && s.blocks[i] == b;
    IndexAt(s.blocks, 0, s.pool - HDR, HDR, i);
  }

  /** Live payloads are aligned, inside the pool and pairwise disjoint, and no header, free or in use, and not the
      tail's either, lies inside one of them. */
  lemma LivePayloads(s: State, a: Block, b: Block)
    requires Layout(s) && a in Live(s.blocks) && b in s.blocks
    ensures (a.off + HDR) % 4 == 0 && a.off + HDR < a.end <= s.pool - HDR
    ensures a != b ==> a.end <= b.off || b.end <= a.off
    ensures a.end <= b.off || b.off + HDR <= a.off + HDR
  {
    var i :| 0 <= i < |s.blocks| && s.blocks[i] == a;
    var j :| 0 <= j < |s.blocks| && s.blocks[j] == b;
    BlocksApart(s.blocks, s.pool - HDR, i, j);
  }

  lemma BlocksApart(bs: seq<Block>, end: nat, i: nat, j: nat)
    requires Tiles(bs, 0, end, HDR) && i < |bs| && j < |bs|
    ensures bs[i].off % 4 == 0 && bs[i].off + HDR < bs[i].end <= end
    ensures i == j || bs[i].end <= bs[j].off || bs[j].end <= bs[i].off
    ensures bs[i].end <= bs[j].off || bs[j].off <= bs[i].off
  {
    TilesCut(bs, 0, end, HDR, i);
    TilesCut(bs, 0, end, HDR, j);
    if i < j { TilesOrdered(bs, 0, end, HDR, i, j); }
    if j < i { TilesOrdered(bs, 0, end, HDR, j, i); }
  }

  /** A block in the pool serves a request for `size` bytes, rounded as rt_memheap_alloc and rt_memheap_realloc do,
      exactly if the size does not wrap around in the alignment. */
  lemma ServesSize(s: State, b: Block, size: word)
    requires Inv(s) && b in Live(s.blocks) && Payload(b) >= Need(size)
    ensures Payload(b) >= size <==> size <= 0xFFFF_FFFC
  {
    LivePayloads(s, b, b);
  }

  /** rt_memheap_alloc serves the size asked for if and only if that is at most 0xFFFFFFFC. */
  lemma AllocSize(s: State, size: word)
    requires Inv(s)
    ensures var (t, p) := Allocate(s, size);
      p.Some? ==>
        && IsLive(t, p.value)
        && (Payload(t.blocks[Index(t.blocks, p.value - HDR)]) >= size <==> size <= 0xFFFF_FFFC)
  {
    var (t, p) := Allocate(s, size);
    AllocateInv(s, size);
    var n := AllocateOutcome(s, size);
    if p.Some? {
      LiveFound(t, n);
      ServesSize(t, n, size);
    }
  }

  /** So does rt_memheap_realloc of a live pointer to a size other than 0. */
  lemma ReallocSize(s: State, b: Block, newsize: word)
    requires Inv(s) && b in Live(s.blocks) && newsize > 0
    requires NoWrap(s, b.off + HDR, Need(newsize))
    ensures var (t, q) := Reallocate(s, Some(b.off + HDR), newsize);
      q.Some? ==>
        && IsLive(t, q.value)
        && (Payload(t.blocks[Index(t.blocks, q.value - HDR)]) >= newsize <==> newsize <= 0xFFFF_FFFC)
  {
    var (t, q) := Reallocate(s, Some(b.off + HDR), newsize);
    LiveFound(s, b);
    NeedOk(newsize);
    ReallocateInv(s, Some(b.off + HDR), newsize);
    var n := ReallocLive(s, b, newsize);
    if q.Some? {
      LiveFound(t, n);
      ServesSize(t, n, newsize);
    }
  }

  /** Asked for 0xFFFFFFFD bytes, rt_memheap_alloc hands out 12 and rt_memheap_realloc cuts a block down to 12. */
  lemma SizesWrap()
    ensures Allocate(Init(100), 0xFFFF_FFFD).1 == Some(HDR)
    ensures Allocate(Init(100), 0xFFFF_FFFD).0.blocks[0] == Block(0, HDR + MINI, true)
    ensures var s := Allocate(Init(124), 52).0;
      && Allocate(Init(124), 52).1 == Some(HDR) && s.blocks == [Block(0, 100, true)]
      && Reallocate(s, Some(HDR), 0xFFFF_FFFD).1 == Some(HDR)
      && Reallocate(s, Some(HDR), 0xFFFF_FFFD).0.blocks[0] == Block(0, HDR + MINI, true)
  {
    var s := Init(100);
    assert Index(s.blocks, 0) == 0 && Roomy(s.blocks, 0, MINI);
    var t := Init(124);
    assert Index(t.blocks, 0) == 0 && Roomy(t.blocks, 0, 52);
    assert !Splits(t.blocks[0], 52);
    var u := Allocate(t, 52).0;
    assert u.blocks == [Block(0, 100, true)];
    assert Index(u.blocks, 0) == 0 && PlanFor(u, 0, MINI) == Cut;
  }

  /** The block the caller gets. */
  function Taken(b: Block, need: nat): Block {
    if Splits(b, need) then Block(b.off, b.off + HDR + need, true) else b.(used := true)
  }

  /** rt_memheap_alloc takes the first block of the free list that is large enough and fails only when no block is,
      or when the request is not below the number of available bytes. Success adds one live block, `n`. */
  lemma AllocateOutcome(s: State, size: word) returns (n: Block)
    requires Inv(s)
    ensures var (t, p) := Allocate(s, size);
      if p.None? then
        t == s && (Need(size) >= s.avail || forall b :: b in s.blocks && !b.used ==> Payload(b) < Need(size))
      else
        && n !in Live(s.blocks) && Live(t.blocks) == Live(s.blocks) + {n}
        && n.off + HDR == p.value && Payload(n) >= Need(size)
        && (exists k :: 0 <= k < |s.free| && s.free[k] == n.off
                        && forall j :: 0 <= j < k ==> !Roomy(s.blocks, s.free[j], Need(size)))
  {
    n := Block(0, 0, false);
    AllocateIs(s, size);
    if Served(s, size) {
      var i := Index(s.blocks, s.free[Chosen(s, size)]);
      n := Taken(s.blocks[i], Need(size));
      TakeLive(s, i, Need(size));
    } else {
      forall b | b in s.blocks && !b.used && Need(size) < s.avail
        ensures Payload(b) < Need(size)
      {
        var i :| 0 <= i < |s.blocks| && s.blocks[i] == b;
        IndexAt(s.blocks, 0, s.pool - HDR, HDR, i);
        assert b.off in Elements(s.free);
        var k :| 0 <= k < |s.free| && s.free[k] == b.off;
        assert !Roomy(s.blocks, s.free[k], Need(size));
      }
    }
  }

  lemma TakeLive(s: State, i: nat, need: nat)
    requires Layout(s) && CanTake(s, i, need)
    ensures Live(Take(s, i, need).blocks) == Live(s.blocks) + {Taken(s.blocks[i], need)}
    ensures Taken(s.blocks[i], need) !in Live(s.blocks)
  {
    var b := s.blocks[i];
    TakeFits(s, i, need);
    if Splits(b, need) {
      CutLive(s.blocks, s.pool - HDR, HDR, i, b.off + HDR + need);
      assert b !in Live(s.blocks);
    } else {
      MarkLive(s.blocks, s.pool - HDR, HDR, i);
    }
    if Taken(b, need) in Live(s.blocks) {
      LiveDisjoint(s.blocks, 0, s.pool - HDR, HDR, Taken(b, need), b);
    }
  }

  /** rt_memheap_free removes exactly the block behind the pointer from the live ones. */
  lemma FreeLive(s: State, b: Block)
    requires Layout(s) && b in Live(s.blocks)
    ensures Live(FreeAt(s, b.off + HDR).blocks) == Live(s.blocks) - {b}
  {
    LiveFound(s, b);
    JoinLive(s.blocks, s.pool - HDR, HDR, Index(s.blocks, b.off));
  }

  /** rt_memheap_realloc of live block `b` to a size other than 0: NULL leaves everything as it was; otherwise one
      block `n` with room for the rounded size takes the place of `b` (ReallocSize says when that is the new size). */
  lemma ReallocLive(s: State, b: Block, newsize: word) returns (n: Block)
    requires Inv(s) && b in Live(s.blocks) && newsize > 0
    requires NoWrap(s, b.off + HDR, Need(newsize))
    ensures var (t, q) := Reallocate(s, Some(b.off + HDR), newsize);
      if q.None? then t == s
      else
        && n.off + HDR == q.value && Payload(n) >= Need(newsize)
        && (n.off == b.off || n !in Live(s.blocks))
        && Live(t.blocks) == Live(s.blocks) - {b} + {n}
  {
    NeedOk(newsize);
    n := ResizeLive(s, b, Need(newsize));
  }

  lemma ResizeLive(s: State, b: Block, need: word) returns (n: Block)
    requires Inv(s) && b in Live(s.blocks) && NoWrap(s, b.off + HDR, need) && Need(need) == need
    ensures var (t, q) := Resize(s, b.off + HDR, need);
      if q.None? then t == s
      else
        && n.off + HDR == q.value && Payload(n) >= need
        && (n.off == b.off || n !in Live(s.blocks))
        && Live(t.blocks) == Live(s.blocks) - {b} + {n}
  {
    LiveFound(s, b);
    NeedOk(need);
    var i := Index(s.blocks, b.off);
    n := if PlanFor(s, i, need) == Keep then b else Block(b.off, b.off + HDR + need, true);
    match PlanFor(s, i, need) {
      case Keep => assert Live(s.blocks) == Live(s.blocks) - {b} + {b};
      case Grow => GrowLive(s, i, need);
      case Cut => ShrinkLive(s, i, need);
      case Relocate => n := RelocateLive(s, b, need);
    }
  }

  lemma GrowLive(s: State, i: nat, need: word)
    requires Inv(s) && Planned(s, i, need, Grow) && need + MINI < MODULUS
    ensures Live(Expand(s, i, need).blocks) ==
            Live(s.blocks) - {s.blocks[i]} + {Block(s.blocks[i].off, s.blocks[i].off + HDR + need, true)}
  {
    GrowFits(s, i, need);
    CutLive(s.blocks, s.pool - HDR, HDR, i, s.blocks[i].off + HDR + need);
  }

  lemma ShrinkLive(s: State, i: nat, need: word)
    requires Layout(s) && Planned(s, i, need, Cut)
    ensures Live(Shrink(s, i, need).blocks) ==
            Live(s.blocks) - {s.blocks[i]} + {Block(s.blocks[i].off, s.blocks[i].off + HDR + need, true)}
  {
    ShrinkFits(s, i, need);
    CutLive(s.blocks, s.pool - HDR, HDR, i, s.blocks[i].off + HDR + need);
  }

  lemma RelocateLive(s: State, b: Block, need: word) returns (n: Block)
    requires Inv(s) && b in Live(s.blocks) && Need(need) == need
    ensures var (t, q) := Relocated(s, b.off + HDR, need);
      if q.None? then t == s
      else
        && n.off + HDR == q.value && Payload(n) >= need && n !in Live(s.blocks)
        && Live(t.blocks) == Live(s.blocks) - {b} + {n}
  {
    n := AllocateOutcome(s, need);
    AllocateInv(s, need);
    if Allocate(s, need).1.Some? { FreeLive(Allocate(s, need).0, b); }
  }

  // ---------------------------------------------------------------- runs

  /** The client rules: only live pointers are freed or reallocated, and a size that makes the test for growing in
      place wrap around is not asked for where that test decides. */
  predicate Legal(s: State, op: Op) {
    match op
    case Alloc(_) => true
    case Free(p) => p.Some? ==> IsLive(s, p.value)
    case Realloc(p, n) => p.Some? ==> IsLive(s, p.value) && (n > 0 ==> NoWrap(s, p.value, Need(n)))
  }

  predicate NoWrap(s: State, p: int, need: word) {
    var i := Index(s.blocks, p - HDR);
    i < |s.blocks| && PlanFor(s, i, need) == Grow ==> need + MINI < MODULUS
  }

  function Step(s: State, op: Op): State {
    match op
    case Alloc(n) => Allocate(s, n).0
    case Free(p) => if p.None? then s else FreeAt(s, p.value)
    case Realloc(p, n) => Reallocate(s, p, n).0
  }

  lemma NeedOk(size: word)
    ensures Need(size) % 4 == 0 && Need(size) >= MINI && Need(Need(size)) == Need(size)
  {
  }

  lemma RelocateInv(s: State, p: nat, need: word)
    requires Inv(s) && IsLive(s, p)
    ensures Inv(Relocated(s, p, need).0)
  {
    var t := Allocate(s, need).0;
    var b := s.blocks[Index(s.blocks, p - HDR)];
    assert b in Live(s.blocks);
    AllocateInv(s, need);
    var _ := AllocateOutcome(s, need);
    LiveFound(t, b);
    ReleaseInv(t, Index(t.blocks, b.off));
  }

  lemma ResizeInv(s: State, p: nat, need: word)
    requires Inv(s) && IsLive(s, p) && NoWrap(s, p, need) && Need(need) == need
    ensures Inv(Resize(s, p, need).0)
  {
    NeedOk(need);
    var i := Index(s.blocks, p - HDR);
    match PlanFor(s, i, need) {
      case Keep =>
      case Grow => ExpandInv(s, i, need);
      case Cut => ShrinkInv(s, i, need);
      case Relocate => RelocateInv(s, p, need);
    }
  }

  lemma ReallocateInv(s: State, p: Option<nat>, newsize: word)
    requires Inv(s) && Legal(s, Realloc(p, newsize))
    ensures Inv(Reallocate(s, p, newsize).0)
  {
    NeedOk(newsize);
    if p.None? {
      AllocateInv(s, Need(newsize));
    } else if newsize == 0 {
      ReleaseInv(s, Index(s.blocks, p.value - HDR));
    } else {
      ResizeInv(s, p.value, Need(newsize));
    }
  }

  lemma StepInv(s: State, op: Op)
    requires Inv(s) && Legal(s, op)
    ensures Inv(Step(s, op))
  {
    match op
    case Alloc(n) => AllocateInv(s, n);
    case Free(p) => if p.Some? { ReleaseInv(s, Index(s.blocks, p.value - HDR)); }
    case Realloc(p, n) => ReallocateInv(s, p, n);
  }

  lemma StepPool(s: State, op: Op)
    ensures Step(s, op).pool == s.pool
  {
  }

  lemma InitInv(pool: nat)
    requires GoodPool(pool)
    ensures Inv(Init(pool))
  {
    var s := Init(pool);
    assert s.blocks[1..] == [] && s.free[1..] == [];
    SumOne(s.blocks[0], false, HDR);
    FreeOffsetsOne(s.blocks[0]);
  }

  /** Every run keeps the pool in order: the blocks tile it up to the used tail, no two free blocks touch, the free
      list holds exactly the free blocks, each once, and available_size is the sum of the free payloads. */
  lemma RunInv(pool: nat, ops: seq<Op>, t: State)
    requires GoodPool(pool)
    requires Reaches(Legal, Step, Init(pool), ops, t)
    ensures Inv(t) && t.pool == pool
  {
    var inv := (s: State) => Inv(s) && s.pool == pool;
    InitInv(pool);
    forall s: State, op: Op | inv(s) && Legal(s, op)
      ensures inv(Step(s, op))
    {
      StepInv(s, op);
      StepPool(s, op);
    }
    RunKeeps(inv, Legal, Step, Init(pool), ops, t);
  }

  /** Available bytes, used payloads and one header for every block and the tail make up the pool. */
  lemma Conservation(s: State)
    requires Inv(s)
    ensures s.avail + Sum(s.blocks, true, HDR) + HDR * (|s.blocks| + 1) == s.pool
  {
    HeaderSums(s.blocks, 0, s.pool - HDR);
  }

  lemma {:induction false} HeaderSums(bs: seq<Block>, lo: nat, hi: nat)
    requires Tiles(bs, lo, hi, HDR)
    ensures Sum(bs, false, HDR) + Sum(bs, true, HDR) + HDR * |bs| == hi - lo
  {
    if bs != [] { HeaderSums(bs[1..], bs[0].end, hi); }
  }

  /** A run after which nothing is live has merged the pool back into its initial single block. */
  lemma AllFreeIsInitial(pool: nat, ops: seq<Op>, t: State)
    requires GoodPool(pool)
    requires Reaches(Legal, Step, Init(pool), ops, t)
    requires Live(t.blocks) == {}
    ensures t.(maxUsed := 2 * HDR) == Init(pool)
  {
    RunInv(pool, ops, t);
    NothingLive(t.blocks, pool - HDR, HDR);
    SumOne(t.blocks[0], false, HDR);
    FreeOffsetsOne(t.blocks[0]);
    OnlyElement(t.free, 0);
  }

  // ---------------------------------------------------------------- the running maximum

  /** A run together with the largest number of bytes in use at any moment so far. */
  datatype Watched = Watched(s: State, peak: int)

  function InUse(s: State): int { s.pool - s.avail }

  function Max(a: int, b: int): int { if a < b then b else a }

  /** The state a call goes through between its two locked sections, if it moves a block. */
  function Midway(s: State, op: Op): State {
    if op.Realloc? && op.mem.Some? && op.newsize > 0 then ResizeMidway(s, op.mem.value, Need(op.newsize)) else s
  }

  function ResizeMidway(s: State, p: nat, need: word): State {
    var i := Index(s.blocks, p - HDR);
    if i < |s.blocks| && PlanFor(s, i, need) == Relocate then Allocate(s, need).0 else s
  }

  function WatchStep(w: Watched, op: Op): Watched {
    Watched(Step(w.s, op), Max(Max(w.peak, InUse(Midway(w.s, op))), InUse(Step(w.s, op))))
  }

  lemma WatchKeeps(w: Watched, op: Op)
    requires Inv(w.s) && Legal(w.s, op) && w.s.maxUsed == w.peak
    ensures WatchStep(w, op).s.maxUsed == WatchStep(w, op).peak
  {
    match op
    case Alloc(n) => AllocatePeak(w.s, n);
    case Free(p) => if p.Some? { ReleasePeak(w.s, Index(w.s.blocks, p.value - HDR)); }
    case Realloc(p, n) => ReallocatePeak(w.s, p, n);
  }

  lemma AllocatePeak(s: State, size: word)
    requires Inv(s)
    ensures var t := Allocate(s, size).0; t.maxUsed == Max(s.maxUsed, InUse(t))
  {
    AllocateIs(s, size);
  }

  lemma ReleasePeak(s: State, i: nat)
    requires Inv(s) && i < |s.blocks| && s.blocks[i].used
    ensures Release(s, i).maxUsed == s.maxUsed && InUse(Release(s, i)) <= InUse(s)
  {
    TilesCut(s.blocks, 0, s.pool - HDR, HDR, i);
  }

  lemma ShrinkPeak(s: State, i: nat, need: word)
    requires Inv(s) && Planned(s, i, need, Cut)
    ensures Shrink(s, i, need).maxUsed == s.maxUsed && InUse(Shrink(s, i, need)) <= InUse(s)
  {
    TilesCut(s.blocks, 0, s.pool - HDR, HDR, i);
    if i + 1 < |s.blocks| { TilesCut(s.blocks, 0, s.pool - HDR, HDR, i + 1); }
  }

  lemma RelocatePeak(s: State, p: nat, need: word)
    requires Inv(s) && IsLive(s, p)
    ensures var (t, r) := (Allocate(s, need).0, Relocated(s, p, need).0);
      r.maxUsed == Max(s.maxUsed, InUse(t)) && InUse(r) <= InUse(t)
  {
    var t := Allocate(s, need).0;
    var b := s.blocks[Index(s.blocks, p - HDR)];
    assert b in Live(s.blocks);
    AllocateInv(s, need);
    var _ := AllocateOutcome(s, need);
    AllocatePeak(s, need);
    LiveFound(t, b);
    ReleasePeak(t, Index(t.blocks, b.off));
  }

  lemma ResizePeak(s: State, p: nat, need: word)
    requires Inv(s) && IsLive(s, p) && Need(need) == need
    ensures var t := Resize(s, p, need).0; t.maxUsed == Max(Max(s.maxUsed, InUse(ResizeMidway(s, p, need))), InUse(t))
  {
    NeedOk(need);
    var i := Index(s.blocks, p - HDR);
    match PlanFor(s, i, need) {
      case Keep =>
      case Grow =>
      case Cut => ShrinkPeak(s, i, need);
      case Relocate => RelocatePeak(s, p, need);
    }
  }

  lemma ReallocatePeak(s: State, p: Option<nat>, n: word)
    requires Inv(s) && Legal(s, Realloc(p, n))
    ensures var t := Reallocate(s, p, n).0;
      t.maxUsed == Max(Max(s.maxUsed, InUse(Midway(s, Realloc(p, n)))), InUse(t))
  {
    NeedOk(n);
    if p.None? {
      AllocatePeak(s, Need(n));
    } else if n == 0 {
      ReleasePeak(s, Index(s.blocks, p.value - HDR));
    } else {
      ResizePeak(s, p.value, Need(n));
    }
  }

  /** max_used_size is the largest number of bytes in use, headers included, at any moment of the run. */
  lemma MaxUsedIsPeak(pool: nat, ops: seq<Op>, w: Watched)
    requires GoodPool(pool)
    requires Reaches((w: Watched, op: Op) => Legal(w.s, op), WatchStep, Watched(Init(pool), InUse(Init(pool))), ops, w)
    ensures w.s.maxUsed == w.peak
  {
    var legal := (w: Watched, op: Op) => Legal(w.s, op);
    var inv := (w: Watched) => Inv(w.s) && w.s.maxUsed == w.peak;
    InitInv(pool);
    forall w: Watched, op: Op | inv(w) && legal(w, op)
      ensures inv(WatchStep(w, op))
    {
      StepInv(w.s, op);
      WatchKeeps(w, op);
    }
    RunKeeps(inv, legal, WatchStep, Watched(Init(pool), InUse(Init(pool))), ops, w);
  }

  // ---------------------------------------------------------------- alloc then free

  /** rt_memheap_alloc followed by rt_memheap_free of the result restores the blocks and the available bytes; the
      block ends up at the head of the free list. */
  lemma AllocThenFree(s: State, size: word)
    requires Inv(s)
    ensures var (t, p) := Allocate(s, size);
      p.Some? ==> FreeAt(t, p.value) ==
                  s.(maxUsed := t.maxUsed, free := [p.value - HDR] + Drop(s.free, p.value - HDR))
  {
    AllocateIs(s, size);
    if Served(s, size) {
      TakeThenRelease(s, Index(s.blocks, s.free[Chosen(s, size)]), Need(size));
    }
  }

  lemma TakeThenRelease(s: State, i: nat, need: nat)
    requires Inv(s) && CanTake(s, i, need)
    ensures var (t, o) := (Take(s, i, need), s.blocks[i].off);
      FreeAt(t, o + HDR) == s.(maxUsed := t.maxUsed, free := [o] + Drop(s.free, o))
  {
    TakeLayout(s, i, need);
    TakeJoins(s, i, need);
    IndexAt(Take(s, i, need).blocks, 0, s.pool - HDR, HDR, i);
  }

  lemma TakeJoins(s: State, i: nat, need: nat)
    requires Layout(s) && CanTake(s, i, need)
    ensures var t := Take(s, i, need);
      && i < |t.blocks| && t.blocks[i].off == s.blocks[i].off
      && Release(t, i) == s.(maxUsed := t.maxUsed, free := [s.blocks[i].off] + Drop(s.free, s.blocks[i].off))
  {
    TakeFits(s, i, need);
    if Splits(s.blocks[i], need) {
      CutThenJoin(s.blocks, i, s.blocks[i].off + HDR + need);
      assert Take(s, i, need).free[1..] == Drop(s.free, s.blocks[i].off);
    } else {
      MarkThenJoin(s.blocks, i);
    }
  }
}
