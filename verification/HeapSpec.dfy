/** What the small-memory heap of mem.c does, as functions on its block layout, and the
    properties of every run of rt_malloc, rt_free and rt_realloc. Offsets count bytes from
    heap_ptr; a pointer handed to the caller is the offset just behind a block header. */
module HeapSpec {
  import opened Words
  import opened Blocks
  import opened Runs

  const HDR := 12   // SIZEOF_STRUCT_MEM
  const MIN := 12   // MIN_SIZE_ALIGNED

  /** `size` is mem_size_aligned; heap_end lies at size + HDR and always counts as used. */
  datatype State = State(size: nat, blocks: seq<Block>, lfree: nat, usedMem: int, maxMem: int)

  datatype Op =
    | Malloc(size: word)
    | Free(ptr: Option<nat>)
    | Realloc(rmem: Option<int>, newsize: word)

  // ---------------------------------------------------------------- the operations

  function Init(size: nat): State {
    State(size, [Block(0, size + HDR, false)], 0, 0, 0)
  }

  /** The payload size rt_malloc really looks for. */
  function Need(req: word): nat {
    if Align4(req) < MIN then MIN else Align4(req)
  }

  function Payload(b: Block): int { b.end - b.off - HDR }

  /** The test of the search loop together with its bound on `ptr`. */
  predicate Fits(b: Block, need: nat, size: nat) {
    b.off < size - need && !b.used && Payload(b) >= need
  }

  /** The first block from `from` on that the search accepts, or |bs|. */
  function FirstFit(bs: seq<Block>, from: nat, need: nat, size: nat): (i: nat)
    requires from <= |bs|
    ensures from <= i <= |bs|
    ensures i < |bs| ==> Fits(bs[i], need, size)
    ensures forall k :: from <= k < i ==> !Fits(bs[k], need, size)
    decreases |bs| - from
  {
    if from == |bs| || Fits(bs[from], need, size) then from else FirstFit(bs, from + 1, need, size)
  }

  /** Offset of the first free block from `from` on, or of heap_end. */
  function NextFree(bs: seq<Block>, from: nat, size: nat): (off: nat)
    requires from <= |bs|
    ensures (off == size + HDR && (forall k :: from <= k < |bs| ==> bs[k].used))
         || (exists i :: from <= i < |bs| && bs[i].off == off && !bs[i].used
                         && (forall k :: from <= k < i ==> bs[k].used))
    decreases |bs| - from
  {
    if from == |bs| then size + HDR
    else if !bs[from].used then bs[from].off
    else NextFree(bs, from + 1, size)
  }

  /** Whether the rest of a handed out block becomes a block of its own, with at least MIN bytes. */
  predicate Splits(b: Block, need: nat) {
    Payload(b) >= need + HDR + MIN
  }

  /** The layout once free block `i` is handed out. */
  function TakeBlocks(bs: seq<Block>, i: nat, need: nat): (r: seq<Block>)
    requires i < |bs|
    ensures i < |r|
  {
    if Splits(bs[i], need) then CutAt(bs, i, bs[i].off + HDR + need) else MarkUsed(bs, i)
  }

  function Take(s: State, i: nat, need: nat): State
    requires i < |s.blocks|
  {
    var b := s.blocks[i];
    var bs := TakeBlocks(s.blocks, i, need);
    var used := s.usedMem + (bs[i].end - bs[i].off);
    State(s.size, bs,
          if b.off == s.lfree then NextFree(bs, i, s.size) else s.lfree,
          used,
          if s.maxMem < used then used else s.maxMem)
  }

  function Allocate(s: State, req: word): (State, Option<nat>) {
    if req == 0 || Align4(req) > s.size then (s, None)
    else
      var i := FirstFit(s.blocks, Index(s.blocks, s.lfree), Need(req), s.size);
      if i == |s.blocks| then (s, None)
      else (Take(s, i, Need(req)), Some(s.blocks[i].off + HDR))
  }

  /** Block `i` becomes free and joins its free neighbours. */
  function Release(s: State, i: nat): State
    requires i < |s.blocks|
  {
    var b := s.blocks[i];
    s.(blocks := Join(s.blocks, i),
       lfree := if b.off < s.lfree then s.blocks[MergeFrom(s.blocks, i)].off else s.lfree,
       usedMem := s.usedMem - (b.end - b.off))
  }

  /** Block `i` shrinks in place to a payload of `need`; the rest, and a free block behind it, is free. */
  function Shrink(s: State, i: nat, need: nat): State
    requires i < |s.blocks|
  {
    var b := s.blocks[i];
    var cut := b.off + HDR + need;
    s.(blocks := CutAt(s.blocks, i, cut),
       lfree := if MergeTo(s.blocks, i) == i + 2 && s.lfree == b.end then cut else s.lfree,
       usedMem := s.usedMem - (Payload(b) - need))
  }

  /** `p` is a pointer the caller holds: the payload of a block in use. */
  predicate IsLive(s: State, p: int) {
    var i := Index(s.blocks, p - HDR);
    i < |s.blocks| && s.blocks[i].used
  }

  /** The address test of rt_realloc: such a pointer is handed back as it is. */
  predicate Outside(s: State, p: int) { p < 0 || p >= s.size + HDR }

  /** rt_free of a live pointer. */
  function FreeAt(s: State, p: int): State {
    var i := Index(s.blocks, p - HDR);
    if i < |s.blocks| then Release(s, i) else s
  }

  /** The last resort of rt_realloc: a new block, then the old one is freed. */
  function Move(s: State, p: int, need: word): (State, Option<int>) {
    var (t, q) := Allocate(s, need);
    if q.None? then (t, None) else (FreeAt(t, p), q)
  }

  function Reallocate(s: State, rmem: Option<int>, newsize: word): (State, Option<int>) {
    var need := Align4(newsize);
    if need > s.size then (s, None)
    else if need == 0 then (if rmem.None? then s else FreeAt(s, rmem.value), None)
    else if rmem.None? then Allocate(s, need)
    else if Outside(s, rmem.value) then (s, rmem)
    else Resize(s, rmem.value, need)
  }

  /** rt_realloc of the live pointer `p` to an aligned size other than 0. */
  function Resize(s: State, p: int, need: word): (State, Option<int>) {
    var i := Index(s.blocks, p - HDR);
    if i == |s.blocks| then (s, None)
    else if Payload(s.blocks[i]) == need then (s, Some(p))
    else if need + HDR + MIN < Payload(s.blocks[i]) then (Shrink(s, i, need), Some(p))
    else Move(s, p, need)
  }

  // ---------------------------------------------------------------- the invariant

  /** lfree names a free block or heap_end. */
  ghost predicate LfreeOk(s: State) {
    s.lfree == s.size + HDR || exists b :: b in s.blocks && !b.used && b.off == s.lfree
  }

  /** The blocks tile the heap and are merged as far as possible. */
  predicate Layout(s: State) {
    Tiles(s.blocks, 0, s.size + HDR, HDR) && Coalesced(s.blocks)
  }

  ghost predicate Inv(s: State) {
    && s.size % 4 == 0 && MIN <= s.size && s.size + 2 * HDR < MODULUS
    && Layout(s)
    && LfreeOk(s)
    && (Live(s.blocks) == {} ==> s.lfree == 0)
    && s.usedMem == Sum(s.blocks, true, 0)
    && s.usedMem <= s.maxMem <= s.size + HDR
  }

  /** No free block lies below lfree. */
  ghost predicate LfreeLowest(s: State) {
    forall b :: b in s.blocks && !b.used ==> s.lfree <= b.off
  }

  // ---------------------------------------------------------------- handing out a block

  /** Block `i` may be handed out for a request of `need` bytes. */
  predicate CanTake(s: State, i: nat, need: nat) {
    i < |s.blocks| && Fits(s.blocks[i], need, s.size) && need % 4 == 0 && need >= MIN
  }

  /** The block the caller gets. */
  function Taken(b: Block, need: nat): Block {
    if Splits(b, need) then Block(b.off, b.off + HDR + need, true) else b.(used := true)
  }

  lemma TakeFits(s: State, i: nat, need: nat)
    requires Layout(s) && CanTake(s, i, need)
    ensures MergeFrom(s.blocks, i) == i && MergeTo(s.blocks, i) == i + 1
    ensures WellSized(s.blocks[i], HDR) && s.blocks[i].end <= s.size + HDR
    ensures Splits(s.blocks[i], need) ==> CutFits(s.blocks, HDR, i, s.blocks[i].off + HDR + need)
  {
    TilesCut(s.blocks, 0, s.size + HDR, HDR, i);
    CoalescedCut(s.blocks, i);
    if i + 1 < |s.blocks| { CoalescedCut(s.blocks, i + 1); }
  }

  lemma TakeLayout(s: State, i: nat, need: nat)
    requires Layout(s) && CanTake(s, i, need)
    ensures Layout(Take(s, i, need))
    ensures TakeBlocks(s.blocks, i, need)[i] == Taken(s.blocks[i], need)
  {
    TakeFits(s, i, need);
    if Splits(s.blocks[i], need) {
      CutTiles(s.blocks, s.size + HDR, HDR, i, s.blocks[i].off + HDR + need);
    } else {
      MarkTiles(s.blocks, s.size + HDR, HDR, i);
    }
  }

  lemma TakeSums(s: State, i: nat, need: nat)
    requires Layout(s) && CanTake(s, i, need)
    ensures var n := Taken(s.blocks[i], need);
      Sum(TakeBlocks(s.blocks, i, need), true, 0) == Sum(s.blocks, true, 0) + (n.end - n.off)
  {
    TakeFits(s, i, need);
    if Splits(s.blocks[i], need) {
      CutSums(s.blocks, s.size + HDR, HDR, i, s.blocks[i].off + HDR + need);
    } else {
      MarkSums(s.blocks, HDR, i);
    }
  }

  lemma TakeLive(s: State, i: nat, need: nat)
    requires Layout(s) && CanTake(s, i, need)
    ensures Live(TakeBlocks(s.blocks, i, need)) == Live(s.blocks) + {Taken(s.blocks[i], need)}
    ensures Taken(s.blocks[i], need) !in Live(s.blocks)
  {
    var b := s.blocks[i];
    TakeFits(s, i, need);
    if Splits(b, need) {
      CutLive(s.blocks, s.size + HDR, HDR, i, b.off + HDR + need);
      assert b !in Live(s.blocks);
    } else {
      MarkLive(s.blocks, s.size + HDR, HDR, i);
    }
    if Taken(b, need) in Live(s.blocks) {
      LiveDisjoint(s.blocks, 0, s.size + HDR, HDR, Taken(b, need), b);
    }
  }

  lemma TakeLfree(s: State, i: nat, need: nat)
    requires Layout(s) && LfreeOk(s) && CanTake(s, i, need)
    ensures LfreeOk(Take(s, i, need))
  {
    var (bs, b) := (s.blocks, s.blocks[i]);
    if b.off != s.lfree && s.lfree != s.size + HDR {
      var f :| f in bs && !f.used && f.off == s.lfree;
      var cut := b.off + HDR + need;
      TakeFits(s, i, need);
      MembersReplace(bs, i, i + 1, [bs[i].(used := true)], f);
      MembersReplace(bs, i, i + 1, [Block(b.off, cut, true), Block(cut, b.end, false)], f);
      assert bs[i..i + 1] == [b];
    }
  }

  lemma TakeInv(s: State, i: nat, need: nat)
    requires Inv(s) && CanTake(s, i, need)
    ensures Inv(Take(s, i, need))
  {
    TakeLayout(s, i, need);
    TakeSums(s, i, need);
    TakeLive(s, i, need);
    TakeLfree(s, i, need);
    TakeFits(s, i, need);
    SumTotal(TakeBlocks(s.blocks, i, need), 0, s.size + HDR, HDR);
    assert Taken(s.blocks[i], need) in Live(Take(s, i, need).blocks);
  }

  /** The block that a request would be served from. */
  function Chosen(s: State, req: word): nat {
    FirstFit(s.blocks, Index(s.blocks, s.lfree), Need(req), s.size)
  }

  /** Whether the request is served. */
  predicate Served(s: State, req: word) {
    req != 0 && Align4(req) <= s.size && Chosen(s, req) < |s.blocks|
  }

  lemma AllocateIs(s: State, req: word)
    ensures Served(s, req) ==> CanTake(s, Chosen(s, req), Need(req))
    ensures Served(s, req) ==>
      Allocate(s, req) == (Take(s, Chosen(s, req), Need(req)), Some(s.blocks[Chosen(s, req)].off + HDR))
    ensures !Served(s, req) ==> Allocate(s, req) == (s, None)
  {
  }

  lemma AllocateInv(s: State, req: word)
    requires Inv(s)
    ensures Inv(Allocate(s, req).0)
  {
    AllocateIs(s, req);
    if Served(s, req) {
      TakeInv(s, Chosen(s, req), Need(req));
    }
  }

  lemma NeedRoom(req: word)
    ensures req <= 0xFFFF_FFFC ==> Need(req) >= req
    ensures req % 4 == 0 ==> req <= 0xFFFF_FFFC
  {
  }

  /** A successful rt_malloc adds one live block, `b`, with room for the request unless the request wraps
      around in the alignment; a failed one changes nothing. */
  lemma AllocateLive(s: State, req: word) returns (b: Block)
    requires Inv(s)
    ensures var (t, p) := Allocate(s, req);
      if p.None? then t == s
      else b !in Live(s.blocks) && b.off + HDR == p.value && Payload(b) >= Need(req)
           && Live(t.blocks) == Live(s.blocks) + {b}
  {
    b := Block(0, 0, false);
    AllocateIs(s, req);
    if Served(s, req) {
      b := Taken(s.blocks[Chosen(s, req)], Need(req));
      TakeLive(s, Chosen(s, req), Need(req));
    }
  }

  // ---------------------------------------------------------------- giving a block back

  lemma LiveFound(s: State, b: Block)
    requires Layout(s) && b in Live(s.blocks)
    ensures Index(s.blocks, b.off) < |s.blocks| && s.blocks[Index(s.blocks, b.off)] == b
    ensures IsLive(s, b.off + HDR)
  {
    var i :| 0 <= i < |s.blocks| && s.blocks[i] == b;
    IndexAt(s.blocks, 0, s.size + HDR, HDR, i);
  }

  lemma ReleaseLfree(s: State, i: nat)
    requires Layout(s) && LfreeOk(s)
    requires i < |s.blocks| && s.blocks[i].used
    ensures LfreeOk(Release(s, i))
  {
    var bs := s.blocks;
    var (lo, hi) := (MergeFrom(bs, i), MergeTo(bs, i));
    var joined := Block(bs[lo].off, bs[hi - 1].end, false);
    assert joined in [joined];
    MembersReplace(bs, lo, hi, [joined], joined);
    TilesCut(bs, 0, s.size + HDR, HDR, i);
    if bs[i].off >= s.lfree {
      var f :| f in bs && !f.used && f.off == s.lfree;
      MembersReplace(bs, lo, hi, [joined], f);
      if f in bs[lo..hi] { FreeBelow(s, f, lo, i, hi); }
    }
  }

  /** The only free block of a freed stretch that does not lie above block `i` is the first one. */
  lemma FreeBelow(s: State, f: Block, lo: nat, i: nat, hi: nat)
    requires Layout(s) && lo <= i < hi <= |s.blocks| && i <= lo + 1
    requires s.blocks[i].used && f in s.blocks[lo..hi] && !f.used && f.off <= s.blocks[i].off
    ensures f == s.blocks[lo]
  {
    var k :| lo <= k < hi && s.blocks[k] == f;
    if k > i {
      TilesOrdered(s.blocks, 0, s.size + HDR, HDR, i, k);
      TilesCut(s.blocks, 0, s.size + HDR, HDR, i);
      assert false;
    }
  }

  lemma ReleaseEmpty(s: State, i: nat)
    requires Layout(s) && LfreeOk(s)
    requires i < |s.blocks| && s.blocks[i].used
    requires Live(Release(s, i).blocks) == {}
    ensures Release(s, i).lfree == 0
  {
    JoinTiles(s.blocks, s.size + HDR, HDR, i);
    ReleaseLfree(s, i);
    NothingLive(Join(s.blocks, i), s.size + HDR, HDR);
    TilesCut(s.blocks, 0, s.size + HDR, HDR, i);
  }

  lemma ReleaseInv(s: State, i: nat)
    requires Inv(s)
    requires i < |s.blocks| && s.blocks[i].used
    ensures Inv(Release(s, i))
  {
    JoinTiles(s.blocks, s.size + HDR, HDR, i);
    JoinSums(s.blocks, s.size + HDR, HDR, i);
    ReleaseLfree(s, i);
    if Live(Release(s, i).blocks) == {} { ReleaseEmpty(s, i); }
    TilesCut(s.blocks, 0, s.size + HDR, HDR, i);
  }

  /** rt_free removes exactly the block behind the pointer from the live ones. */
  lemma FreeLive(s: State, b: Block)
    requires Layout(s) && b in Live(s.blocks)
    ensures Live(FreeAt(s, b.off + HDR).blocks) == Live(s.blocks) - {b}
  {
    LiveFound(s, b);
    JoinLive(s.blocks, s.size + HDR, HDR, Index(s.blocks, b.off));
  }

  // ---------------------------------------------------------------- realloc

  /** When rt_realloc splits the block it shrinks. */
  predicate CanShrink(s: State, i: nat, need: nat) {
    i < |s.blocks| && s.blocks[i].used && need % 4 == 0 && need > 0 && need + HDR + MIN < Payload(s.blocks[i])
  }

  lemma ShrinkFits(s: State, i: nat, need: nat)
    requires Layout(s) && CanShrink(s, i, need)
    ensures CutFits(s.blocks, HDR, i, s.blocks[i].off + HDR + need)
  {
    TilesCut(s.blocks, 0, s.size + HDR, HDR, i);
    if i + 1 < |s.blocks| {
      TilesCut(s.blocks, 0, s.size + HDR, HDR, i + 1);
    }
  }

  lemma ShrinkLfree(s: State, i: nat, need: nat)
    requires Layout(s) && LfreeOk(s) && CanShrink(s, i, need)
    ensures LfreeOk(Shrink(s, i, need))
  {
    var (bs, hi, cut) := (s.blocks, MergeTo(s.blocks, i), s.blocks[i].off + HDR + need);
    var rest := Block(cut, bs[hi - 1].end, false);
    var mid := [Block(bs[i].off, cut, true), rest];
    if hi == i + 2 && s.lfree == bs[i].end {
      assert rest in mid;
      MembersReplace(bs, i, hi, mid, rest);
    } else if s.lfree != s.size + HDR {
      var f :| f in bs && !f.used && f.off == s.lfree;
      MembersReplace(bs, i, hi, mid, f);
      if f in bs[i..hi] {
        TilesCut(bs, 0, s.size + HDR, HDR, hi - 1);
        assert false;
      }
    }
  }

  lemma ShrinkLayout(s: State, i: nat, need: nat)
    requires Layout(s) && CanShrink(s, i, need)
    ensures var t := Shrink(s, i, need);
      && Layout(t) && Live(t.blocks) != {}
      && Sum(t.blocks, true, 0) == Sum(s.blocks, true, 0) - (Payload(s.blocks[i]) - need)
  {
    var cut := s.blocks[i].off + HDR + need;
    ShrinkFits(s, i, need);
    CutTiles(s.blocks, s.size + HDR, HDR, i, cut);
    CutSums(s.blocks, s.size + HDR, HDR, i, cut);
    CutLive(s.blocks, s.size + HDR, HDR, i, cut);
    assert Block(s.blocks[i].off, cut, true) in Live(CutAt(s.blocks, i, cut));
  }

  lemma ShrinkInv(s: State, i: nat, need: nat)
    requires Inv(s) && CanShrink(s, i, need)
    ensures Inv(Shrink(s, i, need))
  {
    ShrinkLayout(s, i, need);
    ShrinkLfree(s, i, need);
  }

  lemma MoveInv(s: State, b: Block, need: word)
    requires Inv(s) && b in Live(s.blocks)
    ensures Inv(Move(s, b.off + HDR, need).0)
  {
    var t := Allocate(s, need).0;
    AllocateInv(s, need);
    var _ := AllocateLive(s, need);
    LiveFound(t, b);
    ReleaseInv(t, Index(t.blocks, b.off));
  }

  lemma ReallocateInv(s: State, rmem: Option<int>, newsize: word)
    requires Inv(s) && Legal(s, Realloc(rmem, newsize))
    ensures Inv(Reallocate(s, rmem, newsize).0)
  {
    var need := Align4(newsize);
    if rmem.None? {
      AllocateInv(s, need);
    } else if IsLive(s, rmem.value) {
      var i := Index(s.blocks, rmem.value - HDR);
      if need == 0 {
        ReleaseInv(s, i);
      } else if CanShrink(s, i, need) {
        ShrinkInv(s, i, need);
      } else {
        MoveInv(s, s.blocks[i], need);
      }
    }
  }

  /** What rt_realloc does to the live blocks, for a block `b` the caller holds and a size other than 0 that does
      not wrap: NULL leaves everything as it was; any other result is the payload of a block `n` with room for
      the new size, all other live blocks staying as they are. */
  lemma ReallocLive(s: State, b: Block, newsize: word) returns (n: Block)
    requires Inv(s) && b in Live(s.blocks) && 0 < newsize <= 0xFFFF_FFFC
    ensures var (t, q) := Reallocate(s, Some(b.off + HDR), newsize);
      if q.None? then t == s
      else
        && n.off + HDR == q.value && Payload(n) >= newsize
        && (n.off == b.off || n !in Live(s.blocks))
        && Live(t.blocks) == Live(s.blocks) - {b} + {n}
  {
    n := b;
    var need := Align4(newsize);
    LivePayloads(s, b, b);
    if need <= s.size {
      n := ResizeLive(s, b, need);
      assert Reallocate(s, Some(b.off + HDR), newsize) == Resize(s, b.off + HDR, need);
    }
  }

  /** rt_realloc returning NULL for a non-zero size means that the block is still live, unless the size wraps
      around to 0 in the alignment: then, and only then, the block has been freed. */
  lemma ReallocNull(s: State, b: Block, newsize: word)
    requires Inv(s) && b in Live(s.blocks) && newsize > 0
    requires Reallocate(s, Some(b.off + HDR), newsize).1.None?
    ensures b in Live(Reallocate(s, Some(b.off + HDR), newsize).0.blocks) <==> newsize <= 0xFFFF_FFFC
  {
    if newsize <= 0xFFFF_FFFC {
      var _ := ReallocLive(s, b, newsize);
    } else {
      FreeLive(s, b);
    }
  }

  /** Asked for 0xFFFFFFFD bytes, rt_realloc frees the block and returns NULL. */
  lemma ReallocFrees()
    ensures Allocate(Init(100), 40).1 == Some(HDR)
    ensures var s := Allocate(Init(100), 40).0;
      && Block(0, 52, true) in Live(s.blocks) && Legal(s, Realloc(Some(HDR), 0xFFFF_FFFD))
      && Reallocate(s, Some(HDR), 0xFFFF_FFFD).1.None?
      && Live(Reallocate(s, Some(HDR), 0xFFFF_FFFD).0.blocks) == {}
  {
    var s := TookForty();
    var b := Block(0, 52, true);
    assert s.blocks[0] == b && Live(s.blocks) == {b};
    InitInv(100);
    AllocateInv(Init(100), 40);
    FreeLive(s, b);
  }

  /** The heap of 100 bytes once 40 are allocated. */
  lemma TookForty() returns (s: State)
    ensures Allocate(Init(100), 40) == (s, Some(HDR))
    ensures s.blocks == [Block(0, 52, true), Block(52, 112, false)] && s.lfree == 52 && s.size == 100
  {
    var t := Init(100);
    assert Index(t.blocks, 0) == 0 && Fits(t.blocks[0], 40, 100);
    s := Allocate(t, 40).0;
    assert s.blocks == [Block(0, 52, true), Block(52, 112, false)];
    assert s.blocks[1..] == [s.blocks[1]];
  }

  lemma ResizeLive(s: State, b: Block, need: word) returns (n: Block)
    requires Inv(s) && b in Live(s.blocks) && need % 4 == 0 && need > 0
    ensures var (t, q) := Resize(s, b.off + HDR, need);
      if q.None? then t == s
      else
        && n.off + HDR == q.value && Payload(n) >= need
        && (n.off == b.off || n !in Live(s.blocks))
        && Live(t.blocks) == Live(s.blocks) - {b} + {n}
  {
    n := b;
    LiveFound(s, b);
    var i := Index(s.blocks, b.off);
    if Payload(b) == need {
      assert Live(s.blocks) == Live(s.blocks) - {b} + {b};
    } else if CanShrink(s, i, need) {
      n := Block(b.off, b.off + HDR + need, true);
      ShrinkFits(s, i, need);
      CutLive(s.blocks, s.size + HDR, HDR, i, n.end);
    } else {
      n := MoveLive(s, b, need);
    }
  }

  /** Moving block `b`: the block that takes its place, `n`, is new. */
  lemma MoveLive(s: State, b: Block, need: word) returns (n: Block)
    requires Inv(s) && b in Live(s.blocks) && need % 4 == 0
    ensures var (t, q) := Move(s, b.off + HDR, need);
      if q.None? then t == s
      else n.off + HDR == q.value && Payload(n) >= need && n !in Live(s.blocks)
           && Live(t.blocks) == Live(s.blocks) - {b} + {n}
  {
    n := AllocateLive(s, need);
    AllocateInv(s, need);
    NeedRoom(need);
    if Allocate(s, need).1.Some? {
      FreeLive(Allocate(s, need).0, b);
    }
  }

  // ---------------------------------------------------------------- runs

  /** The client rules: only pointers that are live may be freed or reallocated. */
  predicate Legal(s: State, op: Op) {
    match op
    case Malloc(_) => true
    case Free(p) => p.Some? ==> IsLive(s, p.value)
    case Realloc(p, n) => p.Some? ==> IsLive(s, p.value) || (Outside(s, p.value) && Align4(n) != 0)
  }

  function Step(s: State, op: Op): State {
    match op
    case Malloc(n) => Allocate(s, n).0
    case Free(p) => if p.None? then s else FreeAt(s, p.value)
    case Realloc(p, n) => Reallocate(s, p, n).0
  }

  lemma StepInv(s: State, op: Op)
    requires Inv(s) && Legal(s, op)
    ensures Inv(Step(s, op)) && Step(s, op).size == s.size
  {
    match op
    case Malloc(n) => AllocateInv(s, n);
    case Free(p) => if p.Some? { ReleaseInv(s, Index(s.blocks, p.value - HDR)); }
    case Realloc(p, n) => ReallocateInv(s, p, n);
  }

  /** Heap sizes that rt_system_heap_init produces and that hold one minimal block. */
  predicate GoodSize(size: nat) {
    size % 4 == 0 && MIN <= size && size + 2 * HDR < MODULUS
  }

  lemma InitInv(size: nat)
    requires GoodSize(size)
    ensures Inv(Init(size)) && LfreeLowest(Init(size))
  {
    var s := Init(size);
    assert s.blocks[1..] == [];
    assert s.blocks[0] in s.blocks;
  }

  /** Every run keeps the heap invariant: the blocks tile the heap, all offsets are aligned, no two
      free blocks touch, lfree is a free block or heap_end, and used_mem is the length of the used blocks. */
  lemma RunInv(size: nat, ops: seq<Op>, t: State)
    requires GoodSize(size)
    requires Reaches(Legal, Step, Init(size), ops, t)
    ensures Inv(t) && t.size == size
  {
    var inv := (s: State) => Inv(s) && s.size == size;
    InitInv(size);
    forall s: State, op: Op | inv(s) && Legal(s, op)
      ensures inv(Step(s, op))
    {
      StepInv(s, op);
    }
    RunKeeps(inv, Legal, Step, Init(size), ops, t);
  }

  /** A run after which nothing is live has merged the heap back into its initial single block. */
  lemma AllFreeIsInitial(size: nat, ops: seq<Op>, t: State)
    requires GoodSize(size)
    requires Reaches(Legal, Step, Init(size), ops, t)
    requires Live(t.blocks) == {}
    ensures t.(maxMem := 0) == Init(size)
  {
    RunInv(size, ops, t);
    NothingLive(t.blocks, size + HDR, HDR);
    SumOne(t.blocks[0], true, 0);
  }

  // ---------------------------------------------------------------- the caller's view: disjoint live payloads

  /** Live payloads are word aligned, lie inside the heap and are pairwise disjoint. */
  lemma LivePayloads(s: State, a: Block, b: Block)
    requires Layout(s) && a in Live(s.blocks) && b in Live(s.blocks)
    ensures (a.off + HDR) % 4 == 0 && a.off + HDR < a.end <= s.size + HDR
    ensures a != b ==> a.end <= b.off || b.end <= a.off
  {
    var i :| 0 <= i < |s.blocks| && s.blocks[i] == a;
    TilesCut(s.blocks, 0, s.size + HDR, HDR, i);
    if a != b { LiveDisjoint(s.blocks, 0, s.size + HDR, HDR, a, b); }
  }

  /** The block behind a new pointer is at least as large as asked for, exactly when the request does
      not wrap around in the alignment. */
  lemma MallocSize(s: State, req: word)
    requires Inv(s)
    ensures var (t, p) := Allocate(s, req);
      p.Some? ==>
        && IsLive(t, p.value)
        && (Payload(t.blocks[Index(t.blocks, p.value - HDR)]) >= req <==> req <= 0xFFFF_FFFC)
  {
    var (t, p) := Allocate(s, req);
    AllocateInv(s, req);
    NeedRoom(req);
    var b := AllocateLive(s, req);
    if p.Some? {
      LiveFound(t, b);
      LivePayloads(t, b, b);
    }
  }

  /** A request of 0xFFFFFFFD bytes is aligned to 0 and served with the smallest block. */
  lemma MallocWraps()
    ensures Allocate(Init(100), 0xFFFF_FFFD).1 == Some(HDR)
    ensures Allocate(Init(100), 0xFFFF_FFFD).0.blocks[0] == Block(0, HDR + MIN, true)
  {
    var s := Init(100);
    assert Index(s.blocks, 0) == 0 && Fits(s.blocks[0], MIN, 100);
  }

  // ---------------------------------------------------------------- first fit

  /** Block `i` is free and has room; a last block that fits exactly does not count. */
  predicate Room(s: State, i: int, need: nat) {
    && 0 <= i < |s.blocks|
    && !s.blocks[i].used && Payload(s.blocks[i]) >= need
    && !(i == |s.blocks| - 1 && Payload(s.blocks[i]) == need)
  }

  /** The strict bound of the search loop only ever turns away the last block, on an exact fit. */
  lemma FitsIff(s: State, i: nat, need: nat)
    requires Layout(s) && i < |s.blocks| && need >= MIN
    ensures Fits(s.blocks[i], need, s.size) <==> Room(s, i, need)
    ensures Payload(s.blocks[i]) <= s.size
  {
    TilesCut(s.blocks, 0, s.size + HDR, HDR, i);
    if i < |s.blocks| - 1 {
      TilesOrdered(s.blocks, 0, s.size + HDR, HDR, i, |s.blocks| - 1);
      TilesCut(s.blocks, 0, s.size + HDR, HDR, |s.blocks| - 1);
    } else {
      TilesCut(s.blocks, 0, s.size + HDR, HDR, |s.blocks|);
    }
  }

  lemma LfreeIndex(s: State)
    requires Layout(s) && LfreeOk(s)
    ensures var i := Index(s.blocks, s.lfree);
      if i < |s.blocks| then !s.blocks[i].used && s.lfree == s.blocks[i].off else s.lfree == s.size + HDR
  {
    if s.lfree != s.size + HDR {
      var f :| f in s.blocks && !f.used && f.off == s.lfree;
      var k :| 0 <= k < |s.blocks| && s.blocks[k] == f;
      IndexAt(s.blocks, 0, s.size + HDR, HDR, k);
    } else {
      var i := Index(s.blocks, s.lfree);
      if i < |s.blocks| { TilesCut(s.blocks, 0, s.size + HDR, HDR, i); }
    }
  }

  lemma BelowLfreeUsed(s: State, k: nat)
    requires Layout(s) && LfreeOk(s) && LfreeLowest(s)
    requires k < Index(s.blocks, s.lfree)
    ensures s.blocks[k].used
  {
    var from := Index(s.blocks, s.lfree);
    TilesCut(s.blocks, 0, s.size + HDR, HDR, k);
    LfreeIndex(s);
    assert s.blocks[k] in s.blocks;
    if from < |s.blocks| { TilesOrdered(s.blocks, 0, s.size + HDR, HDR, k, from); }
  }

  /** While lfree is the lowest free block, rt_malloc hands out the lowest block that has room, and returns
      NULL only for size 0 or when no block has room. */
  lemma TrueFirstFit(s: State, req: word)
    requires Inv(s) && LfreeLowest(s)
    ensures var p := Allocate(s, req).1;
      if p.None? then req == 0 || forall i :: !Room(s, i, Need(req))
      else req > 0 && exists i :: Room(s, i, Need(req)) && p.value == s.blocks[i].off + HDR
                                  && forall k :: k < i ==> !Room(s, k, Need(req))
  {
    var need := Need(req);
    var from := Index(s.blocks, s.lfree);
    AllocateIs(s, req);
    forall k | 0 <= k < |s.blocks|
      ensures Room(s, k, need) <==> Fits(s.blocks[k], need, s.size)
      ensures Room(s, k, need) ==> need <= s.size && k >= from
    {
      FitsIff(s, k, need);
      if k < from { BelowLfreeUsed(s, k); }
    }
    if Served(s, req) {
      assert Room(s, Chosen(s, req), need);
    }
  }

  lemma NextFreeLowest(bs: seq<Block>, from: nat, size: nat, k: nat)
    requires Tiles(bs, 0, size + HDR, HDR)
    requires from <= k < |bs| && !bs[k].used
    ensures NextFree(bs, from, size) <= bs[k].off
  {
    var j :| from <= j < |bs| && bs[j].off == NextFree(bs, from, size) && (forall m :: from <= m < j ==> bs[m].used);
    if j < k {
      TilesOrdered(bs, 0, size + HDR, HDR, j, k);
      TilesCut(bs, 0, size + HDR, HDR, j);
    }
  }

  lemma TakeLowest(s: State, i: nat, need: nat, k: nat)
    requires Layout(s) && LfreeLowest(s) && CanTake(s, i, need)
    requires k < |TakeBlocks(s.blocks, i, need)| && !TakeBlocks(s.blocks, i, need)[k].used
    ensures Take(s, i, need).lfree <= TakeBlocks(s.blocks, i, need)[k].off
  {
    assert s.blocks[i] in s.blocks;
    if k < i {
      TakeLowestFront(s, i, need, k);
    } else {
      TakeLayout(s, i, need);
      TakeLowestRest(s, i, need, k);
    }
  }

  lemma TakeLowestFront(s: State, i: nat, need: nat, k: nat)
    requires Layout(s) && LfreeLowest(s) && CanTake(s, i, need) && k < i
    requires k < |TakeBlocks(s.blocks, i, need)| && !TakeBlocks(s.blocks, i, need)[k].used
    ensures Take(s, i, need).lfree <= TakeBlocks(s.blocks, i, need)[k].off
  {
    var (bs, ts, end) := (s.blocks, TakeBlocks(s.blocks, i, need), s.size + HDR);
    assert ts[k] == bs[k] && bs[k] in bs && bs[i] in bs;
    TilesCut(bs, 0, end, HDR, k);
    TilesOrdered(bs, 0, end, HDR, k, i);
  }

  lemma TakeLowestRest(s: State, i: nat, need: nat, k: nat)
    requires Layout(s) && LfreeLowest(s) && CanTake(s, i, need) && i <= k
    requires Tiles(TakeBlocks(s.blocks, i, need), 0, s.size + HDR, HDR)
    requires k < |TakeBlocks(s.blocks, i, need)| && !TakeBlocks(s.blocks, i, need)[k].used
    ensures Take(s, i, need).lfree <= TakeBlocks(s.blocks, i, need)[k].off
  {
    var (ts, end) := (TakeBlocks(s.blocks, i, need), s.size + HDR);
    assert s.blocks[i] in s.blocks;
    if s.blocks[i].off == s.lfree {
      NextFreeLowest(ts, i, s.size, k);
    } else if k > i {
      TilesOrdered(ts, 0, end, HDR, i, k);
      TilesCut(ts, 0, end, HDR, i);
    }
  }

  lemma AllocateKeepsLowest(s: State, req: word)
    requires Inv(s) && LfreeLowest(s)
    ensures LfreeLowest(Allocate(s, req).0)
  {
    AllocateIs(s, req);
    if Served(s, req) {
      var (i, need) := (Chosen(s, req), Need(req));
      forall b | b in TakeBlocks(s.blocks, i, need) && !b.used
        ensures Take(s, i, need).lfree <= b.off
      {
        var k :| 0 <= k < |TakeBlocks(s.blocks, i, need)| && TakeBlocks(s.blocks, i, need)[k] == b;
        TakeLowest(s, i, need, k);
      }
    }
  }

  lemma ReleaseKeepsLowest(s: State, i: nat)
    requires Layout(s) && LfreeLowest(s) && i < |s.blocks| && s.blocks[i].used
    ensures LfreeLowest(Release(s, i))
  {
    var bs := s.blocks;
    var (lo, hi) := (MergeFrom(bs, i), MergeTo(bs, i));
    var joined := Block(bs[lo].off, bs[hi - 1].end, false);
    var end := s.size + HDR;
    TilesCut(bs, 0, end, HDR, lo);
    if lo < i { TilesOrdered(bs, 0, end, HDR, lo, i); }
    forall b | b in Release(s, i).blocks && !b.used
      ensures Release(s, i).lfree <= b.off
    {
      MembersReplace(bs, lo, hi, [joined], b);
      assert bs[lo] in bs;
      if b != joined && b in bs[..lo] && bs[i].off < s.lfree {
        var k :| 0 <= k < lo && bs[k] == b;
        TilesOrdered(bs, 0, end, HDR, k, i);
        TilesCut(bs, 0, end, HDR, k);
      }
    }
  }

  /** Over runs of rt_malloc and rt_free alone lfree is always the lowest free block, or heap_end. */
  lemma LowestOverRuns(size: nat, ops: seq<Op>, t: State)
    requires GoodSize(size)
    requires Reaches((s: State, op: Op) => Legal(s, op) && !op.Realloc?, Step, Init(size), ops, t)
    ensures Inv(t) && LfreeLowest(t)
  {
    var inv := (s: State) => Inv(s) && LfreeLowest(s);
    var legal := (s: State, op: Op) => Legal(s, op) && !op.Realloc?;
    InitInv(size);
    forall s: State, op: Op | inv(s) && legal(s, op)
      ensures inv(Step(s, op))
    {
      StepInv(s, op);
      match op
      case Malloc(n) => AllocateKeepsLowest(s, n);
      case Free(p) => if p.Some? { ReleaseKeepsLowest(s, Index(s.blocks, p.value - HDR)); }
    }
    RunKeeps(inv, legal, Step, Init(size), ops, t);
  }

  /** Where the free blocks of a shrunk heap come from. */
  lemma ShrinkFreeBlocks(s: State, i: nat, need: nat, b: Block)
    requires Layout(s) && CanShrink(s, i, need)
    requires b in Shrink(s, i, need).blocks && !b.used
    ensures b.off == s.blocks[i].off + HDR + need
         || (b in s.blocks && (b.off < s.blocks[i].off || s.blocks[i].end <= b.off))
  {
    var (bs, end, hi, cut) := (s.blocks, s.size + HDR, MergeTo(s.blocks, i), s.blocks[i].off + HDR + need);
    MembersReplace(bs, i, hi, [Block(bs[i].off, cut, true), Block(cut, bs[hi - 1].end, false)], b);
    if b in bs[..i] {
      var k :| 0 <= k < i && bs[k] == b;
      TilesOrdered(bs, 0, end, HDR, k, i);
      TilesCut(bs, 0, end, HDR, k);
    } else if b in bs[hi..] {
      var k :| hi <= k < |bs| && bs[k] == b;
      TilesOrdered(bs, 0, end, HDR, i, k);
    }
  }

  /** A shrinking rt_realloc keeps lfree lowest exactly when lfree lies below the block, or is the free
      block behind it: in every other case the freed rest lies below lfree and plug_holes leaves lfree alone. */
  lemma ShrinkKeepsLowest(s: State, i: nat, need: nat)
    requires Layout(s) && LfreeOk(s) && LfreeLowest(s) && CanShrink(s, i, need)
    ensures LfreeLowest(Shrink(s, i, need)) <==>
            s.lfree < s.blocks[i].off || (s.lfree == s.blocks[i].end && s.lfree < s.size + HDR)
  {
    var (bs, end, hi, cut) := (s.blocks, s.size + HDR, MergeTo(s.blocks, i), s.blocks[i].off + HDR + need);
    var rest := Block(cut, bs[hi - 1].end, false);
    assert rest in [Block(bs[i].off, cut, true), rest];
    MembersReplace(bs, i, hi, [Block(bs[i].off, cut, true), rest], rest);
    ShrinkLfreePlace(s, i);
    forall b | b in Shrink(s, i, need).blocks && !b.used
      ensures b.off == cut || (s.lfree <= b.off && (b.off < bs[i].off || cut <= b.off))
    {
      ShrinkFreeBlocks(s, i, need, b);
    }
  }

  /** The heap of 100 bytes once 40 and then 12 are allocated. */
  lemma TookTwelveMore() returns (s: State, t: State)
    ensures Allocate(Init(100), 40) == (s, Some(HDR)) && Allocate(s, 12).0 == t
    ensures t.blocks == [Block(0, 52, true), Block(52, 76, true), Block(76, 112, false)] && t.lfree == 76 && t.size == 100
  {
    s := TookForty();
    assert Index(s.blocks, 52) == 1 && Fits(s.blocks[1], 12, 100);
    t := Allocate(s, 12).0;
    assert t.blocks == [Block(0, 52, true), Block(52, 76, true), Block(76, 112, false)];
  }

  /** Allocating 40 and then 12 bytes and shrinking the first block to 12 leaves a free block below lfree. */
  lemma ShrinkLeavesBelow()
    ensures var t := Allocate(Allocate(Init(100), 40).0, 12).0;
      var u := Reallocate(t, Some(HDR), 12).0;
      && Legal(t, Realloc(Some(HDR), 12)) && LfreeLowest(t)
      && Block(24, 52, false) in u.blocks && u.lfree == 76 && !LfreeLowest(u)
  {
    var s, t := TookTwelveMore();
    ShrinksBelow(t);
    assert t.blocks[2] in t.blocks && Index(t.blocks, 0) == 0;
  }

  lemma ShrinksBelow(t: State)
    requires t.blocks == [Block(0, 52, true), Block(52, 76, true), Block(76, 112, false)] && t.lfree == 76 && t.size == 100
    ensures Reallocate(t, Some(HDR), 12).0 == Shrink(t, 0, 12)
    ensures var u := Shrink(t, 0, 12); Block(24, 52, false) in u.blocks && u.lfree == 76 && !LfreeLowest(u)
  {
    assert Index(t.blocks, 0) == 0 && CanShrink(t, 0, 12);
    var u := Shrink(t, 0, 12);
    assert u.blocks[1] == Block(24, 52, false) && u.blocks[1] in u.blocks;
  }

  /** Around a block in use, lfree lies below it, right behind it on a free block, or further up. */
  lemma ShrinkLfreePlace(s: State, i: nat)
    requires Layout(s) && LfreeOk(s) && i < |s.blocks| && s.blocks[i].used
    ensures s.lfree < s.blocks[i].off || s.blocks[i].end <= s.lfree
    ensures s.lfree == s.blocks[i].end < s.size + HDR <==> MergeTo(s.blocks, i) == i + 2 && s.lfree == s.blocks[i].end
  {
    var (bs, end) := (s.blocks, s.size + HDR);
    LfreeIndex(s);
    var l := Index(bs, s.lfree);
    TilesCut(bs, 0, end, HDR, i);
    TilesCut(bs, 0, end, HDR, i + 1);
    if l < i { TilesOrdered(bs, 0, end, HDR, l, i); TilesCut(bs, 0, end, HDR, l); }
    if i < l < |bs| { TilesOrdered(bs, 0, end, HDR, i, l); }
    if s.lfree == bs[i].end && s.lfree < end {
      OccursOnceUnless(bs, end, i + 1, l);
    }
  }

  lemma OccursOnceUnless(bs: seq<Block>, end: nat, i: nat, j: nat)
    requires Tiles(bs, 0, end, HDR) && i < |bs| && j < |bs| && bs[i].off == bs[j].off
    ensures i == j
  {
    if i != j { OccursOnce(bs, 0, end, HDR, i, j); }
  }

  // ---------------------------------------------------------------- malloc then free

  /** Joining what was handed out gives back the block it came from. */
  lemma TakeJoin(s: State, i: nat, need: nat)
    requires Layout(s) && CanTake(s, i, need)
    ensures Join(Take(s, i, need).blocks, i) == s.blocks
    ensures MergeFrom(Take(s, i, need).blocks, i) == i
  {
    TakeFits(s, i, need);
    if Splits(s.blocks[i], need) {
      CutThenJoin(s.blocks, i, s.blocks[i].off + HDR + need);
    } else {
      MarkThenJoin(s.blocks, i);
    }
  }

  lemma TakeLfreeAbove(s: State, i: nat, need: nat)
    requires Layout(s) && Index(s.blocks, s.lfree) <= i && CanTake(s, i, need)
    ensures var t := Take(s, i, need);
      if s.blocks[i].off == s.lfree then s.lfree < t.lfree else t.lfree == s.lfree < s.blocks[i].off
  {
    var (bs, t, from, end) := (s.blocks, Take(s, i, need), Index(s.blocks, s.lfree), s.size + HDR);
    TilesCut(bs, 0, end, HDR, i);
    if from < i {
      TilesOrdered(bs, 0, end, HDR, from, i);
      TilesCut(bs, 0, end, HDR, from);
    } else {
      TakeLayout(s, i, need);
      if t.lfree != end {
        var j :| i <= j < |t.blocks| && t.blocks[j].off == t.lfree && !t.blocks[j].used;
        TilesOrdered(t.blocks, 0, end, HDR, i, j);
      }
    }
  }

  lemma TakeThenRelease(s: State, i: nat, need: nat)
    requires Layout(s) && Index(s.blocks, s.lfree) <= i && CanTake(s, i, need)
    ensures var t := Take(s, i, need); FreeAt(t, s.blocks[i].off + HDR) == s.(maxMem := t.maxMem)
  {
    var t := Take(s, i, need);
    TakeLayout(s, i, need);
    IndexAt(t.blocks, 0, s.size + HDR, HDR, i);
    TakeJoin(s, i, need);
    TakeLfreeAbove(s, i, need);
    assert Release(t, i) == s.(maxMem := t.maxMem);
  }

  /** rt_malloc followed by rt_free of the result restores the block layout, lfree and used_mem. */
  lemma MallocThenFree(s: State, req: word)
    requires Inv(s)
    ensures var (t, p) := Allocate(s, req);
      p.Some? ==> FreeAt(t, p.value) == s.(maxMem := t.maxMem)
  {
    var (i, need) := (Chosen(s, req), Need(req));
    if Served(s, req) {
      assert CanTake(s, i, need) && Index(s.blocks, s.lfree) <= i
          && Allocate(s, req) == (Take(s, i, need), Some(s.blocks[i].off + HDR)) by { AllocateIs(s, req); }
      TakeThenRelease(s, i, need);
    } else {
      assert Allocate(s, req).1.None? by { AllocateIs(s, req); }
    }
  }
}
