/** What rt_malloc and rt_realloc of mem.c answer, and exactly which block they hand out, read off the block layout
    before the call; and what max_mem is. */
module HeapCalls {
  import opened Words
  import opened Blocks
  import opened Runs
  import opened HeapSpec

  // ---------------------------------------------------------------- rt_malloc

  /** Block `i` is the first one from lfree on that has room. */
  ghost predicate FirstRoom(s: State, i: int, need: nat) {
    && Room(s, i, need) && s.lfree <= s.blocks[i].off
    && forall k :: 0 <= k < i && s.lfree <= s.blocks[k].off ==> !Room(s, k, need)
  }

  /** No block from lfree on has room. */
  ghost predicate NoRoom(s: State, need: nat) {
    forall k :: 0 <= k < |s.blocks| && s.lfree <= s.blocks[k].off ==> !Room(s, k, need)
  }

  /** With lfree lowest these speak of the whole heap. */
  lemma LowestSeesAll(s: State, need: nat)
    requires LfreeLowest(s)
    ensures NoRoom(s, need) <==> forall k :: 0 <= k < |s.blocks| ==> !Room(s, k, need)
    ensures forall i :: FirstRoom(s, i, need) ==> forall k :: 0 <= k < i ==> !Room(s, k, need)
  {
    forall k | 0 <= k < |s.blocks| && Room(s, k, need)
      ensures s.lfree <= s.blocks[k].off
    {
      assert s.blocks[k] in s.blocks;
    }
  }

  /** The blocks that the search passes over lie below lfree. */
  lemma SearchStart(s: State, k: nat)
    requires Layout(s) && LfreeOk(s) && k < |s.blocks|
    ensures k >= Index(s.blocks, s.lfree) <==> s.lfree <= s.blocks[k].off
  {
    var from := Index(s.blocks, s.lfree);
    LfreeIndex(s);
    TilesCut(s.blocks, 0, s.size + HDR, HDR, k);
    if k < from {
      if from < |s.blocks| { TilesOrdered(s.blocks, 0, s.size + HDR, HDR, k, from); }
    } else if from < k {
      TilesOrdered(s.blocks, 0, s.size + HDR, HDR, from, k);
      TilesCut(s.blocks, 0, s.size + HDR, HDR, from);
    }
  }

  /** Whether there is room is what the search finds out. */
  lemma SearchIs(s: State, req: word)
    requires Inv(s)
    ensures NoRoom(s, Need(req)) ==> Chosen(s, req) == |s.blocks|
    ensures !NoRoom(s, Need(req)) ==> FirstRoom(s, Chosen(s, req), Need(req)) && Align4(req) <= s.size
  {
    var (need, i) := (Need(req), Chosen(s, req));
    forall k | 0 <= k < |s.blocks|
      ensures Room(s, k, need) <==> Fits(s.blocks[k], need, s.size)
      ensures Room(s, k, need) ==> need <= s.size
      ensures k >= Index(s.blocks, s.lfree) <==> s.lfree <= s.blocks[k].off
    {
      FitsIff(s, k, need);
      SearchStart(s, k);
    }
  }

  /** The block cut from free block `f` for `need` bytes: the rest is split off exactly when it holds a header and a
      minimal payload. */
  function CutFrom(f: Block, need: nat): Block {
    Block(f.off, if Payload(f) >= need + HDR + MIN then f.off + HDR + need else f.end, true)
  }

  /** The block at `p` has become live, cut from the first block that had room. */
  ghost predicate Added(s: State, t: State, p: int, need: nat) {
    exists i :: FirstRoom(s, i, need) && p == s.blocks[i].off + HDR
                && CutFrom(s.blocks[i], need) !in Live(s.blocks) && Live(t.blocks) == Live(s.blocks) + {CutFrom(s.blocks[i], need)}
  }

  /** rt_malloc returns NULL, and changes nothing, exactly for size 0 and when no block from lfree on has room.
      Otherwise it hands out the first one that has, and the one block that becomes live is what was cut from it. */
  lemma MallocAnswers(s: State, req: word)
    requires Inv(s)
    ensures var (t, p) := Allocate(s, req);
      && (p.None? <==> req == 0 || NoRoom(s, Need(req)))
      && (p.None? ==> t == s)
      && (p.Some? ==> Added(s, t, p.value, Need(req)))
  {
    AllocateIs(s, req);
    SearchIs(s, req);
    if Served(s, req) {
      var i := Chosen(s, req);
      TakeLive(s, i, Need(req));
      assert Taken(s.blocks[i], Need(req)) == CutFrom(s.blocks[i], Need(req));
    }
  }

  // ---------------------------------------------------------------- rt_realloc

  /** Block `b` stays where it is: its payload has the size, or is larger by more than a header and a
      minimal payload. */
  predicate Stays(b: Block, need: nat) {
    Payload(b) == need || need + HDR + MIN < Payload(b)
  }

  /** In place of `b` the block at `p` is live, cut from the first block that had room. */
  ghost predicate Moved(s: State, t: State, b: Block, p: int, need: nat) {
    exists i :: FirstRoom(s, i, need) && p == s.blocks[i].off + HDR
                && Live(t.blocks) == Live(s.blocks) - {b} + {CutFrom(s.blocks[i], need)}
  }

  /** The answer `q`, and the heap `t` it leaves, when block `b` is to have `need` bytes: NULL exactly when that
      exceeds the heap, or the block does not stay and no block has room, with nothing changed; a block that
      stays is cut to the size; otherwise the result is what is cut from the first block with room, and the old
      block is free. */
  ghost predicate Answered(s: State, b: Block, need: nat, t: State, q: Option<int>) {
    && (q.None? <==> need > s.size || (!Stays(b, need) && NoRoom(s, if need < MIN then MIN else need)))
    && (q.None? ==> t == s)
    && (q.Some? && Stays(b, need) ==>
          q.value == b.off + HDR && Live(t.blocks) == Live(s.blocks) - {b} + {Block(b.off, b.off + HDR + need, true)})
    && (q.Some? && !Stays(b, need) ==> Moved(s, t, b, q.value, if need < MIN then MIN else need))
  }

  /** That is what rt_realloc of a live block answers, for a size that does not wrap. */
  lemma ReallocAnswers(s: State, b: Block, newsize: word)
    requires Inv(s) && b in Live(s.blocks) && 0 < newsize <= 0xFFFF_FFFC
    ensures var (t, q) := Reallocate(s, Some(b.off + HDR), newsize); Answered(s, b, Align4(newsize), t, q)
  {
    var need := Align4(newsize);
    Resizes(s, b, newsize);
    if need <= s.size {
      ResizeAnswers(s, b, need);
    }
  }

  lemma Resizes(s: State, b: Block, newsize: word)
    requires Layout(s) && b in Live(s.blocks) && 0 < newsize <= 0xFFFF_FFFC
    ensures Reallocate(s, Some(b.off + HDR), newsize)
         == if Align4(newsize) > s.size then (s, None) else Resize(s, b.off + HDR, Align4(newsize))
  {
    LivePayloads(s, b, b);
  }

  lemma ResizeAnswers(s: State, b: Block, need: word)
    requires Inv(s) && b in Live(s.blocks) && need % 4 == 0 && 0 < need <= s.size
    ensures var (t, q) := Resize(s, b.off + HDR, need); Answered(s, b, need, t, q)
  {
    assert Need(need) == if need < MIN then MIN else need;
    if Stays(b, need) {
      StaysAnswers(s, b, need);
    } else {
      MoveAnswers(s, b, need);
    }
  }

  lemma StaysAnswers(s: State, b: Block, need: word)
    requires Inv(s) && b in Live(s.blocks) && need % 4 == 0 && need > 0 && Stays(b, need)
    ensures var (t, q) := Resize(s, b.off + HDR, need);
      q == Some(b.off + HDR) && Live(t.blocks) == Live(s.blocks) - {b} + {Block(b.off, b.off + HDR + need, true)}
  {
    LiveFound(s, b);
    var i := Index(s.blocks, b.off);
    if Payload(b) == need {
      assert Live(s.blocks) == Live(s.blocks) - {b} + {b} && b == Block(b.off, b.off + HDR + need, true);
    } else {
      ShrinkFits(s, i, need);
      CutLive(s.blocks, s.size + HDR, HDR, i, b.off + HDR + need);
    }
  }

  lemma MoveAnswers(s: State, b: Block, need: word)
    requires Inv(s) && b in Live(s.blocks) && need % 4 == 0 && need > 0 && !Stays(b, need)
    ensures var (t, q) := Resize(s, b.off + HDR, need);
      && (q.None? <==> NoRoom(s, Need(need))) && (q.None? ==> t == s)
      && (q.Some? ==> Moved(s, t, b, q.value, Need(need)))
  {
    LiveFound(s, b);
    MallocAnswers(s, need);
    var (u, p) := Allocate(s, need);
    if p.Some? {
      AllocateInv(s, need);
      FreedAfter(s, u, b, p.value, Need(need));
    }
  }

  lemma FreedAfter(s: State, u: State, b: Block, p: int, need: nat)
    requires Layout(u) && b in Live(s.blocks) && Added(s, u, p, need)
    ensures Moved(s, FreeAt(u, b.off + HDR), b, p, need)
  {
    var i :| FirstRoom(s, i, need) && p == s.blocks[i].off + HDR
             && CutFrom(s.blocks[i], need) !in Live(s.blocks) && Live(u.blocks) == Live(s.blocks) + {CutFrom(s.blocks[i], need)};
    FreeLive(u, b);
    assert Live(FreeAt(u, b.off + HDR).blocks) == Live(s.blocks) - {b} + {CutFrom(s.blocks[i], need)};
  }

  /** With lfree lowest, rt_realloc of a live block returns NULL exactly when the aligned size exceeds the heap, or it
      is neither the block's payload nor small enough to cut the block and no block of the whole heap has room. */
  lemma ReallocNullExact(s: State, b: Block, newsize: word)
    requires Inv(s) && LfreeLowest(s) && b in Live(s.blocks) && 0 < newsize <= 0xFFFF_FFFC
    ensures var need := Align4(newsize);
      Reallocate(s, Some(b.off + HDR), newsize).1.None?
      <==> need > s.size || (Payload(b) != need && Payload(b) <= need + HDR + MIN
                             && forall k :: 0 <= k < |s.blocks| ==> !Room(s, k, Need(newsize)))
  {
    var need := Align4(newsize);
    ReallocAnswers(s, b, newsize);
    assert Need(newsize) == if need < MIN then MIN else need;
    LowestSeesAll(s, Need(newsize));
  }

  /** The other cases of rt_realloc. Without a block to grow it is rt_malloc of the aligned size, refused when that
      exceeds the heap; size 0 frees the block; and a pointer outside the heap comes back as it is. */
  lemma ReallocEdges(s: State, p: int, newsize: word)
    requires Inv(s)
    ensures var (need, (t, q)) := (Align4(newsize), Reallocate(s, None, newsize));
      && (q.None? <==> need == 0 || need > s.size || NoRoom(s, Need(need)))
      && (q.None? ==> t == s)
      && (q.Some? ==> Added(s, t, q.value, Need(need)))
    ensures forall b :: b in Live(s.blocks) ==>
      Reallocate(s, Some(b.off + HDR), 0).1.None? && Live(Reallocate(s, Some(b.off + HDR), 0).0.blocks) == Live(s.blocks) - {b}
    ensures Outside(s, p) && 0 < Align4(newsize) <= s.size ==> Reallocate(s, Some(p), newsize) == (s, Some(p))
  {
    MallocAnswers(s, Align4(newsize));
    forall b | b in Live(s.blocks)
      ensures Reallocate(s, Some(b.off + HDR), 0).1.None? && Live(Reallocate(s, Some(b.off + HDR), 0).0.blocks) == Live(s.blocks) - {b}
    {
      FreeLive(s, b);
    }
  }

  // ---------------------------------------------------------------- max_mem

  /** A run together with the largest value used_mem has had so far. */
  datatype Watched = Watched(s: State, peak: int)

  function Max(a: int, b: int): int { if a < b then b else a }

  /** Whether rt_realloc holds two blocks for a moment: the old one and the one it moves to. */
  predicate Moves(s: State, op: Op) {
    && op.Realloc? && op.rmem.Some? && IsLive(s, op.rmem.value)
    && 0 < Align4(op.newsize) <= s.size && !Stays(s.blocks[Index(s.blocks, op.rmem.value - HDR)], Align4(op.newsize))
  }

  /** The largest value of used_mem from the call to its end. */
  function PeakOf(s: State, op: Op): int {
    var after := Max(s.usedMem, Step(s, op).usedMem);
    if Moves(s, op) then Max(after, Allocate(s, Align4(op.newsize)).0.usedMem) else after
  }

  function WatchStep(w: Watched, op: Op): Watched {
    Watched(Step(w.s, op), Max(w.peak, PeakOf(w.s, op)))
  }

  lemma AllocatePeak(s: State, req: word)
    requires Inv(s)
    ensures var t := Allocate(s, req).0; t.maxMem == Max(s.maxMem, t.usedMem) && t.usedMem >= s.usedMem
  {
    AllocateIs(s, req);
    if Served(s, req) { TakeLayout(s, Chosen(s, req), Need(req)); }
  }

  lemma ReleasePeak(s: State, i: nat)
    requires Layout(s) && i < |s.blocks|
    ensures Release(s, i).maxMem == s.maxMem && Release(s, i).usedMem < s.usedMem
  {
    TilesCut(s.blocks, 0, s.size + HDR, HDR, i);
  }

  lemma ReallocPeak(s: State, p: int, need: word)
    requires Inv(s) && IsLive(s, p) && need % 4 == 0 && need > 0
    ensures var (t, stays) := (Resize(s, p, need).0, Stays(s.blocks[Index(s.blocks, p - HDR)], need));
      && (stays ==> t.maxMem == s.maxMem && t.usedMem <= s.usedMem)
      && (!stays ==> t.maxMem == Max(s.maxMem, Allocate(s, need).0.usedMem) && t.usedMem <= Allocate(s, need).0.usedMem)
  {
    var b := s.blocks[Index(s.blocks, p - HDR)];
    if !Stays(b, need) {
      AllocatePeak(s, need);
      AllocateInv(s, need);
      MallocAnswers(s, need);
      var u := Allocate(s, need).0;
      if Allocate(s, need).1.Some? {
        assert b in Live(s.blocks) && b in Live(u.blocks);
        LiveFound(u, b);
        ReleasePeak(u, Index(u.blocks, b.off));
      }
    }
  }

  lemma WatchKeeps(w: Watched, op: Op)
    requires Inv(w.s) && Legal(w.s, op) && w.s.maxMem == w.peak
    ensures WatchStep(w, op).s.maxMem == WatchStep(w, op).peak
  {
    match op
    case Malloc(n) => AllocatePeak(w.s, n);
    case Free(p) => if p.Some? { ReleasePeak(w.s, Index(w.s.blocks, p.value - HDR)); }
    case Realloc(p, n) => ReallocWatch(w.s, p, n);
  }

  lemma ReallocWatch(s: State, p: Option<int>, n: word)
    requires Inv(s) && Legal(s, Realloc(p, n))
    ensures Reallocate(s, p, n).0.maxMem == Max(s.maxMem, PeakOf(s, Realloc(p, n)))
  {
    var need := Align4(n);
    if need <= s.size && need > 0 && p.Some? && IsLive(s, p.value) {
      LiveWatch(s, p.value, n);
    } else if need <= s.size && p.None? {
      AllocatePeak(s, need);
    } else if need == 0 {
      ReleasePeak(s, Index(s.blocks, p.value - HDR));
    }
  }

  lemma LiveWatch(s: State, p: int, n: word)
    requires Inv(s) && IsLive(s, p) && 0 < Align4(n) <= s.size
    ensures Reallocate(s, Some(p), n).0.maxMem == Max(s.maxMem, PeakOf(s, Realloc(Some(p), n)))
  {
    LiveInside(s, p);
    ReallocPeak(s, p, Align4(n));
  }

  lemma LiveInside(s: State, p: int)
    requires Layout(s) && IsLive(s, p)
    ensures !Outside(s, p)
  {
    TilesCut(s.blocks, 0, s.size + HDR, HDR, Index(s.blocks, p - HDR));
  }

  /** max_mem is the largest value that used_mem has had at any moment of the run. */
  lemma MaxMemIsPeak(size: nat, ops: seq<Op>, w: Watched)
    requires GoodSize(size)
    requires Reaches((w: Watched, op: Op) => Legal(w.s, op), WatchStep, Watched(Init(size), 0), ops, w)
    ensures w.s.maxMem == w.peak
  {
    var legal := (w: Watched, op: Op) => Legal(w.s, op);
    var inv := (w: Watched) => Inv(w.s) && w.s.maxMem == w.peak;
    InitInv(size);
    forall w: Watched, op: Op | inv(w) && legal(w, op)
      ensures inv(WatchStep(w, op))
    {
      StepInv(w.s, op);
      WatchKeeps(w, op);
    }
    RunKeeps(inv, legal, WatchStep, Watched(Init(size), 0), ops, w);
  }
}
