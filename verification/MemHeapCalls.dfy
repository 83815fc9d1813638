/** What rt_memheap_alloc and rt_memheap_realloc answer, and exactly which block they hand out, read off the blocks and
    the free list before the call. */
module MemHeapCalls {
  import opened Words
  import opened Blocks
  import opened Lists
  import opened MemHeapSpec

  // ---------------------------------------------------------------- rt_memheap_alloc

  /** Free block `f` has room for `need` bytes. */
  predicate Room(s: State, f: Block, need: nat) {
    f in s.blocks && !f.used && Payload(f) >= need
  }

  /** Free block `f` is the first one of the free list that has room. */
  ghost predicate FirstRoom(s: State, f: Block, need: nat) {
    && Room(s, f, need)
    && exists k :: 0 <= k < |s.free| && s.free[k] == f.off
                   && forall j, g :: 0 <= j < k && Room(s, g, need) ==> s.free[j] != g.off
  }

  /** rt_memheap_alloc refuses: the request is not below the number of available bytes, or no free block has room. */
  ghost predicate Refuses(s: State, need: nat) {
    need >= s.avail || forall f :: f in s.blocks ==> !Room(s, f, need)
  }

  /** The block cut from free block `f` for `need` bytes: the rest is split off exactly when it holds a header and a
      minimal payload. */
  function CutFrom(f: Block, need: nat): Block {
    Block(f.off, if Payload(f) >= need + HDR + MINI then f.off + HDR + need else f.end, true)
  }

  lemma RoomyIs(s: State, f: Block, need: nat)
    requires Layout(s) && f in s.blocks
    ensures Index(s.blocks, f.off) < |s.blocks| && s.blocks[Index(s.blocks, f.off)] == f
    ensures Roomy(s.blocks, f.off, need) <==> Payload(f) >= need
  {
    var i :| 0 <= i < |s.blocks| && s.blocks[i] == f;
    IndexAt(s.blocks, 0, s.pool - HDR, HDR, i);
  }

  /** Whether there is room is what the search finds out. */
  lemma SearchIs(s: State, size: word)
    requires Inv(s)
    ensures Served(s, size) <==> !Refuses(s, Need(size))
    ensures Served(s, size) ==> FirstRoom(s, s.blocks[Index(s.blocks, s.free[Chosen(s, size)])], Need(size))
  {
    var (need, k) := (Need(size), Chosen(s, size));
    forall f | f in s.blocks && !f.used
      ensures Roomy(s.blocks, f.off, need) <==> Payload(f) >= need
      ensures exists j :: 0 <= j < |s.free| && s.free[j] == f.off
    {
      RoomyIs(s, f, need);
      assert f.off in Elements(s.free);
    }
    if k < |s.free| {
      Listed(s, k);
      var f := s.blocks[Index(s.blocks, s.free[k])];
      assert Room(s, f, need);
      forall j, g | 0 <= j < k && Room(s, g, need)
        ensures s.free[j] != g.off
      {
        assert !Roomy(s.blocks, s.free[j], need) && Roomy(s.blocks, g.off, need);
      }
    }
  }

  /** rt_memheap_alloc returns NULL, and changes nothing, exactly when it refuses. Otherwise the one block that becomes
      live is what was cut from the first block of the free list that has room. */
  lemma AllocAnswers(s: State, size: word)
    requires Inv(s)
    ensures var (t, p) := Allocate(s, size);
      && (p.None? <==> Refuses(s, Need(size)))
      && (p.None? ==> t == s)
      && (p.Some? ==> exists f :: FirstRoom(s, f, Need(size)) && p.value == f.off + HDR
                                  && CutFrom(f, Need(size)) !in Live(s.blocks)
                                  && Live(t.blocks) == Live(s.blocks) + {CutFrom(f, Need(size))})
  {
    AllocateIs(s, size);
    SearchIs(s, size);
    if Served(s, size) {
      var i := Index(s.blocks, s.free[Chosen(s, size)]);
      TakeLive(s, i, Need(size));
      assert Taken(s.blocks[i], Need(size)) == CutFrom(s.blocks[i], Need(size));
    }
  }

  // ---------------------------------------------------------------- rt_memheap_realloc

  /** The new size fits into the block and leaves at most a header and a minimal payload over: the block is left
      as it is. */
  predicate Keeps(b: Block, need: nat) {
    need <= Payload(b) <= need + HDR + MINI
  }

  /** The new size fits with more left over than that: the block is cut. */
  predicate Cuts(b: Block, need: nat) {
    need + HDR + MINI < Payload(b)
  }

  /** The free block right behind `b` provides the missing bytes. */
  ghost predicate Grows(s: State, b: Block, need: nat) {
    Payload(b) < need && exists f :: f in s.blocks && !f.used && f.off == b.end && Payload(b) + Payload(f) > need + MINI
  }

  /** In place of `b` the block at `p` is live, cut from the first block of the free list that had room. */
  ghost predicate Moved(s: State, t: State, b: Block, p: nat, need: nat) {
    exists f :: FirstRoom(s, f, need) && p == f.off + HDR && Live(t.blocks) == Live(s.blocks) - {b} + {CutFrom(f, need)}
  }

  /** The answer `q`, and the pool `t` it leaves, when block `b` is to have `need` bytes: a block that the size fits,
      or that grows into the free block behind it, stays, with exactly that size unless it is kept as it is; otherwise
      the result is what is cut from the first block of the free list with room, and the old block is free; NULL comes
      exactly when the block does not stay and rt_memheap_alloc refuses, with nothing changed. */
  ghost predicate Answered(s: State, b: Block, need: nat, t: State, q: Option<nat>) {
    var stays := Keeps(b, need) || Cuts(b, need) || Grows(s, b, need);
    && (q.None? <==> !stays && Refuses(s, need))
    && (q.None? ==> t == s)
    && (stays ==> q == Some(b.off + HDR)
                  && Live(t.blocks) == Live(s.blocks) - {b} + {if Keeps(b, need) then b else Block(b.off, b.off + HDR + need, true)})
    && (q.Some? && !stays ==> Moved(s, t, b, q.value, need))
  }

  /** That is what rt_memheap_realloc of a live block to a size other than 0 answers, for the rounded size. */
  lemma ReallocAnswers(s: State, b: Block, newsize: word)
    requires Inv(s) && b in Live(s.blocks) && newsize > 0
    requires NoWrap(s, b.off + HDR, Need(newsize))
    ensures var (t, q) := Reallocate(s, Some(b.off + HDR), newsize); Answered(s, b, Need(newsize), t, q)
  {
    NeedOk(newsize);
    assert Reallocate(s, Some(b.off + HDR), newsize) == Resize(s, b.off + HDR, Need(newsize));
    ResizeAnswers(s, b, Need(newsize));
  }

  lemma ResizeAnswers(s: State, b: Block, need: word)
    requires Inv(s) && b in Live(s.blocks) && Need(need) == need && NoWrap(s, b.off + HDR, need)
    ensures var (t, q) := Resize(s, b.off + HDR, need); Answered(s, b, need, t, q)
  {
    if Keeps(b, need) || Cuts(b, need) || Grows(s, b, need) {
      StaysAnswers(s, b, need);
    } else {
      assert Resize(s, b.off + HDR, need) == Relocated(s, b.off + HDR, need) by {
        LiveFound(s, b);
        PlanIs(s, Index(s.blocks, b.off), need);
      }
      RelocateAnswers(s, b, need);
    }
  }

  lemma StaysAnswers(s: State, b: Block, need: word)
    requires Inv(s) && b in Live(s.blocks) && Need(need) == need && NoWrap(s, b.off + HDR, need)
    requires Keeps(b, need) || Cuts(b, need) || Grows(s, b, need)
    ensures var (t, q) := Resize(s, b.off + HDR, need);
      && q == Some(b.off + HDR)
      && Live(t.blocks) == Live(s.blocks) - {b} + {if Keeps(b, need) then b else Block(b.off, b.off + HDR + need, true)}
  {
    var i := Index(s.blocks, b.off);
    LiveFound(s, b);
    NeedOk(need);
    PlanIs(s, i, need);
    match PlanFor(s, i, need) {
      case Keep => assert Live(s.blocks) == Live(s.blocks) - {b} + {b};
      case Grow => GrowLive(s, i, need);
      case Cut => ShrinkLive(s, i, need);
      case Relocate =>
    }
  }

  /** The other cases: without a block to grow the call is rt_memheap_alloc of the rounded size, and size 0 frees the
      block. */
  lemma ReallocEdges(s: State, newsize: word)
    requires Inv(s)
    ensures var (need, (t, q)) := (Need(newsize), Reallocate(s, None, newsize));
      && (q.None? <==> newsize == 0 || Refuses(s, need))
      && (q.None? ==> t == s)
      && (q.Some? ==> exists f :: FirstRoom(s, f, need) && q.value == f.off + HDR
                                  && Live(t.blocks) == Live(s.blocks) + {CutFrom(f, need)})
    ensures forall b :: b in Live(s.blocks) ==>
      Reallocate(s, Some(b.off + HDR), 0).1.None? && Live(Reallocate(s, Some(b.off + HDR), 0).0.blocks) == Live(s.blocks) - {b}
  {
    NeedOk(newsize);
    AllocAnswers(s, Need(newsize));
    forall b | b in Live(s.blocks)
      ensures Reallocate(s, Some(b.off + HDR), 0).1.None? && Live(Reallocate(s, Some(b.off + HDR), 0).0.blocks) == Live(s.blocks) - {b}
    {
      FreeLive(s, b);
    }
  }

  /** How the call goes on, in terms of the block and its neighbour. */
  lemma PlanIs(s: State, i: nat, need: word)
    requires Inv(s) && i < |s.blocks| && s.blocks[i].used && (PlanFor(s, i, need) == Grow ==> need + MINI < MODULUS)
    ensures PlanFor(s, i, need) == Keep <==> Keeps(s.blocks[i], need)
    ensures PlanFor(s, i, need) == Cut <==> Cuts(s.blocks[i], need)
    ensures PlanFor(s, i, need) == Grow <==> Grows(s, s.blocks[i], need)
  {
    var (b, end) := (s.blocks[i], s.pool - HDR);
    TilesCut(s.blocks, 0, end, HDR, i);
    if i + 1 < |s.blocks| {
      var f := s.blocks[i + 1];
      TilesCut(s.blocks, 0, end, HDR, i + 1);
      assert f.off == b.end && f in s.blocks;
      assert Wrap(Payload(f) + Payload(b)) == Payload(f) + Payload(b);
    }
    forall f | f in s.blocks && f.off == b.end
      ensures i + 1 < |s.blocks| && f == s.blocks[i + 1]
    {
      NextBlock(s, i, f);
    }
  }

  lemma NextBlock(s: State, i: nat, f: Block)
    requires Layout(s) && i < |s.blocks| && f in s.blocks && f.off == s.blocks[i].end
    ensures i + 1 < |s.blocks| && f == s.blocks[i + 1]
  {
    var end := s.pool - HDR;
    var j :| 0 <= j < |s.blocks| && s.blocks[j] == f;
    TilesCut(s.blocks, 0, end, HDR, i);
    TilesCut(s.blocks, 0, end, HDR, j);
    if j < i { TilesOrdered(s.blocks, 0, end, HDR, j, i); }
    if i + 1 < j {
      TilesCut(s.blocks, 0, end, HDR, i + 1);
      TilesOrdered(s.blocks, 0, end, HDR, i + 1, j);
    }
  }

  lemma RelocateAnswers(s: State, b: Block, need: word)
    requires Inv(s) && b in Live(s.blocks) && Need(need) == need
    ensures var (t, q) := Relocated(s, b.off + HDR, need);
      && (q.None? <==> Refuses(s, need)) && (q.None? ==> t == s)
      && (q.Some? ==> Moved(s, t, b, q.value, need))
  {
    AllocAnswers(s, need);
    var (u, p) := Allocate(s, need);
    if p.Some? {
      var f :| FirstRoom(s, f, need) && p.value == f.off + HDR && CutFrom(f, need) !in Live(s.blocks)
               && Live(u.blocks) == Live(s.blocks) + {CutFrom(f, need)};
      AllocateInv(s, need);
      FreeLive(u, b);
      assert Live(FreeAt(u, b.off + HDR).blocks) == Live(s.blocks) - {b} + {CutFrom(f, need)};
    }
  }

  // ---------------------------------------------------------------- the order of the free list

  /** The elements of `xs` that are still in `ys`, in order. */
  function Left(xs: seq<nat>, ys: seq<nat>): seq<nat> {
    if xs == [] then [] else (if xs[0] in ys then [xs[0]] else []) + Left(xs[1..], ys)
  }

  /** At most one entry is new and stands at the head; the others are where they were, in order. */
  ghost predicate Stacked(xs: seq<nat>, ys: seq<nat>) {
    ys == Left(xs, ys) || (exists o :: o !in xs && ys == [o] + Left(xs, ys))
  }

  ghost predicate Twice(xs: seq<nat>, ys: seq<nat>) {
    exists ms :: Stacked(xs, ms) && Stacked(ms, ys)
  }

  lemma {:induction false} LeftIsDrop(xs: seq<nat>, ys: seq<nat>, a: nat)
    requires Distinct(xs) && forall x :: x in xs ==> (x in ys <==> x != a)
    ensures Left(xs, ys) == Drop(xs, a)
  {
    if xs != [] {
      if xs[0] == a {
        LeftIsAll(xs[1..], ys);
      } else {
        LeftIsDrop(xs[1..], ys, a);
      }
    }
  }

  lemma {:induction false} LeftIsAll(xs: seq<nat>, ys: seq<nat>)
    requires forall x :: x in xs ==> x in ys
    ensures Left(xs, ys) == xs
  {
    if xs != [] {
      assert xs == [xs[0]] + xs[1..];
      LeftIsAll(xs[1..], ys);
    }
  }

  /** What stays of the list when the entry `a` goes, if it is there, and `o` may come. */
  lemma DropStacked(xs: seq<nat>, a: nat, o: nat)
    requires Distinct(xs)
    ensures Stacked(xs, Drop(xs, a)) && Stacked(xs, xs)
    ensures o !in xs ==> Stacked(xs, [o] + Drop(xs, a)) && Stacked(xs, [o] + xs)
  {
    DropIs(xs, a);
    forall x
      ensures x in Drop(xs, a) <==> x in xs && x != a
    {
      assert x in Drop(xs, a) <==> x in Elements(Drop(xs, a));
      assert x in xs <==> x in Elements(xs);
    }
    LeftIsDrop(xs, Drop(xs, a), a);
    LeftIsAll(xs, xs);
    if o !in xs {
      LeftIsDrop(xs, [o] + Drop(xs, a), a);
      LeftIsAll(xs, [o] + xs);
    }
  }

  lemma AllocStacks(s: State, size: word)
    requires Inv(s)
    ensures Stacked(s.free, Allocate(s, size).0.free)
  {
    AllocateIs(s, size);
    DropStacked(s.free, 0, 0);
    if Served(s, size) {
      var i := Index(s.blocks, s.free[Chosen(s, size)]);
      var cut := s.blocks[i].off + HDR + Need(size);
      TakeFits(s, i, Need(size));
      if Splits(s.blocks[i], Need(size)) { CutIsNew(s, i, cut); }
      DropStacked(s.free, s.blocks[i].off, cut);
    }
  }

  lemma FreeStacks(s: State, b: Block)
    requires Inv(s) && b in Live(s.blocks)
    ensures Stacked(s.free, FreeAt(s, b.off + HDR).free)
  {
    LiveFound(s, b);
    var i := Index(s.blocks, b.off);
    NotFree(s.blocks, s.pool - HDR, i);
    assert b.off !in Elements(s.free);
    DropStacked(s.free, if i + 1 < |s.blocks| then s.blocks[i + 1].off else 0, b.off);
  }

  lemma CutStacks(s: State, i: nat, cut: nat)
    requires Inv(s) && i < |s.blocks| && s.blocks[i].off < cut < s.blocks[MergeTo(s.blocks, i) - 1].end
    requires MergeTo(s.blocks, i) == i + 2 ==> cut != s.blocks[i + 1].off
    ensures Stacked(s.free, MemHeapSpec.CutFree(s, i, cut))
  {
    CutIsNew(s, i, cut);
    DropStacked(s.free, if i + 1 < |s.blocks| then s.blocks[i + 1].off else 0, cut);
  }

  /** The free list is a stack of what has become free: rt_memheap_alloc, rt_memheap_free and rt_memheap_realloc in
      place add at most one entry, at the head, and leave the order of the others; a move does so twice. */
  lemma FreeListIsStack(s: State, op: Op)
    requires Inv(s) && Legal(s, op)
    ensures Stacked(s.free, Step(s, op).free)
         || (op.Realloc? && Twice(s.free, Step(s, op).free))
  {
    match op
    case Alloc(n) => AllocStacks(s, n);
    case Free(p) =>
      DropStacked(s.free, 0, 0);
      if p.Some? { FreeStacks(s, s.blocks[Index(s.blocks, p.value - HDR)]); }
    case Realloc(p, n) => ReallocStacks(s, p, n);
  }

  lemma ReallocStacks(s: State, p: Option<nat>, n: word)
    requires Inv(s) && Legal(s, Realloc(p, n))
    ensures var t := Reallocate(s, p, n).0;
      Stacked(s.free, t.free) || Twice(s.free, t.free)
  {
    NeedOk(n);
    DropStacked(s.free, 0, 0);
    if p.None? {
      AllocStacks(s, Need(n));
    } else if n == 0 {
      FreeStacks(s, s.blocks[Index(s.blocks, p.value - HDR)]);
    } else {
      ResizeStacks(s, p.value, Need(n));
    }
  }

  lemma ResizeStacks(s: State, p: nat, need: word)
    requires Inv(s) && IsLive(s, p) && NoWrap(s, p, need) && Need(need) == need
    ensures var t := Resize(s, p, need).0;
      Stacked(s.free, t.free) || Twice(s.free, t.free)
  {
    var i := Index(s.blocks, p - HDR);
    if PlanFor(s, i, need) == Relocate {
      MoveStacks(s, s.blocks[i], need);
    } else {
      InPlaceStacks(s, p, need);
    }
  }

  lemma InPlaceStacks(s: State, p: nat, need: word)
    requires Inv(s) && IsLive(s, p) && NoWrap(s, p, need) && Need(need) == need
    requires PlanFor(s, Index(s.blocks, p - HDR), need) != Relocate
    ensures Stacked(s.free, Resize(s, p, need).0.free)
  {
    var i := Index(s.blocks, p - HDR);
    NeedOk(need);
    match PlanFor(s, i, need) {
      case Keep => DropStacked(s.free, 0, 0);
      case Grow => GrowFits(s, i, need); CutStacks(s, i, s.blocks[i].off + HDR + need);
      case Cut => ShrinkFits(s, i, need); CutStacks(s, i, s.blocks[i].off + HDR + need);
    }
  }

  lemma MoveStacks(s: State, b: Block, need: word)
    requires Inv(s) && b in Live(s.blocks)
    ensures var t := Relocated(s, b.off + HDR, need).0;
      Stacked(s.free, t.free) || Twice(s.free, t.free)
  {
    AllocStacks(s, need);
    AllocAnswers(s, need);
    DropStacked(s.free, 0, 0);
    var (u, q) := Allocate(s, need);
    if q.Some? {
      AllocateInv(s, need);
      FreeStacks(u, b);
    }
  }
}
