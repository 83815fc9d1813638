/** rt_memheap_alloc, rt_memheap_realloc and rt_memheap_free of memheap.c, relinking the two rings in place. Every
    method is proved to make exactly the step that MemHeapSpec gives for it. */
module MemHeap {
  import opened Words
  import opened Blocks
  import opened Lists
  import opened MemHeapSpec
  import opened MemHeapItems
  import opened Payloads

  const RT_MEMHEAP_SIZE := HDR
  const RT_MEMHEAP_MINIALLOC := MINI
  const RT_NULL := -1

  /** The address of `free_header`, which lies in the memheap object and not in the pool. */
  const FREE_HEADER := -RT_MEMHEAP_SIZE

  /** The block behind live pointer `p`. */
  function BlockAt(s: State, p: nat): Block {
    var i := Index(s.blocks, p - RT_MEMHEAP_SIZE);
    if i < |s.blocks| then s.blocks[i] else Block(0, 0, false)
  }

  /** What a realloc of block `b` to `need` bytes makes of the words `was` of the pool: the front of the old payload is
      in the new one, and all other live payloads are what they were; without a new one everything is. */
  ghost predicate Carried(was: seq<word>, now: seq<word>, b: Block, live: set<Block>, q: Option<nat>, need: word) {
    && PayloadsKept(was, now, live - {b})
    && if q.None? then now == was
       else SameBytes(now, q.value, was, b.off + RT_MEMHEAP_SIZE, Smaller(Payload(b), need))
  }

  class MemHeapObject {
    const poolSize: nat
    const mem: array<word>   // the pool, for its payloads; the headers are in the fields below
    var availableSize: word
    var maxUsedSize: word
    var used: Flags
    var next: Ptrs
    var prev: Ptrs
    var nextFree: Ptrs
    var prevFree: Ptrs
    ghost var st: State   // the layout and the free list these fields represent

    /** The fields thread `bs` and the used tail on the physical ring and `free` on the free ring. */
    ghost predicate Linked(bs: seq<Block>, free: seq<nat>)
      reads this
    {
      && poolSize >= RT_MEMHEAP_SIZE
      && Ring(Phys(used, next, prev), bs, poolSize - RT_MEMHEAP_SIZE)
      && Chain(nextFree, prevFree, FREE_HEADER, free, FREE_HEADER) && Distinct(free)
    }

    ghost predicate Valid()
      reads this
    {
      && Inv(st) && st.pool == poolSize && 4 * mem.Length == poolSize
      && Linked(st.blocks, st.free)
      && st.avail == availableSize && st.maxUsed == maxUsedSize
    }

    /** rt_memheap_init of a pool that holds the two headers it writes. */
    constructor (size: word)
      requires size - size % 4 >= 2 * RT_MEMHEAP_SIZE
      ensures fresh(mem) && st == Init(size - size % 4) && poolSize == size - size % 4
      ensures availableSize == poolSize - 2 * RT_MEMHEAP_SIZE && maxUsedSize == 2 * RT_MEMHEAP_SIZE
      ensures ItemAt(Phys(used, next, prev), 0, false, poolSize - RT_MEMHEAP_SIZE, poolSize - RT_MEMHEAP_SIZE)
      ensures ItemAt(Phys(used, next, prev), poolSize - RT_MEMHEAP_SIZE, true, 0, 0)
      ensures Chain(nextFree, prevFree, FREE_HEADER, [0], FREE_HEADER)
      ensures GoodPool(poolSize) ==> Valid()
    {
      var pool := size - size % 4;
      var tail := pool - RT_MEMHEAP_SIZE;
      poolSize := pool;
      mem := new word[pool / 4];
      availableSize := pool - 2 * RT_MEMHEAP_SIZE;
      maxUsedSize := 2 * RT_MEMHEAP_SIZE;
      used := map[0 := false, tail := true];
      next := map[0 := tail, tail := 0];
      prev := map[0 := tail, tail := 0];
      nextFree := map[0 := FREE_HEADER, tail := RT_NULL, FREE_HEADER := 0];
      prevFree := map[0 := FREE_HEADER, tail := RT_NULL, FREE_HEADER := 0];
      st := Init(pool);
      new;
      assert st.blocks[1..] == [] && st.free[1..] == [];
      assert ItemAt(Phys(used, next, prev), tail, true, 0, 0);
      if GoodPool(pool) {
        InitInv(pool);
        assert Items(Phys(used, next, prev), st.blocks, tail);
        assert Ring(Phys(used, next, prev), st.blocks, tail);
      }
    }

    /** MEMITEM_SIZE */
    function ItemSize(o: int): int
      requires o in next
      reads this
    {
      next[o] - o - RT_MEMHEAP_SIZE
    }

    // ---------------------------------------------------------------- the physical ring

    /** Builds a free item at `cut` inside block `i`, at offset `o`. */
    method InsertItem(o: nat, cut: nat, ghost bs: seq<Block>, ghost free: seq<nat>, ghost i: nat) returns (ghost cs: seq<Block>)
      requires Linked(bs, free) && i < |bs| && bs[i].off == o && cut % 4 == 0
      requires o + RT_MEMHEAP_SIZE + 4 <= cut && cut + RT_MEMHEAP_SIZE + 4 <= bs[i].end
      modifies this`used, this`next, this`prev
      ensures cs == Split(bs, i, cut) && Linked(cs, free)
    {
      cs := Split(bs, i, cut);
      ReadItem(Phys(used, next, prev), bs, poolSize - RT_MEMHEAP_SIZE, i);
      InsertSplits(Phys(used, next, prev), bs, poolSize - RT_MEMHEAP_SIZE, i, cut);
      used := used[cut := false];
      prev := prev[cut := o];
      next := next[cut := next[o]];
      prev := prev[next[o] := cut];
      next := next[o := cut];
    }

    /** Takes block `i + 1` out of the ring: block `i`, at offset `o`, now reaches to its end. */
    method RemoveNext(o: nat, ghost bs: seq<Block>, ghost free: seq<nat>, ghost i: nat) returns (ghost cs: seq<Block>)
      requires Linked(bs, free) && i + 1 < |bs| && bs[i].off == o
      modifies this`next, this`prev
      ensures cs == Merge(bs, i) && Linked(cs, free)
    {
      cs := Merge(bs, i);
      BypassMerges(Phys(used, next, prev), bs, poolSize - RT_MEMHEAP_SIZE, i);
      var n := next[o];
      prev := prev[next[n] := o];
      next := next[o := next[n]];
    }

    method SetUsed(o: nat, flag: bool, ghost bs: seq<Block>, ghost free: seq<nat>, ghost i: nat) returns (ghost cs: seq<Block>)
      requires Linked(bs, free) && i < |bs| && bs[i].off == o
      modifies this`used
      ensures cs == Flag(bs, i, flag) && Linked(cs, free)
    {
      cs := Flag(bs, i, flag);
      FlagSets(Phys(used, next, prev), bs, poolSize - RT_MEMHEAP_SIZE, i, flag);
      used := used[o := flag];
    }

    // ---------------------------------------------------------------- the free ring

    method Unlink(x: nat, ghost bs: seq<Block>, ghost free: seq<nat>)
      requires Linked(bs, free) && x in free
      modifies this`nextFree, this`prevFree
      ensures Linked(bs, Drop(free, x))
      ensures x in nextFree && x in prevFree
    {
      UnlinkChain(nextFree, prevFree, FREE_HEADER, free, FREE_HEADER, x);
      DropIs(free, x);
      prevFree := prevFree[nextFree[x] := prevFree[x]];
      nextFree := nextFree[prevFree[x] := nextFree[x]];
    }

    /** Clears the free-list fields of an item that is not on the list. */
    method ClearLinks(x: nat, ghost bs: seq<Block>, ghost free: seq<nat>)
      requires Linked(bs, free) && x !in free
      modifies this`nextFree, this`prevFree
      ensures Linked(bs, free)
    {
      ChainFrame(nextFree, prevFree, nextFree[x := RT_NULL], prevFree[x := RT_NULL], FREE_HEADER, free, FREE_HEADER);
      nextFree := nextFree[x := RT_NULL];
      prevFree := prevFree[x := RT_NULL];
    }

    /** Links `x` in at the head of the free list. */
    method PushFree(x: nat, ghost bs: seq<Block>, ghost free: seq<nat>)
      requires Linked(bs, free) && x !in free
      modifies this`nextFree, this`prevFree
      ensures Linked(bs, [x] + free)
    {
      PushChain(nextFree, prevFree, FREE_HEADER, free, x);
      assert ([x] + free)[1..] == free;
      nextFree := nextFree[x := nextFree[FREE_HEADER]];
      prevFree := prevFree[x := FREE_HEADER];
      prevFree := prevFree[nextFree[FREE_HEADER] := x];
      nextFree := nextFree[FREE_HEADER := x];
    }

    // ---------------------------------------------------------------- rt_memheap_alloc

    /** The search of rt_memheap_alloc: the first item of the free list that is large enough. */
    method Search(need: word) returns (header: int, freeSize: int, ghost k: nat)
      requires Valid() && need >= MINI
      ensures k == FirstFit(st.blocks, st.free, need)
      ensures freeSize >= need <==> k < |st.free|
      ensures k < |st.free| ==>
        var i := Index(st.blocks, st.free[k]); header == st.free[k] && i < |st.blocks| && freeSize == Payload(st.blocks[i])
    {
      k := 0;
      freeSize := 0;
      if st.free != [] { ChainAt(nextFree, prevFree, FREE_HEADER, st.free, FREE_HEADER, 0); }
      header := nextFree[FREE_HEADER];
      while header != FREE_HEADER && freeSize < need
        invariant k <= |st.free| && header == if k < |st.free| then st.free[k] else FREE_HEADER
        invariant FirstFit(st.blocks, st.free, need, k) == FirstFit(st.blocks, st.free, need)
        invariant freeSize >= need ==> k < |st.free| && Roomy(st.blocks, st.free[k], need)
                                       && freeSize == Payload(st.blocks[Index(st.blocks, st.free[k])])
        decreases |st.free| - k, if freeSize < need then 1 else 0
      {
        Listed(st, k);
        ReadItem(Phys(used, next, prev), st.blocks, poolSize - RT_MEMHEAP_SIZE, Index(st.blocks, st.free[k]));
        freeSize := ItemSize(header);
        if freeSize < need {
          ChainAt(nextFree, prevFree, FREE_HEADER, st.free, FREE_HEADER, k);
          header := nextFree[header];
          k := k + 1;
        }
      }
    }

    /** Raises `max_used_size` if more is in use than ever before. */
    method Account(avail: word)
      requires avail <= poolSize < MODULUS
      modifies this`availableSize, this`maxUsedSize
      ensures availableSize == avail
      ensures maxUsedSize == if poolSize - avail > old(maxUsedSize) then poolSize - avail else old(maxUsedSize)
    {
      availableSize := avail;
      if poolSize - availableSize > maxUsedSize { maxUsedSize := poolSize - availableSize; }
    }

    /** The split of rt_memheap_alloc: block `i`, at offset `o`, leaves the free list and its rest enters it. */
    method SplitFree(o: nat, need: nat, ghost i: nat)
      requires Valid() && CanTake(st, i, need) && Splits(st.blocks[i], need) && st.blocks[i].off == o
      modifies this`used, this`next, this`prev, this`nextFree, this`prevFree
      ensures Linked(Take(st, i, need).blocks, Take(st, i, need).free)
    {
      var cut := o + need + RT_MEMHEAP_SIZE;
      ListedOff(st, i);
      TakeFits(st, i, need);
      CutIsNew(st, i, cut);
      DropIs(st.free, o);
      SplitFlagIsCut(st.blocks, i, cut);
      assert cut !in Elements(st.free) && cut !in Elements(Drop(st.free, o)) && o !in Elements(Drop(st.free, o));
      ghost var cs := InsertItem(o, cut, st.blocks, st.free, i);
      Unlink(o, cs, st.free);
      ClearLinks(o, cs, Drop(st.free, o));
      PushFree(cut, cs, Drop(st.free, o));
      cs := SetUsed(o, true, cs, [cut] + Drop(st.free, o), i);
    }

    method TakeWhole(o: nat, need: nat, ghost i: nat)
      requires Valid() && CanTake(st, i, need) && !Splits(st.blocks[i], need) && st.blocks[i].off == o
      modifies this`used, this`nextFree, this`prevFree
      ensures Linked(Take(st, i, need).blocks, Take(st, i, need).free)
    {
      ListedOff(st, i);
      DropIs(st.free, o);
      assert o !in Elements(Drop(st.free, o));
      Unlink(o, st.blocks, st.free);
      ClearLinks(o, st.blocks, Drop(st.free, o));
      ghost var _ := SetUsed(o, true, st.blocks, Drop(st.free, o), i);
    }

    /** A free block is on the free list. */
    lemma ListedOff(s: State, i: nat)
      requires FreeOk(s) && i < |s.blocks| && !s.blocks[i].used
      ensures s.blocks[i].off in s.free
    {
      assert s.blocks[i] in s.blocks;
      assert s.blocks[i].off in Elements(s.free);
    }

    lemma AvailBounds(s: State)
      requires Inv(s)
      ensures 0 <= s.avail <= s.pool < MODULUS
    {
      SumTotal(s.blocks, 0, s.pool - HDR, HDR);
    }

    /** Hands out block `i`, at offset `o`, whose payload is `freeSize`. */
    method TakeBlock(o: nat, freeSize: int, need: nat, ghost i: nat)
      requires Valid() && CanTake(st, i, need) && st.blocks[i].off == o && freeSize == Payload(st.blocks[i])
      modifies this
      ensures Valid() && st == Take(old(st), i, need)
    {
      TakeInv(st, i, need);
      AvailBounds(Take(st, i, need));
      if freeSize >= need + RT_MEMHEAP_SIZE + RT_MEMHEAP_MINIALLOC {
        SplitFree(o, need, i);
        Account(availableSize - need - RT_MEMHEAP_SIZE);
      } else {
        TakeWhole(o, need, i);
        Account(availableSize - freeSize);
      }
      st := Take(st, i, need);
    }

    /** rt_memheap_alloc: the payload offset of a new block, or NULL. */
    method Alloc(size: word) returns (p: Option<nat>)
      requires Valid()
      modifies this
      ensures Valid() && (st, p) == Allocate(old(st), size)
    {
      AllocateIs(st, size);
      var need := Align4(size);
      if need < RT_MEMHEAP_MINIALLOC { need := RT_MEMHEAP_MINIALLOC; }
      if need < availableSize {
        var header, freeSize; ghost var k;
        header, freeSize, k := Search(need);
        if freeSize >= need {
          TakeBlock(header, freeSize, need, Index(st.blocks, header));
          return Some(header + RT_MEMHEAP_SIZE);
        }
      }
      return None;
    }

    // ---------------------------------------------------------------- rt_memheap_free

    /** Joining a free block that has no free block in front of it. */
    lemma JoinForwardOnly(bs: seq<Block>, i: nat)
      requires i < |bs| && !bs[i].used && MergeFrom(bs, i) == i
      ensures Join(bs, i) == if MergeTo(bs, i) == i + 2 then Merge(bs, i) else bs
    {
      assert bs == bs[..i] + [bs[i]] + bs[i + 1..];
    }

    /** Joining backward first and then forward. */
    lemma JoinBackwardFirst(bs: seq<Block>, i: nat)
      requires i < |bs| && !bs[i].used && MergeFrom(bs, i) == i - 1
      ensures var cs := Merge(bs, i - 1);
        && i - 1 < |cs| && cs[i - 1] == Block(bs[i - 1].off, bs[i].end, false)
        && (i + 1 < |bs| <==> i < |cs|) && (i + 1 < |bs| ==> cs[i] == bs[i + 1])
        && Join(bs, i) == if MergeTo(bs, i) == i + 2 then Merge(cs, i - 1) else cs
    {
      var cs := Merge(bs, i - 1);
      assert cs[..i - 1] == bs[..i - 1];
      assert cs[i..] == bs[i + 1..];
      if i + 1 < |bs| {
        assert cs[i] == cs[i..][0] == bs[i + 1..][0];
        assert cs[i + 1..] == bs[i + 2..];
      }
    }

    /** Merges block `i`, at offset `o`, which is free and not listed, with a free block in front of it. */
    method MergeLeft(o: nat, ghost bs: seq<Block>, ghost free: seq<nat>, ghost i: nat)
      returns (header: nat, insert: bool, ghost cs: seq<Block>)
      requires Linked(bs, free) && i < |bs| && bs[i].off == o && !bs[i].used
      modifies this`next, this`prev, this`availableSize
      requires availableSize + RT_MEMHEAP_SIZE < MODULUS
      ensures insert == (MergeFrom(bs, i) == i) && header == bs[MergeFrom(bs, i)].off
      ensures cs == (if insert then bs else Merge(bs, i - 1)) && Linked(cs, free)
      ensures availableSize == old(availableSize) + (if insert then 0 else RT_MEMHEAP_SIZE)
    {
      header, insert, cs := o, true, bs;
      ReadItem(Phys(used, next, prev), bs, poolSize - RT_MEMHEAP_SIZE, i);
      ReadPrev(Phys(used, next, prev), bs, poolSize - RT_MEMHEAP_SIZE, i);
      if !used[prev[header]] {
        availableSize := availableSize + RT_MEMHEAP_SIZE;
        header := prev[header];
        cs := RemoveNext(header, bs, free, i - 1);
        insert := false;
      }
    }

    /** Merges block `j`, at offset `header`, with a free block behind it, which leaves the free list. */
    method MergeRight(header: nat, ghost bs: seq<Block>, ghost free: seq<nat>, ghost j: nat) returns (ghost cs: seq<Block>)
      requires Linked(bs, free) && j < |bs| && bs[j].off == header
      requires j + 1 < |bs| && !bs[j + 1].used ==> bs[j + 1].off in free
      requires availableSize + RT_MEMHEAP_SIZE < MODULUS
      modifies this`next, this`prev, this`availableSize, this`nextFree, this`prevFree
      ensures if j + 1 < |bs| && !bs[j + 1].used
        then cs == Merge(bs, j) && Linked(cs, Drop(free, bs[j + 1].off))
             && availableSize == old(availableSize) + RT_MEMHEAP_SIZE
        else cs == bs && Linked(cs, free) && availableSize == old(availableSize)
    {
      cs := bs;
      ReadItem(Phys(used, next, prev), bs, poolSize - RT_MEMHEAP_SIZE, j);
      if !used[next[header]] {
        availableSize := availableSize + RT_MEMHEAP_SIZE;
        var n := next[header];
        cs := RemoveNext(header, bs, free, j);
        Unlink(n, cs, free);
      }
    }

    lemma ReleaseBounds(s: State, i: nat)
      requires Inv(s) && i < |s.blocks| && s.blocks[i].used
      ensures Inv(Release(s, i)) && Release(s, i).avail <= s.pool - HDR && s.pool < MODULUS
      ensures 0 <= s.avail && Payload(s.blocks[i]) > 0
    {
      ReleaseInv(s, i);
      TilesCut(s.blocks, 0, s.pool - HDR, HDR, i);
      SumTotal(Release(s, i).blocks, 0, s.pool - HDR, HDR);
      SumTotal(s.blocks, 0, s.pool - HDR, HDR);
    }

    /** Frees block `i`, at offset `o`. */
    method ReleaseBlock(o: nat, ghost i: nat)
      requires Valid() && i < |st.blocks| && st.blocks[i].used && st.blocks[i].off == o
      modifies this
      ensures Valid() && st == Release(old(st), i)
    {
      ReleaseBounds(st, i);
      NotFree(st.blocks, poolSize - RT_MEMHEAP_SIZE, i);
      ReadItem(Phys(used, next, prev), st.blocks, poolSize - RT_MEMHEAP_SIZE, i);
      if MergeTo(st.blocks, i) == i + 2 { ListedOff(st, i + 1); }
      availableSize := availableSize + ItemSize(o);
      Unuse(o, st.blocks, st.free, i);
      st := Release(st, i);
    }

    /** The relinking part of rt_memheap_free. */
    method Unuse(o: nat, ghost bs: seq<Block>, ghost free: seq<nat>, ghost i: nat)
      requires Linked(bs, free) && i < |bs| && bs[i].used && bs[i].off == o && o !in free
      requires MergeTo(bs, i) == i + 2 ==> bs[i + 1].off in free
      requires availableSize + (if MergeFrom(bs, i) < i then HDR else 0) + (if MergeTo(bs, i) > i + 1 then HDR else 0)
               <= poolSize - HDR && poolSize < MODULUS
      modifies this`used, this`next, this`prev, this`nextFree, this`prevFree, this`availableSize
      ensures var rest := if MergeTo(bs, i) > i + 1 then Drop(free, bs[i + 1].off) else free;
        Linked(Join(bs, i), if MergeFrom(bs, i) < i then rest else [o] + rest)
      ensures availableSize == old(availableSize) + (if MergeFrom(bs, i) < i then HDR else 0)
                               + (if MergeTo(bs, i) > i + 1 then HDR else 0)
    {
      FlagJoinIsJoin(bs, i);
      FlagBehind(bs, i);
      if i + 1 < |bs| { DropKeepsOut(free, bs[i + 1].off, o); }
      ghost var cs := SetUsed(o, false, bs, free, i);
      MergeBoth(o, cs, free, i);
    }

    lemma FlagBehind(bs: seq<Block>, i: nat)
      requires i < |bs|
      ensures var cs := Flag(bs, i, false);
        |cs| == |bs| && cs[i].off == bs[i].off && (i + 1 < |bs| ==> cs[i + 1] == bs[i + 1])
    {
      var cs := Flag(bs, i, false);
      if i + 1 < |bs| { assert cs[i + 1] == cs[i + 1..][0] == bs[i + 1..][0]; }
    }

    /** Block `i`, at offset `o` and just marked free, merges with its free neighbours or enters the free list. */
    method MergeBoth(o: nat, ghost bs: seq<Block>, ghost free: seq<nat>, ghost i: nat)
      requires Linked(bs, free) && i < |bs| && !bs[i].used && bs[i].off == o && o !in free
      requires MergeTo(bs, i) == i + 2 ==> bs[i + 1].off in free && o !in Drop(free, bs[i + 1].off)
      requires availableSize + (if MergeFrom(bs, i) < i then HDR else 0) + (if MergeTo(bs, i) > i + 1 then HDR else 0)
               <= poolSize - HDR && poolSize < MODULUS
      modifies this`next, this`prev, this`nextFree, this`prevFree, this`availableSize
      ensures var rest := if MergeTo(bs, i) > i + 1 then Drop(free, bs[i + 1].off) else free;
        Linked(Join(bs, i), if MergeFrom(bs, i) < i then rest else [o] + rest)
      ensures availableSize == old(availableSize) + (if MergeFrom(bs, i) < i then HDR else 0)
                               + (if MergeTo(bs, i) > i + 1 then HDR else 0)
    {
      if MergeFrom(bs, i) < i { JoinBackwardFirst(bs, i); } else { JoinForwardOnly(bs, i); }
      var header, insert; ghost var cs;
      header, insert, cs := MergeLeft(o, bs, free, i);
      cs := MergeRight(header, cs, free, MergeFrom(bs, i));
      if insert {
        PushFree(header, cs, if MergeTo(bs, i) == i + 2 then Drop(free, bs[i + 1].off) else free);
      }
    }

    /** rt_memheap_free of NULL or of a live pointer. */
    method Free(ptr: Option<nat>)
      requires Valid() && (ptr.Some? ==> IsLive(st, ptr.value))
      modifies this
      ensures Valid() && st == if ptr.None? then old(st) else FreeAt(old(st), ptr.value)
    {
      if ptr.Some? {
        ReleaseBlock(ptr.value - RT_MEMHEAP_SIZE, Index(st.blocks, ptr.value - RT_MEMHEAP_SIZE));
      }
    }

    // ---------------------------------------------------------------- rt_memheap_realloc

    /** Growing in place: the free block behind leaves both rings and a smaller one is built behind the larger
        payload. */
    method GrowBlock(o: nat, need: word, oldsize: nat, ghost i: nat)
      requires Valid() && Planned(st, i, need, Grow) && need + MINI < MODULUS
      requires st.blocks[i].off == o && oldsize == Payload(st.blocks[i])
      modifies this
      ensures Valid() && st == Expand(old(st), i, need)
    {
      GrowFacts(st, i, need);
      Account(availableSize - (need - oldsize));
      MoveBorder(o, o + RT_MEMHEAP_SIZE + need, st.blocks, st.free, i);
      st := Expand(st, i, need);
    }

    /** What growing block `i` in place needs: the free block behind it is listed, the cut is new, the count stays a
        word, and the invariant is kept. */
    lemma GrowFacts(s: State, i: nat, need: word)
      requires Inv(s) && Planned(s, i, need, Grow) && need + MINI < MODULUS
      ensures Inv(Expand(s, i, need)) && 0 <= Expand(s, i, need).avail <= s.pool < MODULUS
      ensures MergeTo(s.blocks, i) == i + 2 && s.blocks[i + 1].off in s.free
      ensures var cut := s.blocks[i].off + HDR + need; CutFits(s.blocks, HDR, i, cut) && cut !in s.free
    {
      ExpandInv(s, i, need);
      AvailBounds(Expand(s, i, need));
      GrowFits(s, i, need);
      CutIsNew(s, i, s.blocks[i].off + HDR + need);
      ListedOff(s, i + 1);
    }

    /** Free block `i + 1` leaves both rings and a new free item is built at `cut`. */
    method MoveBorder(o: nat, cut: nat, ghost bs: seq<Block>, ghost free: seq<nat>, ghost i: nat)
      requires Linked(bs, free) && CutFits(bs, HDR, i, cut) && bs[i].off == o && bs[i].used
      requires MergeTo(bs, i) == i + 2 && bs[i + 1].off in free && cut !in free
      modifies this`used, this`next, this`prev, this`nextFree, this`prevFree
      ensures Linked(CutAt(bs, i, cut), [cut] + Drop(free, bs[i + 1].off))
    {
      ReadItem(Phys(used, next, prev), bs, poolSize - RT_MEMHEAP_SIZE, i);
      MergeSplitIsCut(bs, i, cut);
      DropKeepsOut(free, next[o], cut);
      var n := next[o];
      Unlink(n, bs, free);
      ghost var cs := RemoveNext(o, bs, Drop(free, n), i);
      cs := InsertItem(o, cut, cs, Drop(free, n), i);
      PushFree(cut, cs, Drop(free, n));
    }

    /** Shrinking in place: the rest becomes a free block and takes in a free block behind it. */
    method ShrinkBlock(o: nat, need: word, ghost i: nat)
      requires Valid() && Planned(st, i, need, Cut) && st.blocks[i].off == o
      modifies this
      ensures Valid() && st == Shrink(old(st), i, need)
    {
      ShrinkInv(st, i, need);
      ShrinkFits(st, i, need);
      ShrinkBounds(st, i, need);
      CutIsNew(st, i, o + RT_MEMHEAP_SIZE + need);
      if MergeTo(st.blocks, i) == i + 2 { ListedOff(st, i + 1); }
      CutBlock(o, o + RT_MEMHEAP_SIZE + need, st.blocks, st.free, i);
      st := Shrink(st, i, need);
    }

    lemma ShrinkBounds(s: State, i: nat, need: word)
      requires Inv(s) && Planned(s, i, need, Cut)
      ensures 0 <= Shrink(s, i, need).avail < MODULUS
      ensures MergeTo(s.blocks, i) == i + 2 ==> s.avail >= Payload(s.blocks[i + 1])
    {
      ShrinkInv(s, i, need);
      AvailBounds(Shrink(s, i, need));
      if MergeTo(s.blocks, i) == i + 2 { OneOfSum(s.blocks, 0, s.pool - HDR, i + 1); }
    }

    /** A free payload is part of the sum of all free payloads. */
    lemma {:induction false} OneOfSum(bs: seq<Block>, lo: nat, hi: nat, j: nat)
      requires Tiles(bs, lo, hi, HDR) && j < |bs| && !bs[j].used
      ensures Sum(bs, false, HDR) >= Payload(bs[j])
      decreases j
    {
      SumTotal(bs[1..], bs[0].end, hi, HDR);
      if j > 0 { OneOfSum(bs[1..], bs[0].end, hi, j - 1); }
    }

    /** What is freed by cutting block `i` at `cut`, with a free block behind it. */
    ghost function FreedBy(bs: seq<Block>, i: nat, cut: nat): int
      requires i < |bs|
    {
      bs[MergeTo(bs, i) - 1].end - cut - HDR
    }

    method CutBlock(o: nat, cut: nat, ghost bs: seq<Block>, ghost free: seq<nat>, ghost i: nat)
      requires Linked(bs, free) && CutFits(bs, HDR, i, cut) && bs[i].off == o && bs[i].used
      requires cut + HDR + 4 <= bs[i].end && cut !in free
      requires MergeTo(bs, i) == i + 2 ==> bs[i + 1].off in free && availableSize >= Payload(bs[i + 1])
      requires availableSize - (if MergeTo(bs, i) > i + 1 then Payload(bs[i + 1]) else 0) + FreedBy(bs, i, cut) < MODULUS
      modifies this`used, this`next, this`prev, this`nextFree, this`prevFree, this`availableSize
      ensures Linked(CutAt(bs, i, cut), [cut] + if MergeTo(bs, i) > i + 1 then Drop(free, bs[i + 1].off) else free)
      ensures availableSize ==
        old(availableSize) - (if MergeTo(bs, i) > i + 1 then Payload(bs[i + 1]) else 0) + FreedBy(bs, i, cut)
    {
      SplitMergeIsCut(bs, i, cut);
      ghost var cs := InsertItem(o, cut, bs, free, i);
      ghost var rest := if MergeTo(bs, i) > i + 1 then Drop(free, bs[i + 1].off) else free;
      if i + 1 < |bs| { DropKeepsOut(free, bs[i + 1].off, cut); }
      cs := AbsorbNext(cut, cs, free, i + 1);
      PushFree(cut, cs, rest);
      CutAtIs(bs, i, cut);
      ReadItem(Phys(used, next, prev), cs, poolSize - RT_MEMHEAP_SIZE, i + 1);
      availableSize := availableSize + ItemSize(cut);
    }

    lemma CutAtIs(bs: seq<Block>, i: nat, cut: nat)
      requires i < |bs|
      ensures i + 1 < |CutAt(bs, i, cut)| && CutAt(bs, i, cut)[i + 1] == Block(cut, bs[MergeTo(bs, i) - 1].end, false)
    {
    }

    /** Merges the new free block `j`, at offset `cut`, with a free block behind it, whose bytes are taken out of the
        count and which leaves the free list. */
    method AbsorbNext(cut: nat, ghost bs: seq<Block>, ghost free: seq<nat>, ghost j: nat) returns (ghost cs: seq<Block>)
      requires Linked(bs, free) && j < |bs| && bs[j].off == cut
      requires j + 1 < |bs| && !bs[j + 1].used ==> bs[j + 1].off in free && availableSize >= Payload(bs[j + 1])
      modifies this`next, this`prev, this`nextFree, this`prevFree, this`availableSize
      ensures if j + 1 < |bs| && !bs[j + 1].used
        then cs == Merge(bs, j) && Linked(cs, Drop(free, bs[j + 1].off))
             && availableSize == old(availableSize) - Payload(bs[j + 1])
        else cs == bs && Linked(cs, free) && availableSize == old(availableSize)
    {
      cs := bs;
      ReadItem(Phys(used, next, prev), bs, poolSize - RT_MEMHEAP_SIZE, j);
      if !used[next[cut]] {
        var n := next[cut];
        ReadItem(Phys(used, next, prev), bs, poolSize - RT_MEMHEAP_SIZE, j + 1);
        availableSize := availableSize - ItemSize(n);
        cs := RemoveNext(cut, bs, free, j);
        Unlink(n, cs, free);
      }
    }

    /** rt_memheap_realloc */
    method Realloc(ptr: Option<nat>, newsize: word) returns (p: Option<nat>)
      requires Valid() && Legal(st, MemHeapSpec.Realloc(ptr, newsize))
      modifies this, mem
      ensures Valid() && (st, p) == Reallocate(old(st), ptr, newsize)
      ensures ptr.None? || newsize == 0 ==> mem[..] == old(mem[..])
      ensures ptr.Some? && newsize > 0 ==>
        Carried(old(mem[..]), mem[..], BlockAt(old(st), ptr.value), Live(old(st.blocks)), p, Need(newsize))
    {
      if newsize == 0 {
        Free(ptr);
        return None;
      }
      var need := Align4(newsize);
      if need < RT_MEMHEAP_MINIALLOC { need := RT_MEMHEAP_MINIALLOC; }
      NeedOk(newsize);
      if ptr.None? {
        p := Alloc(need);
      } else {
        p := ResizeLive(ptr.value, need, st, mem[..]);
      }
    }

    /** In place nothing is copied. */
    lemma InPlace(b: Block, need: word)
      requires Valid() && b in Live(st.blocks) && need % 4 == 0
      ensures Carried(mem[..], mem[..], b, Live(st.blocks), Some(b.off + RT_MEMHEAP_SIZE), need)
    {
      LivePayloads(st, b, b);
    }

    method ResizeLive(ptr: nat, need: word, ghost s: State, ghost was: seq<word>) returns (p: Option<nat>)
      requires Valid() && IsLive(st, ptr) && NoWrap(st, ptr, need) && Need(need) == need
      requires s == st && was == mem[..]
      modifies this, mem
      ensures Valid() && (st, p) == Resize(s, ptr, need)
      ensures Carried(was, mem[..], BlockAt(s, ptr), Live(s.blocks), p, need)
    {
      NeedOk(need);
      InPlace(BlockAt(st, ptr), need);
      var header := ptr - RT_MEMHEAP_SIZE;
      ghost var i := Index(st.blocks, header);
      ReadItem(Phys(used, next, prev), st.blocks, poolSize - RT_MEMHEAP_SIZE, i);
      var oldsize := ItemSize(header);
      if need > oldsize {
        p := Enlarge(header, need, oldsize, i, s, was);
        return;
      }
      if need + RT_MEMHEAP_SIZE + RT_MEMHEAP_MINIALLOC >= oldsize {
        return Some(ptr);
      }
      ShrinkBlock(header, need, i);
      return Some(ptr);
    }

    /** Grows block `i`, at offset `header`, in place if the block behind it is free and the test passes. */
    method TryExpand(header: nat, need: word, oldsize: nat, ghost i: nat) returns (ok: bool)
      requires Valid() && i < |st.blocks| && st.blocks[i].used && st.blocks[i].off == header
      requires need % 4 == 0 && need >= MINI && need > oldsize && oldsize == Payload(st.blocks[i])
      requires PlanFor(st, i, need) == Grow ==> need + MINI < MODULUS
      modifies this
      ensures Valid() && ok == (PlanFor(old(st), i, need) == Grow)
      ensures st == if ok then Expand(old(st), i, need) else old(st)
    {
      ok := false;
      ReadItem(Phys(used, next, prev), st.blocks, poolSize - RT_MEMHEAP_SIZE, i);
      var n := next[header];
      if !used[n] {
        ReadItem(Phys(used, next, prev), st.blocks, poolSize - RT_MEMHEAP_SIZE, i + 1);
        var nextsize := ItemSize(n);
        if Wrap(nextsize + oldsize) > Wrap(need + RT_MEMHEAP_MINIALLOC) {
          ok := true;
          GrowBlock(header, need, oldsize, i);
        }
      }
    }

    /** The part of rt_memheap_realloc for a larger size. */
    method Enlarge(header: nat, need: word, oldsize: nat, ghost i: nat, ghost s: State, ghost was: seq<word>) returns (p: Option<nat>)
      requires Valid() && i < |st.blocks| && st.blocks[i].used && st.blocks[i].off == header
      requires i == Index(st.blocks, header) && NoWrap(st, header + HDR, need) && Need(need) == need
      requires oldsize == Payload(st.blocks[i]) && need > oldsize
      requires s == st && was == mem[..]
      modifies this, mem
      ensures Valid() && (st, p) == Resize(s, header + HDR, need)
      ensures Carried(was, mem[..], s.blocks[i], Live(s.blocks), p, need)
    {
      ghost var b := st.blocks[i];
      NeedOk(need);
      InPlace(b, need);
      ResizeEnlarges(st, i, need);
      var ok := TryExpand(header, need, oldsize, i);
      if ok {
        return Some(header + RT_MEMHEAP_SIZE);
      }
      p := Relocate(header + RT_MEMHEAP_SIZE, need, oldsize, b, s, was);
    }

    lemma CopyCarries(was: seq<word>, now: seq<word>, live: set<Block>, b: Block, dst: nat, len: nat)
      requires PayloadsKept(was, now, live) && SameBytes(now, dst, was, b.off + HDR, len)
      ensures PayloadsKept(was, now, live - {b}) && SameBytes(now, dst, was, b.off + HDR, len)
    {
    }

    lemma RelocatedIs(s: State, p: nat, need: word, mid: State, q: Option<nat>, t: State)
      requires (mid, q) == Allocate(s, need) && t == if q.None? then mid else FreeAt(mid, p)
      requires q.None? ==> mid == s
      ensures (t, q) == Relocated(s, p, need)
    {
    }

    lemma ResizeEnlarges(s: State, i: nat, need: word)
      requires i < |s.blocks| && i == Index(s.blocks, s.blocks[i].off) && need > Payload(s.blocks[i])
      ensures var p := s.blocks[i].off + HDR;
        Resize(s, p, need) == if PlanFor(s, i, need) == Grow then (Expand(s, i, need), Some(p)) else Relocated(s, p, need)
    {
    }

    /** A new block, a copy of the smaller of the two sizes, and the old block is freed. */
    method Relocate(ptr: nat, need: word, oldsize: nat, ghost b: Block, ghost s: State, ghost was: seq<word>) returns (p: Option<nat>)
      requires Valid() && b in Live(st.blocks) && b.off + HDR == ptr && oldsize == Payload(b) && Need(need) == need
      requires s == st && was == mem[..]
      modifies this, mem
      ensures Valid() && (st, p) == Relocated(s, ptr, need)
      ensures Carried(was, mem[..], b, Live(s.blocks), p, need)
    {
      ghost var n := Beside(st, b, need);
      assert b.off + HDR == ptr && WholeWords(b, need) by { SmallerOfFours(st, b, need); }
      p := Alloc(need);
      ghost var mid := st;
      if p.Some? {
        CarryOver(p.value, ptr, need, oldsize, n, b, Live(s.blocks));
        Free(Some(ptr));
      }
      assert (st, p) == Relocated(s, ptr, need) by { RelocatedIs(s, ptr, need, mid, p, st); }
    }

    /** The smaller of the two sizes is in whole words, and within both. */
    ghost predicate WholeWords(b: Block, need: nat) {
      var len := Smaller(Payload(b), need); len % 4 == 0 && 0 <= len <= Payload(b) && len <= need
    }

    /** The copy from the old block to the new one, `n`. */
    method CarryOver(dst: nat, src: nat, need: word, oldsize: nat, ghost n: Block, ghost b: Block, ghost live: set<Block>)
      requires Valid() && n in Live(st.blocks) && b in Live(st.blocks) && n != b && Live(st.blocks) - {n} == live
      requires dst == n.off + HDR && src == b.off + HDR && oldsize == Payload(b)
      requires WholeWords(b, need) && need <= Payload(n)
      modifies mem
      ensures Valid() && Carried(old(mem[..]), mem[..], b, live, Some(dst), need)
    {
      var len := Smaller(oldsize, need);
      CopyPayload(dst, src, len, n, b);
      CopyCarries(old(mem[..]), mem[..], live, b, dst, len);
    }

    /** rt_memcpy of `len` bytes from the payload of live block `b` to that of live block `n`. */
    method CopyPayload(dst: nat, src: nat, len: nat, ghost n: Block, ghost b: Block)
      requires Valid() && n in Live(st.blocks) && b in Live(st.blocks) && n != b
      requires dst == n.off + HDR && src == b.off + HDR
      requires len % 4 == 0 && len <= Payload(n) && len <= Payload(b)
      modifies mem
      ensures Valid() && PayloadsKept(old(mem[..]), mem[..], Live(st.blocks) - {n})
      ensures SameBytes(mem[..], dst, old(mem[..]), src, len)
    {
      LivePayloads(st, n, b);
      LivePayloads(st, b, n);
      CopyWords(mem, dst / 4, src / 4, len / 4);
      PayloadWrite(st, old(mem[..]), mem[..], n);
    }

    /** A client writes a word of a payload it holds. */
    method Store(p: nat, k: nat, v: word)
      requires Valid() && IsLive(st, p) && p / 4 + k < BlockAt(st, p).end / 4
      modifies mem
      ensures Valid() && p / 4 + k < mem.Length && mem[p / 4 + k] == v
      ensures PayloadsKept(old(mem[..]), mem[..], Live(st.blocks) - {BlockAt(st, p)})
    {
      LivePayloads(st, BlockAt(st, p), BlockAt(st, p));
      mem[p / 4 + k] := v;
      PayloadWrite(st, old(mem[..]), mem[..], BlockAt(st, p));
    }

    /** The new block of a move, `n`, lies beside the old one. */
    lemma Beside(s: State, b: Block, need: word) returns (n: Block)
      requires Inv(s) && b in Live(s.blocks) && Need(need) == need
      ensures var (t, p) := Allocate(s, need);
        && Inv(t) && IsLive(t, b.off + HDR)
        && if p.None? then t == s
           else n in Live(t.blocks) && b in Live(t.blocks) && n != b && Live(t.blocks) - {n} == Live(s.blocks)
                && n.off + HDR == p.value && need <= Payload(n)
    {
      AllocateInv(s, need);
      n := AllocateOutcome(s, need);
      LiveFound(Allocate(s, need).0, b);
    }

    /** The smaller of two sizes in whole words is one. */
    lemma SmallerOfFours(s: State, b: Block, need: word)
      requires Layout(s) && b in Live(s.blocks) && Need(need) == need
      ensures WholeWords(b, need)
    {
      LiveFound(s, b);
      TilesCut(s.blocks, 0, s.pool - HDR, HDR, Index(s.blocks, b.off));
    }
  }
}
