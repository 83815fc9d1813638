/** rt_malloc, rt_free and rt_realloc of mem.c on an in-place heap. Every method is proved against HeapSpec:
    it makes exactly the step of the specification and leaves all other live payloads as they were. */
module Heap {
  import opened Words
  import opened Blocks
  import opened HeapSpec
  import opened HeapMemory
  import opened Payloads

  const SIZEOF_STRUCT_MEM := HeapSpec.HDR
  const MIN_SIZE_ALIGNED := HeapSpec.MIN

  /** What a realloc of block `b` to `need` bytes makes of memory `was`: the front of the old payload is in the new one,
      and all other live payloads are what they were; on NULL everything is. */
  ghost predicate Carried(was: seq<word>, now: seq<word>, b: Block, live: set<Block>, q: Option<int>, need: nat) {
    && PayloadsKept(was, now, live - {b})
    && if q.None? then now == was
       else SameBytes(now, q.value, was, b.off + SIZEOF_STRUCT_MEM, Smaller(Payload(b), need))
  }

  /** The smaller of two sizes in whole words is one. */
  lemma SmallerOfFours(b: Block, need: nat)
    requires WellSized(b, SIZEOF_STRUCT_MEM) && need % 4 == 0
    ensures var len := Smaller(Payload(b), need); len % 4 == 0 && 0 <= len <= Payload(b) && len <= need
  {
  }

  /** A new block, a copy into it, and the old block `b` is freed. */
  lemma MoveCarries(was: seq<word>, mid: seq<word>, now: seq<word>, live: set<Block>, b: Block, dst: int, len: nat)
    requires PayloadsKept(was, mid, live) && PayloadsKept(mid, now, live - {b}) && b in live
    requires WellSized(b, SIZEOF_STRUCT_MEM) && b.end <= 4 * |was| && len % 4 == 0 && len <= Payload(b)
    requires SameBytes(now, dst, mid, b.off + SIZEOF_STRUCT_MEM, len)
    ensures Carried(was, now, b, live, Some(dst), len)
  {
    KeptTwice(was, mid, now, live, live - {b}, live - {b});
    SameBytesKept(was, mid, live, b, len);
  }

  /** A block that already has the size asked for stays as it is. */
  lemma KeepsAll(s: State, m: seq<word>, b: Block, need: word)
    requires Layout(s) && b in Live(s.blocks) && 4 * |m| >= s.size + SIZEOF_STRUCT_MEM
    requires need % 4 == 0 && need > 0 && Payload(b) == need
    ensures Resize(s, b.off + SIZEOF_STRUCT_MEM, need) == (s, Some(b.off + SIZEOF_STRUCT_MEM))
    ensures Carried(m, m, b, Live(s.blocks), Some(b.off + SIZEOF_STRUCT_MEM), need)
  {
    assert Carried(m, m, b, Live(s.blocks), Some(b.off + SIZEOF_STRUCT_MEM), need) by { BlockAligned(s, b); }
    assert Resize(s, b.off + SIZEOF_STRUCT_MEM, need) == (s, Some(b.off + SIZEOF_STRUCT_MEM)) by { ResizeCases(s, b, need); }
  }

  class SmallMem {
    const size: nat           // mem_size_aligned
    const mem: array<word>    // the bytes from heap_ptr, four to a word
    var lfree: nat            // offset of the lowest free block
    var usedMem: word
    var maxMem: word
    ghost var st: State       // the block layout these fields represent

    ghost predicate Valid()
      reads this, mem
    {
      && Inv(st)
      && Encodes(mem[..], st.blocks, size)
      && st.size == size && st.lfree == lfree && st.usedMem == usedMem && st.maxMem == maxMem
    }

    /** rt_system_heap_init on a region whose aligned bounds leave `size` bytes between the two headers. With less than
        12 bytes the two headers are written all the same. */
    constructor (size: nat)
      requires size % 4 == 0 && size + 2 * SIZEOF_STRUCT_MEM < MODULUS
      ensures fresh(mem) && st == Init(size) && this.size == size
      ensures Header(mem[..], 0, false, size + SIZEOF_STRUCT_MEM, 0)
      ensures Header(mem[..], size + SIZEOF_STRUCT_MEM, true, size + SIZEOF_STRUCT_MEM, size + SIZEOF_STRUCT_MEM)
      ensures GoodSize(size) ==> Valid()
    {
      this.size := size;
      var m := new word[(size + 2 * SIZEOF_STRUCT_MEM) / 4](_ => 0);
      this.mem := m;
      lfree, usedMem, maxMem := 0, 0, 0;
      st := Init(size);
      new;
      var end := (size + SIZEOF_STRUCT_MEM) / 4;
      mem[0], mem[1], mem[2] := Tag(false), size + SIZEOF_STRUCT_MEM, 0;
      mem[end], mem[end + 1], mem[end + 2] := Tag(true), size + SIZEOF_STRUCT_MEM, size + SIZEOF_STRUCT_MEM;
      if GoodSize(size) {
        InitInv(size);
        InitRewrites(mem[..], size);
      }
    }

    /** `next` of the header at offset `o`. */
    function Next(o: nat): word
      requires o / 4 + 1 < mem.Length
      reads mem
    {
      mem[o / 4 + 1]
    }

    /** Whether the `used` half of the first header word is non-zero. */
    predicate Used(o: nat)
      requires o / 4 < mem.Length
      reads mem
    {
      mem[o / 4] / 0x1_0000 != 0
    }

    /** Offset of block `i`, or of heap_end behind the last block. */
    ghost function At(bs: seq<Block>, i: nat): nat
      requires i <= |bs|
    {
      if i < |bs| then bs[i].off else size + SIZEOF_STRUCT_MEM
    }

    /** The header fields that a walk over the blocks reads. */
    lemma ReadHeader(bs: seq<Block>, i: nat)
      requires Encodes(mem[..], bs, size) && i <= |bs|
      ensures var o := At(bs, i); o % 4 == 0 && o / 4 + 2 < mem.Length && o <= size + SIZEOF_STRUCT_MEM
      ensures i < |bs| ==> var o := bs[i].off;
          && o / 4 + 2 < mem.Length && Used(o) == bs[i].used
          && Next(o) == bs[i].end == At(bs, i + 1)
          && mem[o / 4 + 2] == PrevOff(bs, i)
          && o + SIZEOF_STRUCT_MEM + 4 <= Next(o) <= size + SIZEOF_STRUCT_MEM
      ensures i == |bs| ==> Used(size + SIZEOF_STRUCT_MEM) && Next(size + SIZEOF_STRUCT_MEM) == size + SIZEOF_STRUCT_MEM
    {
      TilesCut(bs, 0, size + SIZEOF_STRUCT_MEM, SIZEOF_STRUCT_MEM, i);
      HeadersCut(mem[..], bs, i);
      if i < |bs| { TilesCut(bs, 0, size + SIZEOF_STRUCT_MEM, SIZEOF_STRUCT_MEM, i + 1); }
    }

    /** Links free block `i`, at offset `p`, over its free successor at offset `q`. */
    method Absorb(p: nat, q: nat, ghost bs: seq<Block>, ghost i: nat) returns (ghost cs: seq<Block>)
      requires Encodes(mem[..], bs, size)
      requires i + 1 < |bs| && bs[i].off == p && bs[i + 1].off == q && !bs[i].used && !bs[i + 1].used
      modifies mem
      ensures cs == Merge(bs, i) && Encodes(mem[..], cs, size)
      ensures PayloadsKept(old(mem[..]), mem[..], Live(bs)) && Live(cs) == Live(bs)
    {
      cs := Merge(bs, i);
      ReadHeader(bs, i);
      ReadHeader(bs, i + 1);
      ReadHeader(bs, i + 2);
      mem[p / 4 + 1] := Next(q);
      mem[Next(q) / 4 + 2] := p;
      MergeRewrites(old(mem[..]), mem[..], bs, size, i);
    }

    /** The forward half of plug_holes: free block `i`, at offset `o`, takes in a free successor. */
    method PlugForward(o: nat, ghost bs: seq<Block>, ghost i: nat) returns (ghost cs: seq<Block>)
      requires Encodes(mem[..], bs, size)
      requires i < |bs| && bs[i].off == o && !bs[i].used
      modifies mem, this`lfree
      ensures Encodes(mem[..], cs, size) && PayloadsKept(old(mem[..]), mem[..], Live(bs)) && Live(cs) == Live(bs)
      ensures if MergeTo(bs, i) == i + 2
        then cs == Merge(bs, i) && lfree == if old(lfree) == bs[i].end then o else old(lfree)
        else cs == bs && lfree == old(lfree)
    {
      cs := bs;
      ReadHeader(bs, i);
      ReadHeader(bs, i + 1);
      var nmem := Next(o);
      if o != nmem && !Used(nmem) && nmem != size + SIZEOF_STRUCT_MEM {
        if lfree == nmem { lfree := o; }
        cs := Absorb(o, nmem, bs, i);
      }
    }

    /** The backward half: free block `i` is taken in by a free predecessor. */
    method PlugBackward(o: nat, ghost bs: seq<Block>, ghost i: nat) returns (ghost cs: seq<Block>)
      requires Encodes(mem[..], bs, size)
      requires i < |bs| && bs[i].off == o && !bs[i].used
      modifies mem, this`lfree
      ensures Encodes(mem[..], cs, size) && PayloadsKept(old(mem[..]), mem[..], Live(bs)) && Live(cs) == Live(bs)
      ensures if MergeFrom(bs, i) < i
        then cs == Merge(bs, i - 1) && lfree == if old(lfree) == o then bs[i - 1].off else old(lfree)
        else cs == bs && lfree == old(lfree)
    {
      cs := bs;
      ReadHeader(bs, i);
      var pmem := mem[o / 4 + 2];
      if i > 0 { ReadHeader(bs, i - 1); }
      if pmem != o && !Used(pmem) {
        if lfree == o { lfree := pmem; }
        cs := Absorb(pmem, o, bs, i - 1);
      }
    }

    /** plug_holes on free block `i`, which lies at offset `o`. */
    method PlugHoles(o: nat, ghost bs: seq<Block>, ghost i: nat) returns (ghost cs: seq<Block>)
      requires Encodes(mem[..], bs, size)
      requires i < |bs| && bs[i].off == o && !bs[i].used
      modifies mem, this`lfree
      ensures cs == Join(bs, i) && Encodes(mem[..], cs, size)
      ensures PayloadsKept(old(mem[..]), mem[..], Live(bs))
      ensures var l := if MergeTo(bs, i) == i + 2 && old(lfree) == bs[i].end then o else old(lfree);
        lfree == if MergeFrom(bs, i) < i && l == o then bs[i - 1].off else l
    {
      ghost var ds := PlugForward(o, bs, i);
      label half:
      cs := PlugBackward(o, ds, i);
      JoinIsMerges(bs, i);
    }
  
    lemma BehindIsEnd(bs: seq<Block>, i: nat)
      requires Encodes(mem[..], bs, size) && i < |bs|
      ensures bs[i].off % 4 == 0 && (bs[i].end == size + SIZEOF_STRUCT_MEM <==> i + 1 == |bs|)
    {
      TilesCut(bs, 0, size + SIZEOF_STRUCT_MEM, SIZEOF_STRUCT_MEM, i + 1);
      TilesCut(bs, 0, size + SIZEOF_STRUCT_MEM, SIZEOF_STRUCT_MEM, i);
    }

    /** Writes a header at `cut` inside block `i`, at offset `o`, and links it in. */
    method SplitBlock(o: nat, cut: nat, ghost bs: seq<Block>, ghost i: nat) returns (ghost cs: seq<Block>)
      requires Encodes(mem[..], bs, size) && i < |bs| && bs[i].off == o
      requires cut % 4 == 0 && o + SIZEOF_STRUCT_MEM + 4 <= cut && cut + SIZEOF_STRUCT_MEM + 4 <= bs[i].end
      modifies mem
      ensures cs == Split(bs, i, cut) && Encodes(mem[..], cs, size)
      ensures PayloadsKept(old(mem[..]), mem[..], Live(bs) - {bs[i]} + {Block(o, cut, true)})
    {
      cs := Split(bs, i, cut);
      ReadHeader(bs, i);
      ReadHeader(bs, i + 1);
      var next := Next(o);
      BehindIsEnd(bs, i);
      mem[cut / 4], mem[cut / 4 + 1], mem[cut / 4 + 2] := Tag(false), next, o;
      mem[o / 4 + 1] := cut;
      if next != size + SIZEOF_STRUCT_MEM {
        mem[next / 4 + 2] := cut;
      }
      assert mem[..] == SplitWords(old(mem[..]), bs[i], cut, i + 1 == |bs|);
      SplitRewrites(old(mem[..]), mem[..], bs, size, i, cut);
    }

    /** Sets the magic and the used flag of block `i`, at offset `o`. */
    method SetUsed(o: nat, used: bool, ghost bs: seq<Block>, ghost i: nat) returns (ghost cs: seq<Block>)
      requires Encodes(mem[..], bs, size) && i < |bs| && bs[i].off == o
      modifies mem
      ensures cs == Flag(bs, i, used) && Encodes(mem[..], cs, size)
      ensures PayloadsKept(old(mem[..]), mem[..], Live(bs) + {bs[i]})
    {
      ReadHeader(bs, i);
      mem[o / 4] := Tag(used);
      cs := Flag(bs, i, used);
      FlagRewrites(old(mem[..]), mem[..], bs, size, i, used);
    }

    /** Moves `lfree` up to the first free block from block `i` on. */
    method AdvanceLfree(ghost bs: seq<Block>, ghost i: nat)
      requires Encodes(mem[..], bs, size) && i < |bs| && bs[i].off == lfree
      modifies this`lfree
      ensures lfree == NextFree(bs, i, size)
    {
      ghost var k := i;
      ReadHeader(bs, k);
      while Used(lfree) && lfree != size + SIZEOF_STRUCT_MEM
        invariant i <= k <= |bs| && lfree == At(bs, k) && lfree / 4 + 1 < mem.Length
        invariant NextFree(bs, i, size) == NextFree(bs, k, size)
        decreases |bs| - k
      {
        ReadHeader(bs, k);
        lfree := Next(lfree);
        k := k + 1;
        ReadHeader(bs, k);
      }
      ReadHeader(bs, k);
    }

    /** The split of a free block that is handed out. */
    method SplitOff(ptr: nat, need: nat, ghost i: nat) returns (ghost cs: seq<Block>)
      requires Encodes(mem[..], st.blocks, size) && st.size == size && Layout(st)
      requires CanTake(st, i, need) && st.blocks[i].off == ptr && Splits(st.blocks[i], need)
      modifies mem
      ensures cs == TakeBlocks(st.blocks, i, need) && Encodes(mem[..], cs, size)
      ensures PayloadsKept(old(mem[..]), mem[..], Live(st.blocks))
    {
      SplitTakes(st, i, need);
      cs := SplitBlock(ptr, ptr + SIZEOF_STRUCT_MEM + need, st.blocks, i);
      cs := SetUsed(ptr, true, cs, i);
    }

    /** Splits free block `i`, at offset `ptr`, when the rest is large enough, and marks the block used;
        `len` is what used_mem grows by. */
    method CarveBlock(ptr: nat, need: nat, ghost i: nat) returns (len: nat, ghost cs: seq<Block>)
      requires Encodes(mem[..], st.blocks, size) && st.size == size && Layout(st)
      requires CanTake(st, i, need) && st.blocks[i].off == ptr
      modifies mem
      ensures cs == TakeBlocks(st.blocks, i, need) && Encodes(mem[..], cs, size)
      ensures len == Taken(st.blocks[i], need).end - ptr
      ensures PayloadsKept(old(mem[..]), mem[..], Live(st.blocks))
    {
      ReadHeader(st.blocks, i);
      var room := Next(ptr) - (ptr + SIZEOF_STRUCT_MEM);
      if room >= need + SIZEOF_STRUCT_MEM + MIN_SIZE_ALIGNED {
        cs := SplitOff(ptr, need, i);
        len := need + SIZEOF_STRUCT_MEM;
      } else {
        cs := SetUsed(ptr, true, st.blocks, i);
        len := room + SIZEOF_STRUCT_MEM;
      }
    }

    /** Hands out free block `i`, at offset `ptr`, for `need` bytes. */
    method TakeBlock(ptr: nat, need: nat, ghost i: nat)
      requires Valid() && CanTake(st, i, need) && st.blocks[i].off == ptr
      modifies this, mem
      ensures Valid() && st == Take(old(st), i, need)
      ensures PayloadsKept(old(mem[..]), mem[..], Live(old(st.blocks)))
    {
      TakeLayout(st, i, need);
      TakeInv(st, i, need);
      UsedBound(Take(st, i, need));
      var len; ghost var cs;
      len, cs := CarveBlock(ptr, need, i);
      usedMem := usedMem + len;
      if maxMem < usedMem { maxMem := usedMem; }
      if ptr == lfree { AdvanceLfree(cs, i); }
      st := Take(st, i, need);
    }
  
    /** The search loop of rt_malloc. */
    method FindFit(need: nat) returns (ptr: nat, found: bool, ghost i: nat)
      requires Valid() && need >= MIN_SIZE_ALIGNED
      ensures i == FirstFit(st.blocks, Index(st.blocks, lfree), need, size)
      ensures found <==> i < |st.blocks|
      ensures found ==> ptr == st.blocks[i].off
    {
      ptr := lfree;
      i := Index(st.blocks, lfree);
      found := false;
      LfreeIndex(st);
      while ptr < size - need
        invariant 0 <= i <= |st.blocks| && ptr == At(st.blocks, i)
        invariant FirstFit(st.blocks, i, need, size) == FirstFit(st.blocks, Index(st.blocks, lfree), need, size)
        decreases |st.blocks| - i
      {
        ReadHeader(st.blocks, i);
        if !Used(ptr) && Next(ptr) - (ptr + SIZEOF_STRUCT_MEM) >= need {
          found := true;
          return;
        }
        ptr := Next(ptr);
        i := i + 1;
      }
      NoFitBeyond(st, i, need);
      i := |st.blocks|;
    }

    /** rt_malloc: the payload offset of a new block, or NULL. */
    method Malloc(req: word) returns (p: Option<nat>)
      requires Valid()
      modifies this, mem
      ensures Valid() && (st, p) == Allocate(old(st), req)
      ensures PayloadsKept(old(mem[..]), mem[..], Live(old(st.blocks)))
      ensures p.None? ==> mem[..] == old(mem[..])
    {
      AllocateIs(st, req);
      if req == 0 {
        return None;
      }
      var need := Align4(req);
      if need > size {
        return None;
      }
      if need < MIN_SIZE_ALIGNED { need := MIN_SIZE_ALIGNED; }
      var ptr, found; ghost var i;
      ptr, found, i := FindFit(need);
      if found {
        TakeBlock(ptr, need, i);
        return Some(ptr + SIZEOF_STRUCT_MEM);
      }
      return None;
    }

    /** Marks block `i`, at offset `o`, free and merges it with its neighbours. */
    method Unuse(o: nat, ghost i: nat)
      requires Valid() && i < |st.blocks| && st.blocks[i].used && st.blocks[i].off == o
      modifies mem, this`lfree
      ensures Encodes(mem[..], Release(st, i).blocks, size) && lfree == Release(st, i).lfree
      ensures PayloadsKept(old(mem[..]), mem[..], Live(st.blocks) - {st.blocks[i]})
    {
      ReleaseLfreeIs(st, i);
      FlagLive(st.blocks, size + SIZEOF_STRUCT_MEM, SIZEOF_STRUCT_MEM, i);
      FlagJoinIsJoin(st.blocks, i);
      ghost var cs := SetUsed(o, false, st.blocks, i);
      if o < lfree { lfree := o; }
      cs := PlugHoles(o, cs, i);
    }

    /** Frees block `i`, at offset `o`. */
    method ReleaseBlock(o: nat, ghost i: nat)
      requires Valid() && i < |st.blocks| && st.blocks[i].used && st.blocks[i].off == o
      modifies this, mem
      ensures Valid() && st == Release(old(st), i)
      ensures PayloadsKept(old(mem[..]), mem[..], Live(old(st.blocks)) - {old(st.blocks[i])})
    {
      ReleaseBounds(st, i);
      ReadHeader(st.blocks, i);
      var len := Next(o) - o;
      Unuse(o, i);
      usedMem := usedMem - len;
      st := Release(st, i);
    }

    /** rt_free of NULL or of a live pointer. */
    method Free(rmem: Option<nat>)
      requires Valid() && (rmem.Some? ==> IsLive(st, rmem.value))
      modifies this, mem
      ensures Valid() && st == if rmem.None? then old(st) else FreeAt(old(st), rmem.value)
      ensures PayloadsKept(old(mem[..]), mem[..], Live(st.blocks))
    {
      if rmem.None? {
        return;
      }
      ghost var i := Index(st.blocks, rmem.value - SIZEOF_STRUCT_MEM);
      JoinLive(st.blocks, size + SIZEOF_STRUCT_MEM, SIZEOF_STRUCT_MEM, i);
      ReleaseBlock(rmem.value - SIZEOF_STRUCT_MEM, i);
    }
  
    /** Shrinks block `i`, at offset `o`, to a payload of `need` bytes in place. */
    method ShrinkBlock(o: nat, need: nat, ghost i: nat)
      requires Valid() && CanShrink(st, i, need) && st.blocks[i].off == o
      modifies this, mem
      ensures Valid() && st == Shrink(old(st), i, need)
      ensures PayloadsKept(old(mem[..]), mem[..],
                Live(old(st.blocks)) - {old(st.blocks[i])} + {Block(o, o + SIZEOF_STRUCT_MEM + need, true)})
    {
      ShrinkBounds(st, i, need);
      ReadHeader(st.blocks, i);
      var len := Next(o) - o - SIZEOF_STRUCT_MEM;
      CutBlock(o, need, i);
      usedMem := usedMem - (len - need);
      st := Shrink(st, i, need);
    }

    /** The memory part of shrinking: the rest becomes a free block and joins a free successor. */
    method CutBlock(o: nat, need: nat, ghost i: nat)
      requires Valid() && CanShrink(st, i, need) && st.blocks[i].off == o
      modifies mem, this`lfree
      ensures Encodes(mem[..], Shrink(st, i, need).blocks, size) && lfree == Shrink(st, i, need).lfree
      ensures PayloadsKept(old(mem[..]), mem[..],
                Live(st.blocks) - {st.blocks[i]} + {Block(o, o + SIZEOF_STRUCT_MEM + need, true)})
    {
      ghost var (bs, cut) := (st.blocks, o + SIZEOF_STRUCT_MEM + need);
      ShrinkFits(st, i, need);
      SplitJoinIsCut(bs, i, cut);
      SplitUsedLive(bs, size + SIZEOF_STRUCT_MEM, i, cut);
      LfreeNotCut(st, i, cut);
      ghost var cs := SplitBlock(o, o + SIZEOF_STRUCT_MEM + need, bs, i);
      cs := PlugHoles(o + SIZEOF_STRUCT_MEM + need, cs, i + 1);
    }

    /** rt_memcpy of `len` bytes from the payload of live block `b` to that of live block `n`. */
    method CopyPayload(dst: nat, src: nat, len: nat, ghost n: Block, ghost b: Block)
      requires Valid() && n in Live(st.blocks) && b in Live(st.blocks) && n != b
      requires dst == n.off + SIZEOF_STRUCT_MEM && src == b.off + SIZEOF_STRUCT_MEM
      requires len % 4 == 0 && len <= Payload(n) && len <= Payload(b)
      modifies mem
      ensures Valid() && PayloadsKept(old(mem[..]), mem[..], Live(st.blocks) - {n})
      ensures SameBytes(mem[..], dst, old(mem[..]), src, len)
    {
      CopyBounds(st, n, b, len);
      CopyWords(mem, dst / 4, src / 4, len / 4);
      PayloadWrite(old(mem[..]), mem[..], st.blocks, size, Index(st.blocks, n.off));
    }

    /** The last resort of rt_realloc for live block `b`, at offset `o`: a new block, a copy of the smaller of
        the two sizes, and the old block is freed. */
    method MoveBlock(o: nat, need: word, ghost b: Block, ghost s: State, ghost was: seq<word>)
      returns (q: Option<int>, ghost mid: State)
      requires Valid() && b in Live(st.blocks) && b.off == o && need % 4 == 0 && need > 0
      requires s == st && was == mem[..]
      modifies this, mem
      ensures Valid() && (mid, q) == Allocate(s, need)
      ensures st == if q.None? then mid else FreeAt(mid, o + SIZEOF_STRUCT_MEM)
      ensures Carried(was, mem[..], b, Live(s.blocks), q, need)
    {
      assert WellSized(b, SIZEOF_STRUCT_MEM) && b.end <= 4 * |was| by { BlockAligned(st, b); }
      var size := PayloadSize(o, b);
      var len := Smaller(size, need);
      assert len % 4 == 0 && 0 <= len <= Payload(b) && len <= need by { SmallerOfFours(b, need); }
      ghost var n;
      q, n := MallocBeside(o, need, b, s, was);
      mid := st;
      if q.Some? {
        ghost var m := mem[..];
        MoveInto(q.value, o, len, n, b, st, m, Live(s.blocks), was);
      }
    }

    /** The payload size of live block `b`, read from its header at offset `o`. */
    method PayloadSize(o: nat, ghost b: Block) returns (len: nat)
      requires Valid() && b in Live(st.blocks) && b.off == o
      ensures len == Payload(b)
    {
      LiveFound(st, b);
      ReadHeader(st.blocks, Index(st.blocks, o));
      len := Next(o) - o - SIZEOF_STRUCT_MEM;
    }

    /** The new block of a move. */
    method MallocBeside(o: nat, need: word, ghost b: Block, ghost s: State, ghost was: seq<word>)
      returns (q: Option<nat>, ghost n: Block)
      requires Valid() && b in Live(st.blocks) && b.off == o && need % 4 == 0 && need > 0
      requires s == st && was == mem[..]
      modifies this, mem
      ensures Valid() && (st, q) == Allocate(s, need) && PayloadsKept(was, mem[..], Live(s.blocks))
      ensures if q.None? then mem[..] == was
        else n !in Live(s.blocks) && Live(st.blocks) == Live(s.blocks) + {n}
             && n.off + SIZEOF_STRUCT_MEM == q.value && need <= Payload(n)
    {
      n := AllocateLive(st, need);
      NeedRoom(need);
      q := Malloc(need);
    }

    /** The copy and the free of a move; `live` were the live blocks, and `first` the memory, before block `n` was
        there. */
    method MoveInto(dst: nat, o: nat, len: nat, ghost n: Block, ghost b: Block, ghost s: State, ghost was: seq<word>,
                    ghost live: set<Block>, ghost first: seq<word>)
      requires Valid() && Live(st.blocks) == live + {n} && b in live && n !in live
      requires dst == n.off + SIZEOF_STRUCT_MEM && b.off == o && WellSized(b, SIZEOF_STRUCT_MEM) && b.end <= 4 * |first|
      requires len % 4 == 0 && len <= Payload(n) && len <= Payload(b)
      requires s == st && was == mem[..] && PayloadsKept(first, was, live)
      modifies this, mem
      ensures Valid() && st == FreeAt(s, o + SIZEOF_STRUCT_MEM)
      ensures Carried(first, mem[..], b, live, Some(dst), len)
    {
      CopyPayload(dst, o + SIZEOF_STRUCT_MEM, len, n, b);
      ghost var m := mem[..];
      FreeCopied(o, n, b, len, s, m);
      assert PayloadsKept(was, mem[..], live - {b}) by {
        KeptTwice(was, m, mem[..], Live(s.blocks) - {n}, Live(s.blocks) - {b}, live - {b});
      }
      MoveCarries(first, was, mem[..], live, b, dst, len);
    }

    /** Frees the old block of a move; the new one keeps its bytes. */
    method FreeCopied(o: nat, ghost n: Block, ghost b: Block, ghost len: nat, ghost s: State, ghost was: seq<word>)
      requires Valid() && n in Live(st.blocks) && b in Live(st.blocks) && n != b && b.off == o
      requires len % 4 == 0 && len <= Payload(n)
      requires s == st && was == mem[..]
      modifies this, mem
      ensures Valid() && st == FreeAt(s, o + SIZEOF_STRUCT_MEM)
      ensures PayloadsKept(was, mem[..], Live(s.blocks) - {b})
      ensures SameBytes(mem[..], n.off + SIZEOF_STRUCT_MEM, was, n.off + SIZEOF_STRUCT_MEM, len)
    {
      LiveFound(st, b);
      FreeLive(st, b);
      BlockAligned(st, n);
      Free(Some(o + SIZEOF_STRUCT_MEM));
      SameBytesKept(was, mem[..], Live(s.blocks) - {b}, n, len);
    }

    /** Frees live block `b`. */
    method FreeOne(p: nat, ghost b: Block)
      requires Valid() && b in Live(st.blocks) && b.off + SIZEOF_STRUCT_MEM == p
      modifies this, mem
      ensures Valid() && st == FreeAt(old(st), p) && PayloadsKept(old(mem[..]), mem[..], Live(old(st.blocks)) - {b})
    {
      LiveFound(st, b);
      FreeLive(st, b);
      Free(Some(p));
    }

    /** rt_realloc. The pointer must be NULL, live, or fail the address test, in which case it comes back as it is. */
    method Realloc(rmem: Option<int>, newsize: word) returns (q: Option<int>)
      requires Valid() && Legal(st, Op.Realloc(rmem, newsize))
      modifies this, mem
      ensures Valid() && (st, q) == Reallocate(old(st), rmem, newsize)
      ensures rmem.None? ==> PayloadsKept(old(mem[..]), mem[..], Live(old(st.blocks)))
      ensures rmem.Some? && IsLive(old(st), rmem.value) ==>
        var b := old(st.blocks)[Index(old(st.blocks), rmem.value - SIZEOF_STRUCT_MEM)];
        && PayloadsKept(old(mem[..]), mem[..], Live(old(st.blocks)) - {b})
        && (q.Some? ==> SameBytes(mem[..], q.value, old(mem[..]), rmem.value, Smaller(Payload(b), Align4(newsize))))
      ensures q.None? && 0 < newsize <= 0xFFFF_FFFC ==> mem[..] == old(mem[..])
    {
      var need := Align4(newsize);
      ghost var b := Block(0, 0, false);
      if rmem.Some? && IsLive(st, rmem.value) {
        b := st.blocks[Index(st.blocks, rmem.value - SIZEOF_STRUCT_MEM)];
        LiveInside(st, rmem.value, b);
      }
      if need > size {
        return None;
      } else if need == 0 {
        if rmem.Some? { FreeOne(rmem.value, b); }
        return None;
      }
      if rmem.None? {
        q := Malloc(need);
        return;
      }
      q := ReallocAt(rmem.value, need, b, st, mem[..]);
    }

    /** rt_realloc of a pointer other than NULL to an aligned size other than 0. */
    method ReallocAt(rmem: int, need: word, ghost b: Block, ghost s: State, ghost was: seq<word>) returns (q: Option<int>)
      requires Valid() && need % 4 == 0 && need > 0
      requires if Outside(st, rmem) then !IsLive(st, rmem) else b in Live(st.blocks) && b.off + SIZEOF_STRUCT_MEM == rmem
      requires s == st && was == mem[..]
      modifies this, mem
      ensures Valid()
      ensures (st, q) == if Outside(s, rmem) then (s, Some(rmem)) else Resize(s, rmem, need)
      ensures if Outside(s, rmem) then mem[..] == was
        else Carried(was, mem[..], b, Live(s.blocks), q, need)
    {
      if rmem < 0 || rmem >= size + SIZEOF_STRUCT_MEM {
        return Some(rmem);
      }
      q := ResizeBlock(rmem - SIZEOF_STRUCT_MEM, need, b, s, was);
    }

    /** rt_realloc of live block `b`, at offset `o`, to an aligned size other than 0. */
    method ResizeBlock(o: nat, need: word, ghost b: Block, ghost s: State, ghost was: seq<word>) returns (q: Option<int>)
      requires Valid() && b in Live(st.blocks) && b.off == o && need % 4 == 0 && need > 0
      requires s == st && was == mem[..]
      modifies this, mem
      ensures Valid() && (st, q) == Resize(s, o + SIZEOF_STRUCT_MEM, need)
      ensures Carried(was, mem[..], b, Live(s.blocks), q, need)
    {
      var len := PayloadSize(o, b);
      if len == need {
        KeepsAll(st, mem[..], b, need);
        q := Some(o + SIZEOF_STRUCT_MEM);
      } else if need + SIZEOF_STRUCT_MEM + MIN_SIZE_ALIGNED < len {
        q := CutDown(o, need, b, s, was);
      } else {
        assert Resize(s, o + SIZEOF_STRUCT_MEM, need) == Move(s, o + SIZEOF_STRUCT_MEM, need) by { ResizeCases(s, b, need); }
        q := MoveAway(o, need, b, s, was);
      }
    }

    /** A block that is long enough to be split shrinks in place. */
    method CutDown(o: nat, need: word, ghost b: Block, ghost s: State, ghost was: seq<word>) returns (q: Option<int>)
      requires Valid() && b in Live(st.blocks) && b.off == o && need % 4 == 0 && need > 0
      requires need + SIZEOF_STRUCT_MEM + MIN_SIZE_ALIGNED < Payload(b)
      requires s == st && was == mem[..]
      modifies this, mem
      ensures Valid() && (st, q) == Resize(s, o + SIZEOF_STRUCT_MEM, need)
      ensures Carried(was, mem[..], b, Live(s.blocks), q, need)
    {
      assert CanShrink(s, Index(s.blocks, o), need)
          && Resize(s, o + SIZEOF_STRUCT_MEM, need) == (Shrink(s, Index(s.blocks, o), need), Some(o + SIZEOF_STRUCT_MEM)) by {
        ResizeCases(st, b, need);
      }
      ShrinkKeeping(o, need, b);
      q := Some(o + SIZEOF_STRUCT_MEM);
    }

    /** In all other cases the block moves. */
    method MoveAway(o: nat, need: word, ghost b: Block, ghost s: State, ghost was: seq<word>) returns (q: Option<int>)
      requires Valid() && b in Live(st.blocks) && b.off == o && need % 4 == 0 && need > 0
      requires s == st && was == mem[..]
      modifies this, mem
      ensures Valid() && (st, q) == Move(s, o + SIZEOF_STRUCT_MEM, need)
      ensures Carried(was, mem[..], b, Live(s.blocks), q, need)
    {
      ghost var mid;
      q, mid := MoveBlock(o, need, b, s, was);
    }

    /** Shrinking keeps the bytes in front of the cut. */
    method ShrinkKeeping(o: nat, need: nat, ghost b: Block)
      requires Valid() && b in Live(st.blocks) && b.off == o && CanShrink(st, Index(st.blocks, o), need)
      modifies this, mem
      ensures Valid() && st == Shrink(old(st), Index(old(st.blocks), o), need)
      ensures Carried(old(mem[..]), mem[..], b, Live(old(st.blocks)), Some(o + SIZEOF_STRUCT_MEM), need)
    {
      LiveFound(st, b);
      BlockAligned(st, b);
      ghost var (s, kept) := (st, Block(o, o + SIZEOF_STRUCT_MEM + need, true));
      ShrinkBlock(o, need, Index(st.blocks, o));
      SameBytesKept(old(mem[..]), mem[..], Live(s.blocks) - {b} + {kept}, kept, need);
    }

    /** A client writes a word of a payload it holds. */
    method Store(p: nat, k: nat, v: word)
      requires Valid() && IsLive(st, p)
      requires p / 4 + k < st.blocks[Index(st.blocks, p - SIZEOF_STRUCT_MEM)].end / 4 <= mem.Length
      modifies mem
      ensures Valid() && mem[p / 4 + k] == v
      ensures forall j :: 0 <= j < mem.Length && j != p / 4 + k ==> mem[j] == old(mem[j])
      ensures PayloadsKept(old(mem[..]), mem[..], Live(st.blocks) - {st.blocks[Index(st.blocks, p - SIZEOF_STRUCT_MEM)]})
    {
      mem[p / 4 + k] := v;
      PayloadWrite(old(mem[..]), mem[..], st.blocks, size, Index(st.blocks, p - SIZEOF_STRUCT_MEM));
    }
  }

  lemma BlockAligned(s: State, b: Block)
    requires Layout(s) && b in Live(s.blocks)
    ensures WellSized(b, SIZEOF_STRUCT_MEM) && b.end <= s.size + SIZEOF_STRUCT_MEM
  {
    LiveFound(s, b);
    TilesCut(s.blocks, 0, s.size + SIZEOF_STRUCT_MEM, SIZEOF_STRUCT_MEM, Index(s.blocks, b.off));
  }

  lemma CopyBounds(s: State, n: Block, b: Block, len: nat)
    requires Layout(s) && n in Live(s.blocks) && b in Live(s.blocks) && n != b
    requires len % 4 == 0 && len <= Payload(n) && len <= Payload(b)
    ensures var (dst, src, w, i) := ((n.off + SIZEOF_STRUCT_MEM) / 4, (b.off + SIZEOF_STRUCT_MEM) / 4, len / 4, Index(s.blocks, n.off));
      && 4 * (dst + w) <= n.end && 4 * (src + w) <= b.end
      && n.end <= s.size + SIZEOF_STRUCT_MEM && b.end <= s.size + SIZEOF_STRUCT_MEM
      && (src + w <= dst || dst + w <= src)
      && i < |s.blocks| && s.blocks[i] == n
  {
    BlockAligned(s, n);
    BlockAligned(s, b);
    LivePayloads(s, n, b);
    LiveFound(s, n);
  }

  lemma LiveInside(s: State, p: int, b: Block)
    requires Layout(s) && IsLive(s, p) && b == s.blocks[Index(s.blocks, p - SIZEOF_STRUCT_MEM)]
    ensures b in Live(s.blocks) && b.off + SIZEOF_STRUCT_MEM == p && !Outside(s, p)
  {
    BlockAligned(s, b);
  }

  /** What rt_realloc does with live block `b`, by the size asked for. */
  lemma ResizeCases(s: State, b: Block, need: word)
    requires Layout(s) && b in Live(s.blocks) && need % 4 == 0 && need > 0
    ensures var (i, p) := (Index(s.blocks, b.off), b.off + SIZEOF_STRUCT_MEM);
      if Payload(b) == need then Resize(s, p, need) == (s, Some(p))
      else if need + SIZEOF_STRUCT_MEM + MIN_SIZE_ALIGNED < Payload(b) then
        CanShrink(s, i, need) && Resize(s, p, need) == (Shrink(s, i, need), Some(p))
      else Resize(s, p, need) == Move(s, p, need)
  {
    LiveFound(s, b);
    BlockAligned(s, b);
  }

  lemma ShrinkBounds(s: State, i: nat, need: nat)
    requires Inv(s) && CanShrink(s, i, need)
    ensures Inv(Shrink(s, i, need)) && 0 <= s.usedMem - (Payload(s.blocks[i]) - need) < MODULUS
  {
    ShrinkInv(s, i, need);
    UsedBound(Shrink(s, i, need));
    UsedBound(s);
  }

  lemma SplitUsedLive(bs: seq<Block>, end: nat, i: nat, cut: nat)
    requires Tiles(bs, 0, end, SIZEOF_STRUCT_MEM) && i < |bs| && bs[i].used
    ensures Live(Split(bs, i, cut)) == Live(bs) - {bs[i]} + {Block(bs[i].off, cut, true)}
  {
    LiveStretch(bs, i, i, i + 1);
    LiveReplace(bs, end, SIZEOF_STRUCT_MEM, i, i + 1, [bs[i].(end := cut), Block(cut, bs[i].end, false)]);
  }

  /** lfree never points into the middle of a block. */
  lemma LfreeNotCut(s: State, i: nat, cut: nat)
    requires Layout(s) && LfreeOk(s) && i < |s.blocks| && s.blocks[i].off < cut < s.blocks[i].end
    ensures s.lfree != cut
  {
    LfreeIndex(s);
    var l := Index(s.blocks, s.lfree);
    TilesCut(s.blocks, 0, s.size + SIZEOF_STRUCT_MEM, SIZEOF_STRUCT_MEM, i);
    if l < i {
      TilesOrdered(s.blocks, 0, s.size + SIZEOF_STRUCT_MEM, SIZEOF_STRUCT_MEM, l, i);
      TilesCut(s.blocks, 0, s.size + SIZEOF_STRUCT_MEM, SIZEOF_STRUCT_MEM, l);
    } else if i < l < |s.blocks| {
      TilesOrdered(s.blocks, 0, s.size + SIZEOF_STRUCT_MEM, SIZEOF_STRUCT_MEM, i, l);
    }
  }

  lemma ReleaseBounds(s: State, i: nat)
    requires Inv(s) && i < |s.blocks| && s.blocks[i].used
    ensures Inv(Release(s, i)) && 0 <= s.usedMem - (s.blocks[i].end - s.blocks[i].off) < MODULUS
    ensures s.lfree != s.blocks[i].off && s.blocks[i].off < s.blocks[i].end
  {
    ReleaseInv(s, i);
    UsedBound(Release(s, i));
    UsedBound(s);
    ReleaseLfreeIs(s, i);
  }

  lemma FlagLive(bs: seq<Block>, end: nat, h: nat, i: nat)
    requires Tiles(bs, 0, end, h) && i < |bs| && bs[i].used
    ensures Live(Flag(bs, i, false)) == Live(bs) - {bs[i]}
  {
    LiveStretch(bs, i, i, i + 1);
    LiveReplace(bs, end, h, i, i + 1, [bs[i].(used := false)]);
  }

  /** Beyond the bound of the search loop no block fits. */
  lemma NoFitBeyond(s: State, i: nat, need: nat)
    requires Layout(s) && i <= |s.blocks|
    requires i < |s.blocks| ==> s.blocks[i].off >= s.size - need
    ensures FirstFit(s.blocks, i, need, s.size) == |s.blocks|
  {
    var k := FirstFit(s.blocks, i, need, s.size);
    if i < k < |s.blocks| {
      TilesOrdered(s.blocks, 0, s.size + SIZEOF_STRUCT_MEM, SIZEOF_STRUCT_MEM, i, k);
      TilesCut(s.blocks, 0, s.size + SIZEOF_STRUCT_MEM, SIZEOF_STRUCT_MEM, i);
    }
  }

  lemma ReleaseLfreeIs(s: State, i: nat)
    requires Layout(s) && LfreeOk(s) && i < |s.blocks| && s.blocks[i].used
    ensures s.lfree != s.blocks[i].off && s.blocks[i].off < s.blocks[i].end
  {
    LfreeIndex(s);
    TilesCut(s.blocks, 0, s.size + SIZEOF_STRUCT_MEM, SIZEOF_STRUCT_MEM, i);
    var l := Index(s.blocks, s.lfree);
    if l < |s.blocks| && s.blocks[l].off == s.blocks[i].off {
      OccursOnce(s.blocks, 0, s.size + SIZEOF_STRUCT_MEM, SIZEOF_STRUCT_MEM, i, l);
    }
  }

  /** Splitting a free block leaves the live blocks alone. */
  lemma SplitLive(bs: seq<Block>, end: nat, h: nat, i: nat, cut: nat)
    requires Tiles(bs, 0, end, h) && i < |bs| && !bs[i].used
    ensures Live(Split(bs, i, cut)) == Live(bs)
  {
    LiveStretch(bs, i, i, i + 1);
    LiveReplace(bs, end, h, i, i + 1, [bs[i].(end := cut), Block(cut, bs[i].end, false)]);
  }

  /** Splitting block `i` and then marking its first part used is what the specification does. */
  lemma SplitTakes(s: State, i: nat, need: nat)
    requires Layout(s) && CanTake(s, i, need) && Splits(s.blocks[i], need)
    ensures var (b, cut) := (s.blocks[i], s.blocks[i].off + SIZEOF_STRUCT_MEM + need);
      && cut % 4 == 0 && b.off + SIZEOF_STRUCT_MEM + 4 <= cut && cut + SIZEOF_STRUCT_MEM + 4 <= b.end
      && Live(Split(s.blocks, i, cut)) == Live(s.blocks) && b !in Live(s.blocks)
      && i < |Split(s.blocks, i, cut)| && Split(s.blocks, i, cut)[i].off == b.off
      && Flag(Split(s.blocks, i, cut), i, true) == TakeBlocks(s.blocks, i, need)
  {
    var cut := s.blocks[i].off + SIZEOF_STRUCT_MEM + need;
    TakeFits(s, i, need);
    SplitLive(s.blocks, s.size + SIZEOF_STRUCT_MEM, SIZEOF_STRUCT_MEM, i, cut);
    SplitFlagIsCut(s.blocks, i, cut);
  }

  lemma UsedBound(s: State)
    requires Inv(s)
    ensures 0 <= s.usedMem <= s.maxMem < MODULUS
  {
    SumTotal(s.blocks, 0, s.size + HeapSpec.HDR, HeapSpec.HDR);
  }
}
