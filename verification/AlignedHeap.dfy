/** rt_malloc_align and rt_free_align of kservice.c on top of the heap of mem.c. Pointers are absolute addresses;
    `base` is the address of heap_ptr. */
module AlignedHeap {
  import opened Words
  import opened Blocks
  import opened Bits
  import opened HeapSpec
  import opened HeapMemory
  import opened HeapCalls
  import Heap

  const HEADER := HeapSpec.HDR

  /** The address handed out for a block at address `ptr`; `align` has been rounded up to a multiple of 4. */
  function AlignPtr(ptr: nat, align: word): nat {
    var mask := Wrap(align - 1);
    if And(ptr, mask) == 0 then Wrap(ptr + align) else And(Wrap(ptr + mask), Not32(mask))
  }

  /** The size rt_malloc is asked for. */
  function TotalSize(size: word, align: word): word {
    Wrap(Align4(size) + Align4(align))
  }

  /** Rounding the alignment up to a multiple of 4 leaves a power of two. */
  lemma Align4Pow2(align: word, k: nat)
    requires align == Pow2(k) && k < 32
    ensures Align4(align) == Pow2(if k < 2 then 2 else k) && Align4(align) % 4 == 0 && Align4(align) >= align
    ensures align <= 0x8000_0000
  {
    if k >= 2 {
      Pow2Four(k);
    } else {
      assert k == 0 || k == 1;
      assert Pow2(2) == 4 && Pow2(1) == 2;
    }
    Pow2Grows(k, 31);
    Pow2Is32();
    assert Pow2(32) == 2 * Pow2(31);
  }

  lemma Pow2Four(k: nat)
    requires k >= 2
    ensures Pow2(k) % 4 == 0
  {
    assert Pow2(k) == 4 * Pow2(k - 2);
  }

  lemma AlignPtrCases(ptr: word, p: word)
    requires p > 0 && ptr + p < MODULUS
    ensures And(ptr, p - 1) == 0 ==> AlignPtr(ptr, p) == ptr + p
    ensures And(ptr, p - 1) != 0 ==> AlignPtr(ptr, p) == And(ptr + p - 1, Not32(p - 1))
  {
    assert Wrap(p - 1) == p - 1;
    assert Wrap(ptr + Wrap(p - 1)) == ptr + p - 1;
  }

  /** Rounding past `ptr`: what the masked sum comes to when `ptr` is not aligned yet. */
  lemma RoundUp(ptr: nat, k: nat)
    requires k >= 2 && ptr % 4 == 0 && !Multiple(ptr, k)
    ensures var a := RoundDown(ptr + Pow2(k) - 1, k); ptr + 4 <= a <= ptr + Pow2(k) && Multiple(a, k) && a % 4 == 0
  {
    MultipleFour(RoundDown(ptr + Pow2(k) - 1, k), k);
  }

  lemma StepUp(ptr: nat, k: nat)
    requires k >= 2 && Multiple(ptr, k)
    ensures var a := ptr + Pow2(k); ptr + 4 <= a && Multiple(a, k) && a % 4 == 0
  {
    NextMultiple(ptr, k);
    MultipleFour(ptr + Pow2(k), k);
    MultipleFour(ptr, k);
  }

  lemma AlignedCase(ptr: word, k: nat)
    requires k < 32 && ptr + Pow2(k) < MODULUS && Multiple(ptr, k)
    ensures AlignPtr(ptr, Pow2(k)) == ptr + Pow2(k)
  {
    AndLow(ptr, k);
    AlignPtrCases(ptr, Pow2(k));
  }

  lemma UnalignedCase(ptr: word, k: nat)
    requires k < 32 && ptr + Pow2(k) < MODULUS && !Multiple(ptr, k)
    ensures AlignPtr(ptr, Pow2(k)) == RoundDown(ptr + Pow2(k) - 1, k)
  {
    AndLow(ptr, k);
    AlignPtrCases(ptr, Pow2(k));
    AndHigh32(ptr + Pow2(k) - 1, k);
  }

  /** The address handed out is a multiple of the alignment, above `ptr` and at most one alignment above it. */
  lemma AlignPtrIs(ptr: word, k: nat)
    requires 2 <= k < 32 && ptr % 4 == 0 && ptr + Pow2(k) < MODULUS
    ensures var a := AlignPtr(ptr, Pow2(k));
      Multiple(a, k) && a % 4 == 0 && ptr + 4 <= a <= ptr + Pow2(k)
  {
    if Multiple(ptr, k) {
      AlignedCase(ptr, k);
      StepUp(ptr, k);
    } else {
      UnalignedCase(ptr, k);
      RoundUp(ptr, k);
    }
  }

  lemma MultipleFour(a: nat, k: nat)
    requires k >= 2 && Multiple(a, k)
    ensures a % 4 == 0
  {
    assert Multiple(a / 2, k - 1);
  }

  /** Address `a` serves `size` bytes aligned to 2^k inside the block from `lo` to `hi`, with the slot for the
      saved pointer in front of it also inside that block. */
  predicate Serves(a: nat, size: nat, k: nat, lo: nat, hi: nat) {
    Multiple(a, k) && lo + 4 <= a && a + size <= hi
  }

  /** Address `a` handed out for a block at address `lo` serves the request when the sum does not wrap. */
  lemma PtrServes(lo: word, hi: nat, size: word, align: word, k: nat)
    requires align == Pow2(k) && k < 32 && lo % 4 == 0
    requires size <= 0xFFFF_FFFC && lo + Align4(size) + Align4(align) <= hi < MODULUS
    ensures Serves(AlignPtr(lo, Align4(align)), size, k, lo, hi)
  {
    var j := if k < 2 then 2 else k;
    Align4Pow2(align, k);
    AlignPtrIs(lo, j);
    MultipleOfSmaller(AlignPtr(lo, Pow2(j)), k, j);
  }

  lemma WrappedServesNot(a: nat, size: word, align: word, k: nat, lo: nat, hi: nat)
    requires align == Pow2(k) && Align4(align) <= align + 3 && hi + HEADER <= MODULUS
    requires size > 0xFFFF_FFFC || Align4(size) + Align4(align) >= MODULUS
    ensures !Serves(a, size, k, lo, hi)
  {
    if Multiple(a, k) && 0 < a {
      MultipleAtLeast(a, k);
    }
  }

  /** In a block from `lo` to `hi` that has room for the total size, the address rt_malloc_align hands out serves
      the request, for any size and any power-of-two alignment, exactly when the sum of the two rounded sizes does
      not wrap around. */
  lemma AlignServes(lo: word, hi: nat, size: word, align: word, k: nat)
    requires align == Pow2(k) && k < 32 && lo % 4 == 0
    requires lo + TotalSize(size, align) <= hi && hi + HEADER <= MODULUS
    ensures Serves(AlignPtr(lo, Align4(align)), size, k, lo, hi) <==>
            size <= 0xFFFF_FFFC && Align4(size) + Align4(align) < MODULUS
  {
    Align4Pow2(align, k);
    if size <= 0xFFFF_FFFC && Align4(size) + Align4(align) < MODULUS {
      PtrServes(lo, hi, size, align, k);
    } else {
      WrappedServesNot(AlignPtr(lo, Align4(align)), size, align, k, lo, hi);
    }
  }

  lemma TookSixteen()
    ensures Allocate(Init(100), 16).1 == Some(12) && Allocate(Init(100), 16).0.blocks[0] == Block(0, 28, true)
  {
    var s := Init(100);
    assert Index(s.blocks, 0) == 0 && Fits(s.blocks[0], 16, 100);
  }

  /** Asked for 0xFFFFFFF0 bytes aligned to 32, rt_malloc_align gets a block of 16 bytes, and the address it hands out
      does not serve the request. */
  lemma AlignWraps()
    ensures TotalSize(0xFFFF_FFF0, 32) == 16 && Allocate(Init(100), 16).1 == Some(12)
    ensures Allocate(Init(100), 16).0.blocks[0] == Block(0, 28, true)
    ensures !Serves(AlignPtr(12, 32), 0xFFFF_FFF0, 5, 12, 28)
  {
    TookSixteen();
    assert Pow2(5) == 2 * Pow2(4) && Pow2(4) == 2 * Pow2(3) && Pow2(3) == 2 * Pow2(2) && Pow2(2) == 4;
    WrappedServesNot(AlignPtr(12, 32), 0xFFFF_FFF0, 32, 5, 12, 28);
  }

  /** The block behind a new pointer, in absolute addresses. */
  lemma AllocateAt(s: State, base: nat, total: word) returns (b: Block)
    requires Inv(s) && base % 4 == 0 && base + s.size + 2 * HEADER <= MODULUS && Need(total) >= total
    ensures var (t, p) := Allocate(s, total);
      if p.None? then t == s
      else
        && b !in Live(s.blocks) && Live(t.blocks) == Live(s.blocks) + {b}
        && b.off + HEADER == p.value && p.value + total <= b.end
        && (base + b.off + HEADER) % 4 == 0 && base + b.end + HEADER <= MODULUS
  {
    b := AllocateLive(s, total);
    if Allocate(s, total).1.Some? {
      AllocateInv(s, total);
      FoundBlock(Allocate(s, total).0, b);
      AddressAligned(base, b);
    }
  }

  lemma AddressAligned(base: nat, b: Block)
    requires base % 4 == 0 && WellSized(b, HEADER)
    ensures (base + b.off + HEADER) % 4 == 0
  {
    SumOfFours(base, b.off);
    SumOfFours(base + b.off, HEADER);
  }

  lemma NeedTotal(size: word, align: word)
    ensures TotalSize(size, align) % 4 == 0 && Need(TotalSize(size, align)) >= TotalSize(size, align)
  {
    var x := Align4(size) + Align4(align);
    SumOfFours(Align4(size), Align4(align));
    SumOfFours(x, -MODULUS);
    assert Wrap(x) == x || Wrap(x) == x - MODULUS;
    NeedRoom(TotalSize(size, align));
  }

  lemma SumOfFours(a: int, b: int)
    requires a % 4 == 0 && b % 4 == 0
    ensures (a + b) % 4 == 0
  {
    assert a + b == 4 * (a / 4 + b / 4);
  }

  /** The heap after rt_malloc_align of a block `b`: the word in front of address `p` holds the address of the block. */
  ghost predicate Saved(h: Heap.SmallMem, base: nat, p: nat, b: Block)
    reads h, h.mem
  {
    && h.Valid() && b in Live(h.st.blocks)
    && base + b.off + HEADER + 4 <= p <= base + b.end && p % 4 == 0
    && (p - 4 - base) / 4 < h.mem.Length
    && h.mem[(p - 4 - base) / 4] == base + b.off + HEADER
  }

  lemma FoundBlock(s: State, b: Block)
    requires Inv(s) && b in Live(s.blocks)
    ensures IsLive(s, b.off + HEADER) && s.blocks[Index(s.blocks, b.off)] == b
    ensures WellSized(b, HEADER) && b.end <= s.size + HEADER
  {
    LiveFound(s, b);
    Heap.BlockAligned(s, b);
  }

  /** Where the address handed out for a block from `lo` to `hi` lies. */
  lemma PtrInBlock(lo: nat, hi: nat, size: word, align: word, k: nat)
    requires align == Pow2(k) && k < 32 && Align4(size) + Align4(align) < MODULUS
    requires lo % 4 == 0 && lo + TotalSize(size, align) <= hi < MODULUS
    ensures var a := AlignPtr(lo, Align4(align)); a % 4 == 0 && lo + 4 <= a <= hi
  {
    Align4Pow2(align, k);
    AlignPtrIs(lo, if k < 2 then 2 else k);
  }

  /** The allocation behind rt_malloc_align fails exactly when no block has room for the total. */
  lemma AlignNull(s: State, size: word, align: word, k: nat)
    requires Inv(s) && align == Pow2(k) && k < 32 && Align4(size) + Align4(align) < MODULUS
    ensures Allocate(s, TotalSize(size, align)).1.None? <==> NoRoom(s, Need(TotalSize(size, align)))
  {
    Align4Pow2(align, k);
    assert TotalSize(size, align) > 0;
    MallocAnswers(s, TotalSize(size, align));
  }

  method RtMallocAlign(h: Heap.SmallMem, base: nat, size: word, align: word, ghost k: nat)
    returns (p: Option<nat>, ghost b: Block)
    requires h.Valid() && base % 4 == 0 && base + h.size + 2 * HEADER <= MODULUS
    requires align == Pow2(k) && k < 32 && size <= 0xFFFF_FFFC && Align4(size) + Align4(align) < MODULUS
    modifies h, h.mem
    ensures h.Valid() && h.st == Allocate(old(h.st), TotalSize(size, align)).0
    ensures PayloadsKept(old(h.mem[..]), h.mem[..], Live(old(h.st.blocks)))
    ensures p.None? <==> NoRoom(old(h.st), Need(TotalSize(size, align)))
    ensures if p.None? then h.st == old(h.st)
      else b !in Live(old(h.st.blocks)) && Live(h.st.blocks) == Live(old(h.st.blocks)) + {b}
           && Saved(h, base, p.value, b) && Serves(p.value, size, k, base + b.off + HEADER, base + b.end)
  {
    NeedTotal(size, align);
    AlignNull(h.st, size, align, k);
    b := AllocateAt(h.st, base, TotalSize(size, align));
    var ptr := h.Malloc(TotalSize(size, align));
    if ptr.None? {
      return None, b;
    }
    var alignPtr := PlacePtr(h, base, ptr.value, size, align, k, b);
    p := Some(alignPtr);
  }

  /** The address handed out for block `b`, whose payload lies at offset `ptr`, and the saved pointer in front of it. */
  method PlacePtr(h: Heap.SmallMem, base: nat, ptr: nat, size: word, align: word, ghost k: nat, ghost b: Block)
    returns (alignPtr: nat)
    requires h.Valid() && b in Live(h.st.blocks) && b.off + HEADER == ptr
    requires base % 4 == 0 && base + h.size + 2 * HEADER <= MODULUS && (base + ptr) % 4 == 0
    requires align == Pow2(k) && k < 32 && size <= 0xFFFF_FFFC && Align4(size) + Align4(align) < MODULUS
    requires base + ptr + TotalSize(size, align) <= base + b.end && base + b.end + HEADER <= MODULUS
    modifies h.mem
    ensures alignPtr == AlignPtr(base + ptr, Align4(align))
    ensures Saved(h, base, alignPtr, b) && Serves(alignPtr, size, k, base + ptr, base + b.end) && h.st == old(h.st)
    ensures PayloadsKept(old(h.mem[..]), h.mem[..], Live(h.st.blocks) - {b})
  {
    var addr := base + ptr;
    PtrInBlock(addr, base + b.end, size, align, k);
    AlignServes(addr, base + b.end, size, align, k);
    alignPtr := AlignPtr(addr, Align4(align));
    SavePtr(h, base, ptr, alignPtr, b);
  }

  /** Writes the address of block `b` into the word in front of `alignPtr`. */
  method SavePtr(h: Heap.SmallMem, base: nat, ptr: nat, alignPtr: nat, ghost b: Block)
    requires h.Valid() && b in Live(h.st.blocks) && b.off + HEADER == ptr
    requires base % 4 == 0 && base + h.size + 2 * HEADER <= MODULUS
    requires alignPtr % 4 == 0 && base + ptr + 4 <= alignPtr <= base + b.end
    modifies h.mem
    ensures Saved(h, base, alignPtr, b)
    ensures PayloadsKept(old(h.mem[..]), h.mem[..], Live(h.st.blocks) - {b})
  {
    FoundBlock(h.st, b);
    h.Store(ptr, (alignPtr - 4 - base - ptr) / 4, base + ptr);
  }

  /** rt_free_align reads the saved pointer back and frees exactly the block that rt_malloc_align got. */
  method RtFreeAlign(h: Heap.SmallMem, base: nat, p: nat, ghost b: Block)
    requires Saved(h, base, p, b)
    modifies h, h.mem
    ensures h.Valid() && h.st == FreeAt(old(h.st), b.off + HEADER)
    ensures Live(h.st.blocks) == Live(old(h.st.blocks)) - {b}
    ensures PayloadsKept(old(h.mem[..]), h.mem[..], Live(h.st.blocks))
  {
    var realPtr := h.mem[(p - 4 - base) / 4];
    LiveFound(h.st, b);
    FreeLive(h.st, b);
    h.Free(Some(realPtr - base));
  }

  /** rt_malloc_align followed by rt_free_align of the address it handed out: the pointer saved in front of that address
      leads back to the block, and the heap layout, lfree and used_mem are what they were, as are all live payloads. */
  method AlignRoundTrip(h: Heap.SmallMem, base: nat, size: word, align: word, ghost k: nat)
    requires h.Valid() && base % 4 == 0 && base + h.size + 2 * HEADER <= MODULUS
    requires align == Pow2(k) && k < 32 && size <= 0xFFFF_FFFC && Align4(size) + Align4(align) < MODULUS
    modifies h, h.mem
    ensures h.Valid() && h.st.(maxMem := old(h.st).maxMem) == old(h.st)
    ensures PayloadsKept(old(h.mem[..]), h.mem[..], Live(old(h.st.blocks)))
  {
    ghost var s := h.st;
    MallocThenFree(s, TotalSize(size, align));
    var p; ghost var b;
    p, b := RtMallocAlign(h, base, size, align, k);
    if p.Some? {
      ghost var m := h.mem[..];
      PtrOfBlock(s, TotalSize(size, align), b);
      RtFreeAlign(h, base, p.value, b);
      KeptTwice(old(h.mem[..]), m, h.mem[..], Live(s.blocks), Live(h.st.blocks), Live(s.blocks));
    }
  }

  /** The block that a successful rt_malloc adds is the one behind its pointer. */
  lemma PtrOfBlock(s: State, total: word, b: Block)
    requires Inv(s)
    requires b !in Live(s.blocks) && Live(Allocate(s, total).0.blocks) == Live(s.blocks) + {b}
    ensures Allocate(s, total).1 == Some(b.off + HEADER)
  {
    var (t, p) := Allocate(s, total);
    var n := AllocateLive(s, total);
    assert p.Some? && b == n by { assert b in Live(t.blocks); }
  }
}
