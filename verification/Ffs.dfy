/** __rt_ffs of kservice.c: the table-driven find-first-set that picks the highest ready priority. */
module Ffs {
  import opened Words
  import opened Bits

  type byte = x: int | 0 <= x < 256

  /** The 16 columns shared by all rows of __lowest_bit_bitmap, the first column excepted. */
  const COLUMNS: seq<nat> := [0, 0, 1, 0, 2, 0, 1, 0, 3, 0, 1, 0, 2, 0, 1, 0]

  /** Its first column, rows 00 to F0. */
  const HEADS: seq<nat> := [0, 4, 5, 4, 6, 4, 5, 4, 7, 4, 5, 4, 6, 4, 5, 4]

  /** Entry `b` of __lowest_bit_bitmap. */
  function LowestBitBitmap(b: byte): nat {
    if b % 16 == 0 then HEADS[b / 16] else COLUMNS[b % 16]
  }

  /** `v >> k` */
  function ShiftRight(v: nat, k: nat): nat {
    if k == 0 then v else ShiftRight(v / 2, k - 1)
  }

  /** The low `k` bits of `v`. */
  function LowBits(v: nat, k: nat): (r: nat)
    ensures r < Pow2(k)
  {
    if k == 0 then 0 else 2 * LowBits(v / 2, k - 1) + v % 2
  }

  /** The lowest bit set in `v`. */
  function LowestBit(v: nat): (k: nat)
    requires v > 0
    ensures Bit(v, k) && forall j: nat :: j < k ==> !Bit(v, j)
  {
    if v % 2 == 1 then 0 else 1 + LowestBit(v / 2)
  }

  /** One byte of `v`: `(v & mask) >> k` with a mask of eight bits from bit `k` on. */
  function ByteOf(v: word, mask: word, k: nat): nat {
    ShiftRight(And(v, mask), k)
  }

  lemma {:induction false} ShiftAnd(v: nat, m: nat, k: nat)
    ensures ShiftRight(And(v, m * Pow2(k)), k) == And(ShiftRight(v, k), m)
  {
    if k > 0 {
      assert m * Pow2(k) == 2 * (m * Pow2(k - 1));
      ShiftAnd(v / 2, m, k - 1);
      if v == 0 || m * Pow2(k) == 0 {
        ShiftZero(k - 1);
      }
    }
  }

  lemma {:induction false} ShiftZero(k: nat)
    ensures ShiftRight(0, k) == 0
  {
    if k > 0 { ShiftZero(k - 1); }
  }

  /** `a & (2^k - 1)` keeps the low `k` bits. */
  lemma {:induction false} AndIsLow(a: nat, k: nat)
    ensures And(a, Pow2(k) - 1) == LowBits(a, k)
  {
    if a == 0 {
      LowZero(k);
    } else if k > 0 {
      AndHalves(a, Pow2(k - 1));
      AndIsLow(a / 2, k - 1);
    }
  }

  lemma {:induction false} LowZero(k: nat)
    ensures LowBits(0, k) == 0
  {
    if k > 0 { LowZero(k - 1); }
  }

  /** A masked word is zero exactly when the byte under the mask is. */
  lemma {:induction false} MaskedZero(v: nat, m: nat, k: nat)
    ensures And(v, m * Pow2(k)) == 0 <==> And(ShiftRight(v, k), m) == 0
    decreases k
  {
    if k > 0 {
      assert m * Pow2(k) == 2 * (m * Pow2(k - 1));
      if v > 0 && m * Pow2(k) > 0 {
        MaskedZero(v / 2, m, k - 1);
      } else if v == 0 {
        ShiftZero(k);
      }
    }
  }

  /** Eight masked and shifted bits of a word. */
  lemma ByteIs(v: word, mask: word, k: nat)
    requires mask == 0xFF * Pow2(k)
    ensures ByteOf(v, mask, k) == LowBits(ShiftRight(v, k), 8) < 256
    ensures And(v, mask) == 0 <==> ByteOf(v, mask, k) == 0
  {
    assert Pow2(8) == 256;
    ShiftAnd(v, 0xFF, k);
    AndIsLow(ShiftRight(v, k), 8);
    MaskedZero(v, 0xFF, k);
  }

  lemma ByteMasks()
    ensures 0xFF == 0xFF * Pow2(0) && 0xFF00 == 0xFF * Pow2(8)
    ensures 0xFF_0000 == 0xFF * Pow2(16) && 0xFF00_0000 == 0xFF * Pow2(24)
  {
    assert Pow2(8) == 256;
    assert Pow2(16) == 256 * Pow2(8);
    assert Pow2(24) == 256 * Pow2(16);
  }

  /** The lowest bit of a number whose low `k` bits are clear. */
  lemma {:induction false} LowestBitShifted(v: nat, k: nat)
    requires v > 0 && LowBits(v, k) == 0
    ensures ShiftRight(v, k) > 0 && LowestBit(v) == k + LowestBit(ShiftRight(v, k))
  {
    if k > 0 { LowestBitShifted(v / 2, k - 1); }
  }

  /** The lowest bit is decided by any low bits that are not all clear. */
  lemma {:induction false} LowestBitOfLow(v: nat, k: nat)
    requires LowBits(v, k) > 0
    ensures v > 0 && LowestBit(v) == LowestBit(LowBits(v, k))
  {
    if k > 0 && v % 2 == 0 { LowestBitOfLow(v / 2, k - 1); }
  }

  lemma {:induction false} LowBitsOfSum(v: nat, j: nat, k: nat)
    requires LowBits(v, j) == 0 && LowBits(ShiftRight(v, j), k) == 0
    ensures LowBits(v, j + k) == 0
    decreases j
  {
    if j > 0 { LowBitsOfSum(v / 2, j - 1, k); }
  }

  /** The table is right for every byte but 0. */
  lemma TableIsLowestBit(b: byte)
    requires b > 0
    ensures LowestBitBitmap(b) == LowestBit(b)
  {
    Nibbles(b);
    if b % 16 == 0 {
      LowestBitShifted(b, 4);
      NibbleLowest(b / 16);
    } else {
      LowestBitOfLow(b, 4);
      NibbleLowest(b % 16);
    }
  }

  lemma Nibbles(b: byte)
    ensures LowBits(b, 4) == b % 16 && ShiftRight(b, 4) == b / 16
  {
    var (c, d, e) := (b / 2, b / 2 / 2, b / 2 / 2 / 2);
    assert LowBits(b, 4) == 2 * LowBits(c, 3) + b % 2;
    assert LowBits(c, 3) == 2 * LowBits(d, 2) + c % 2;
    assert LowBits(d, 2) == 2 * LowBits(e, 1) + d % 2;
    assert LowBits(e, 1) == e % 2;
    assert ShiftRight(b, 4) == ShiftRight(c, 3) == ShiftRight(d, 2) == ShiftRight(e, 1) == e / 2;
    FourHalves(b, c, d, e);
  }

  lemma FourHalves(b: nat, c: nat, d: nat, e: nat)
    requires c == b / 2 && d == c / 2 && e == d / 2
    ensures b % 2 + 2 * (c % 2) + 4 * (d % 2) + 8 * (e % 2) == b % 16 && e / 2 == b / 16
  {
    assert b == 16 * (e / 2) + (b % 2 + 2 * (c % 2) + 4 * (d % 2) + 8 * (e % 2));
  }

  lemma NibbleLowest(n: nat)
    requires 0 < n < 16
    ensures HEADS[n] == 4 + LowestBit(n) && COLUMNS[n] == LowestBit(n)
  {
    assert LowestBit(1) == 0 && LowestBit(2) == 1 && LowestBit(3) == 0 && LowestBit(4) == 2;
    assert LowestBit(5) == 0 && LowestBit(6) == 1 && LowestBit(7) == 0 && LowestBit(8) == 3;
    assert LowestBit(9) == 0 && LowestBit(10) == 1 && LowestBit(11) == 0 && LowestBit(12) == 2;
    assert LowestBit(13) == 0 && LowestBit(14) == 1 && LowestBit(15) == 0;
  }

  /** Whether the byte from bit `k` on is the first that is not zero, and the lowest bit if so. */
  lemma ByteDecides(v: word, k: nat)
    requires v > 0 && LowBits(v, k) == 0
    ensures LowBits(ShiftRight(v, k), 8) < 256
    ensures if LowBits(ShiftRight(v, k), 8) > 0
      then LowestBit(v) == k + LowestBitBitmap(LowBits(ShiftRight(v, k), 8))
      else LowBits(v, k + 8) == 0
  {
    var b := LowBits(ShiftRight(v, k), 8);
    assert Pow2(8) == 256;
    LowestBitShifted(v, k);
    if b > 0 {
      LowestBitOfLow(ShiftRight(v, k), 8);
      TableIsLowestBit(b);
    } else {
      LowBitsOfSum(v, k, 8);
    }
  }

  lemma {:induction false} LowestBelow(v: nat, n: nat)
    requires 0 < v < Pow2(n)
    ensures LowestBit(v) < n
  {
    if v % 2 == 0 { LowestBelow(v / 2, n - 1); }
  }

  /** The first byte that is not zero, counting from the low end, tells the lowest bit. */
  lemma FirstByte(v: word, b0: nat, b1: nat, b2: nat, b3: nat)
    requires v > 0 && b0 == LowBits(ShiftRight(v, 0), 8) && b1 == LowBits(ShiftRight(v, 8), 8)
    requires b2 == LowBits(ShiftRight(v, 16), 8) && b3 == LowBits(ShiftRight(v, 24), 8)
    ensures b0 < 256 && b1 < 256 && b2 < 256 && b3 < 256 && LowestBit(v) < 32
    ensures LowestBit(v) == (if b0 > 0 then LowestBitBitmap(b0) else if b1 > 0 then LowestBitBitmap(b1) + 8
                             else if b2 > 0 then LowestBitBitmap(b2) + 16 else LowestBitBitmap(b3) + 24)
  {
    assert Pow2(8) == 256;
    Pow2Is32();
    LowestBelow(v, 32);
    ByteDecides(v, 0);
    if b0 == 0 {
      ByteDecides(v, 8);
      if b1 == 0 {
        ByteDecides(v, 16);
        if b2 == 0 {
          ByteDecides(v, 24);
          if b3 == 0 { NoLowBits(v, 32); }
        }
      }
    }
  }

  lemma {:induction false} NoLowBits(v: nat, n: nat)
    requires v < Pow2(n)
    ensures LowBits(v, n) == v
  {
    if n > 0 { NoLowBits(v / 2, n - 1); }
  }

  lemma FourBytes(v: word)
    requires v > 0
    ensures LowestBit(v) < 32
    ensures And(v, 0xFF) < 256 && ByteOf(v, 0xFF00, 8) < 256
    ensures ByteOf(v, 0xFF_0000, 16) < 256 && ByteOf(v, 0xFF00_0000, 24) < 256
    ensures LowestBit(v) == (if And(v, 0xFF) != 0 then LowestBitBitmap(And(v, 0xFF))
                             else if And(v, 0xFF00) != 0 then LowestBitBitmap(ByteOf(v, 0xFF00, 8)) + 8
                             else if And(v, 0xFF_0000) != 0 then LowestBitBitmap(ByteOf(v, 0xFF_0000, 16)) + 16
                             else LowestBitBitmap(ByteOf(v, 0xFF00_0000, 24)) + 24)
  {
    ByteMasks();
    ByteIs(v, 0xFF, 0);
    ByteIs(v, 0xFF00, 8);
    ByteIs(v, 0xFF_0000, 16);
    ByteIs(v, 0xFF00_0000, 24);
    FirstByte(v, ByteOf(v, 0xFF, 0), ByteOf(v, 0xFF00, 8), ByteOf(v, 0xFF_0000, 16), ByteOf(v, 0xFF00_0000, 24));
  }

  /** __rt_ffs: 1 + the lowest bit set, 0 if there is none. */
  function RtFfs(value: word): (r: nat)
    ensures value == 0 ==> r == 0
    ensures value > 0 ==> 0 < r <= 32 && Bit(value, r - 1) && forall j: nat :: j < r - 1 ==> !Bit(value, j)
  {
    if value == 0 then 0
    else
      FourBytes(value);
      if And(value, 0xFF) != 0 then LowestBitBitmap(And(value, 0xFF)) + 1
      else if And(value, 0xFF00) != 0 then LowestBitBitmap(ByteOf(value, 0xFF00, 8)) + 9
      else if And(value, 0xFF_0000) != 0 then LowestBitBitmap(ByteOf(value, 0xFF_0000, 16)) + 17
      else LowestBitBitmap(ByteOf(value, 0xFF00_0000, 24)) + 25
  }
}
