/** Bitwise operations on non-negative integers, bit by bit, and what the kernel uses them for. */
module Bits {

  function Pow2(k: nat): (p: nat)
    ensures p > 0
  {
    if k == 0 then 1 else 2 * Pow2(k - 1)
  }

  /** Bit `k` of `a`. */
  predicate Bit(a: nat, k: nat) {
    if k == 0 then a % 2 == 1 else Bit(a / 2, k - 1)
  }

  function And(a: nat, b: nat): nat {
    if a == 0 || b == 0 then 0
    else 2 * And(a / 2, b / 2) + (if a % 2 == 1 && b % 2 == 1 then 1 else 0)
  }

  function Or(a: nat, b: nat): nat
    decreases a + b
  {
    if a == 0 then b else if b == 0 then a
    else 2 * Or(a / 2, b / 2) + (if a % 2 == 1 || b % 2 == 1 then 1 else 0)
  }

  /** Complement within 32 bits. */
  function Not32(a: nat): nat
    requires a <= 0xFFFF_FFFF
  {
    0xFFFF_FFFF - a
  }

  lemma {:induction false} AndBit(a: nat, b: nat, k: nat)
    ensures Bit(And(a, b), k) <==> Bit(a, k) && Bit(b, k)
    decreases k
  {
    if a == 0 || b == 0 {
      ZeroBit(k);
    } else if k > 0 {
      AndBit(a / 2, b / 2, k - 1);
    }
  }

  lemma {:induction false} OrBit(a: nat, b: nat, k: nat)
    ensures Bit(Or(a, b), k) <==> Bit(a, k) || Bit(b, k)
    decreases k
  {
    if a == 0 || b == 0 {
      ZeroBit(k);
    } else if k > 0 {
      OrBit(a / 2, b / 2, k - 1);
    }
  }

  lemma {:induction false} ZeroBit(k: nat)
    ensures !Bit(0, k)
  {
    if k > 0 { ZeroBit(k - 1); }
  }

  lemma {:induction false} Pow2Bit(k: nat, j: nat)
    ensures Bit(Pow2(k), j) <==> k == j
  {
    if k == 0 {
      if j > 0 { ZeroBit(j - 1); }
    } else if j > 0 {
      Pow2Bit(k - 1, j - 1);
    }
  }

  /** Complementing a word flips each of its 32 bits. */
  lemma {:induction false} NotBit(a: nat, n: nat, k: nat)
    requires a < Pow2(n) && k < n
    ensures Bit(Pow2(n) - 1 - a, k) <==> !Bit(a, k)
  {
    if k > 0 {
      assert (Pow2(n) - 1 - a) / 2 == Pow2(n - 1) - 1 - a / 2;
      NotBit(a / 2, n - 1, k - 1);
    }
  }

  lemma Pow2Is32()
    ensures Pow2(32) == 0x1_0000_0000
  {
    assert Pow2(8) == 256;
    assert Pow2(16) == 256 * Pow2(8);
    assert Pow2(24) == 256 * Pow2(16);
    assert Pow2(32) == 256 * Pow2(24);
  }

  /** `a` is a multiple of 2^k: its low `k` bits are clear. */
  predicate Multiple(a: nat, k: nat) {
    k > 0 ==> a % 2 == 0 && Multiple(a / 2, k - 1)
  }

  /** The largest multiple of 2^k up to `a`. */
  function RoundDown(a: nat, k: nat): (r: nat)
    ensures Multiple(r, k) && r <= a < r + Pow2(k)
  {
    if k == 0 then a else 2 * RoundDown(a / 2, k - 1)
  }

  /** `a & (2^k - 1)` is zero exactly for multiples of 2^k. */
  lemma {:induction false} AndLow(a: nat, k: nat)
    ensures And(a, Pow2(k) - 1) == 0 <==> Multiple(a, k)
  {
    if a == 0 {
      ZeroMultiple(k);
    } else if k > 0 {
      AndLow(a / 2, k - 1);
      AndHalves(a, Pow2(k - 1));
    }
  }

  lemma {:induction false} ZeroMultiple(k: nat)
    ensures Multiple(0, k)
  {
    if k > 0 { ZeroMultiple(k - 1); }
  }

  lemma AndHalves(a: nat, p: nat)
    requires a > 0 && p > 0
    ensures And(a, 2 * p - 1) == 2 * And(a / 2, p - 1) + a % 2
  {
    assert (2 * p - 1) / 2 == p - 1 && (2 * p - 1) % 2 == 1;
  }

  /** `a & ~(2^k - 1)`, on words of `n` bits, rounds `a` down to a multiple of 2^k. */
  lemma {:induction false} AndHigh(a: nat, k: nat, n: nat)
    requires k <= n && a < Pow2(n)
    ensures Pow2(n) >= Pow2(k)
    ensures And(a, Pow2(n) - Pow2(k)) == RoundDown(a, k)
  {
    if n > 0 {
      if k == 0 {
        AndHigh(a / 2, 0, n - 1);
        assert (Pow2(n) - 1) / 2 == Pow2(n - 1) - 1;
      } else {
        AndHigh(a / 2, k - 1, n - 1);
        assert (Pow2(n) - Pow2(k)) / 2 == Pow2(n - 1) - Pow2(k - 1);
      }
    }
  }

  lemma AndHigh32(a: nat, k: nat)
    requires k <= 32 && a <= 0xFFFF_FFFF
    ensures Pow2(k) - 1 <= 0xFFFF_FFFF && And(a, Not32(Pow2(k) - 1)) == RoundDown(a, k)
  {
    Pow2Is32();
    AndHigh(a, k, 32);
    assert Not32(Pow2(k) - 1) == Pow2(32) - Pow2(k);
  }

  /** The sum of a multiple of 2^k and 2^k. */
  lemma {:induction false} NextMultiple(a: nat, k: nat)
    requires Multiple(a, k)
    ensures Multiple(a + Pow2(k), k)
  {
    if k > 0 {
      NextMultiple(a / 2, k - 1);
      assert (a + Pow2(k)) / 2 == a / 2 + Pow2(k - 1);
    }
  }

  /** A multiple of 2^k is one of every smaller power of two. */
  lemma {:induction false} MultipleOfSmaller(a: nat, j: nat, k: nat)
    requires j <= k && Multiple(a, k)
    ensures Multiple(a, j)
  {
    if j > 0 { MultipleOfSmaller(a / 2, j - 1, k - 1); }
  }

  /** A multiple of 2^k other than 0 is at least 2^k. */
  lemma {:induction false} MultipleAtLeast(a: nat, k: nat)
    requires Multiple(a, k) && a > 0
    ensures a >= Pow2(k)
  {
    if k > 0 { MultipleAtLeast(a / 2, k - 1); }
  }

  /** The bitwise notion agrees with division. */
  lemma {:induction false} MultipleIsMod(a: nat, k: nat)
    ensures Multiple(a, k) <==> a % Pow2(k) == 0
  {
    if k > 0 {
      MultipleIsMod(a / 2, k - 1);
      HalfMod(a, Pow2(k - 1));
    }
  }

  lemma HalfMod(a: nat, p: nat)
    requires p > 0
    ensures a % (2 * p) == 2 * ((a / 2) % p) + a % 2
  {
    var (q, r) := ((a / 2) / p, (a / 2) % p);
    assert a / 2 == q * p + r;
    assert a == q * (2 * p) + (2 * r + a % 2);
    ModUnique(a, 2 * p, q, 2 * r + a % 2);
  }

  lemma ModUnique(a: nat, m: nat, q: nat, r: nat)
    requires a == q * m + r && r < m
    ensures a % m == r && a / m == q
  {
    var d := a / m - q;
    assert a == (a / m) * m + a % m;
    assert d * m == r - a % m;
    MulGrows(d, m);
  }

  lemma MulGrows(d: int, m: int)
    requires m > 0
    ensures d > 0 ==> d * m >= m
    ensures d < 0 ==> d * m <= -m
  {
  }

  lemma {:induction false} AndAtMost(a: nat, b: nat)
    ensures And(a, b) <= a
  {
    if a > 0 && b > 0 { AndAtMost(a / 2, b / 2); }
  }

  lemma {:induction false} OrBelow(a: nat, b: nat, n: nat)
    requires a < Pow2(n) && b < Pow2(n)
    ensures Or(a, b) < Pow2(n)
    decreases n
  {
    if n > 0 && a > 0 && b > 0 { OrBelow(a / 2, b / 2, n - 1); }
  }

  lemma {:induction false} Pow2Grows(j: nat, k: nat)
    requires j <= k
    ensures Pow2(j) <= Pow2(k)
    decreases k - j
  {
    if j < k { Pow2Grows(j + 1, k); }
  }
}
