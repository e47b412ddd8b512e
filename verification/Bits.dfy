/** Bytes as numbers, with bitwise AND on binary digits. */
module Bits {
  type byte = x: int | 0 <= x < 0x100
  type u16 = x: int | 0 <= x < 0x1_0000
  type u32 = x: int | 0 <= x < 0x1_0000_0000

  /** The lowest digit of And. */
  function Bit(x: nat, y: nat): nat { if x % 2 == 1 && y % 2 == 1 then 1 else 0 }

  function And(x: nat, y: nat): (r: nat)
    ensures r <= x && r <= y
  {
    if x == 0 || y == 0 then 0 else Bit(x, y) + 2 * And(x / 2, y / 2)
  }

  /** All bits set in x are set in y. */
  predicate Within(x: nat, y: nat) { And(x, y) == x }

  lemma Digits(x: nat, y: nat)
    ensures And(x, y) % 2 == Bit(x, y)
    ensures And(x, y) / 2 == And(x / 2, y / 2)
  {
  }

  lemma {:induction false} AndSelf(x: nat)
    ensures And(x, x) == x
  {
    if x > 0 {
      AndSelf(x / 2);
    }
  }

  lemma {:induction false} AndCommutes(x: nat, y: nat)
    ensures And(x, y) == And(y, x)
  {
    if x > 0 && y > 0 {
      AndCommutes(x / 2, y / 2);
    }
  }

  lemma {:induction false} AndAssociates(x: nat, y: nat, z: nat)
    ensures And(And(x, y), z) == And(x, And(y, z))
  {
    if x > 0 && y > 0 && z > 0 {
      Digits(x, y);
      Digits(y, z);
      AndAssociates(x / 2, y / 2, z / 2);
    }
  }

  lemma {:induction false} AndOnes(d: byte)
    ensures And(0xFF, d) == d
  {
    AndMask(8, d);
  }

  function Pow2(n: nat): (p: nat)
    ensures p > 0
  {
    if n == 0 then 1 else 2 * Pow2(n - 1)
  }

  lemma {:induction false} AndMask(n: nat, d: nat)
    requires d < Pow2(n)
    ensures And(Pow2(n) - 1, d) == d
  {
    if n > 0 && d > 0 {
      AndMask(n - 1, d / 2);
      assert (Pow2(n) - 1) / 2 == Pow2(n - 1) - 1 && (Pow2(n) - 1) % 2 == 1;
    }
  }

  lemma AndWithin(x: nat, y: nat)
    ensures Within(And(x, y), x) && Within(And(x, y), y)
  {
    AndSelf(x);
    AndSelf(y);
    AndAssociates(x, y, y);
    AndCommutes(x, y);
    AndAssociates(y, x, x);
  }

  lemma WithinTrans(x: nat, y: nat, z: nat)
    requires Within(x, y) && Within(y, z)
    ensures Within(x, z)
  {
    AndAssociates(x, y, z);
  }

  predicate TestBit(x: nat, k: nat) {
    if k == 0 then x % 2 == 1 else TestBit(x / 2, k - 1)
  }

  lemma {:induction false} AndBit(x: nat, k: nat)
    ensures And(x, Pow2(k)) != 0 <==> TestBit(x, k)
  {
    if k > 0 {
      AndBit(x / 2, k - 1);
      assert Pow2(k) / 2 == Pow2(k - 1) && Pow2(k) % 2 == 0;
    }
    NoBits(x, k);
  }

  /** AND bit by bit. */
  lemma {:induction false} AndTestBit(x: nat, y: nat, k: nat)
    ensures TestBit(And(x, y), k) <==> TestBit(x, k) && TestBit(y, k)
  {
    NoBits(x, k);
    NoBits(y, k);
    NoBits(And(x, y), k);
    if k > 0 && x > 0 && y > 0 {
      Digits(x, y);
      AndTestBit(x / 2, y / 2, k - 1);
    }
  }

  lemma {:induction false} NoBits(x: nat, k: nat)
    ensures x == 0 ==> !TestBit(x, k)
  {
    if k > 0 {
      NoBits(x / 2, k - 1);
    }
  }

  lemma Quotient(x: nat, y: nat, q: nat)
    requires y > 0
    ensures x / y == q <==> q * y <= x < (q + 1) * y
  {
    var r := x % y;
    assert x == x / y * y + r;
    if x / y == q {
      assert (q + 1) * y == q * y + y;
    } else if q < x / y {
      MulGap(q + 1, x / y, y);
    } else {
      MulGap(x / y + 1, q, y);
      assert (x / y + 1) * y == x / y * y + y;
    }
  }

  lemma QuotientAtMost(x: nat, y: nat)
    requires y > 0
    ensures 0 <= x / y <= x
  {
    Quotient(x, y, x / y);
    MulGap(1, y, x / y);
  }

  lemma MulGap(a: nat, b: nat, y: nat)
    requires a <= b
    ensures a * y <= b * y
  {
  }

  /** Where a quotient lies when the number is bracketed. */
  lemma QuotientBetween(x: nat, y: nat, lo: nat, hi: nat)
    requires y > 0 && lo * y <= x < hi * y
    ensures lo <= x / y < hi
  {
    Quotient(x, y, x / y);
    if x / y < lo {
      MulGap(x / y + 1, lo, y);
    }
    if x / y >= hi {
      MulGap(hi, x / y, y);
    }
  }

  /** Numbers of n digits are equal if their digits are. */
  lemma {:induction false} SameBits(x: nat, y: nat, n: nat)
    requires x < Pow2(n) && y < Pow2(n)
    requires forall k: nat :: k < n ==> (TestBit(x, k) <==> TestBit(y, k))
    ensures x == y
  {
    if n > 0 {
      assert TestBit(x, 0) <==> TestBit(y, 0);
      forall k: nat | k < n - 1
        ensures TestBit(x / 2, k) <==> TestBit(y / 2, k)
      {
        assert TestBit(x, k + 1) <==> TestBit(y, k + 1);
      }
      SameBits(x / 2, y / 2, n - 1);
    }
  }

  /** Logical shift right. */
  function Shr(x: nat, n: nat): nat { if n == 0 then x else Shr(x / 2, n - 1) }

  lemma {:induction false} ShrIsDiv(x: nat, n: nat)
    ensures Shr(x, n) == x / Pow2(n)
  {
    if n > 0 {
      ShrIsDiv(x / 2, n - 1);
      DivHalf(x, Pow2(n - 1));
    }
  }

  lemma DivHalf(x: nat, p: nat)
    requires p > 0
    ensures x / 2 / p == x / (2 * p)
  {
    var q := x / 2 / p;
    Quotient(x / 2, p, q);
    assert q * (2 * p) == 2 * (q * p) && (q + 1) * (2 * p) == 2 * ((q + 1) * p);
    Quotient(x, 2 * p, q);
  }

  /** The one way to write x as a multiple of p and a rest. */
  lemma DivModUnique(x: nat, p: nat, q: nat, r: nat)
    requires p > 0 && x == q * p + r && r < p
    ensures x / p == q && x % p == r
  {
    assert (q + 1) * p == q * p + p;
    Quotient(x, p, q);
  }

  lemma ModSmall(x: nat, p: nat)
    requires x < p
    ensures x % p == x
  {
  }
}
