/** Bitwise operations on unsigned integers of any width, and powers of two. */
module Bits {
  import opened LinearIndex

  function Pow2(n: nat): (p: nat)
    ensures p > 0
  {
    if n == 0 then 1 else 2 * Pow2(n - 1)
  }

  lemma {:induction false} DoubledProduct(x: nat, y: nat)
    ensures 2 * x * y == 2 * (x * y)
  {
  }

  lemma {:induction false} Pow2Sum(a: nat, b: nat)
    ensures Pow2(a + b) == Pow2(a) * Pow2(b)
  {
    if a > 0 {
      Pow2Sum(a - 1, b);
      DoubledProduct(Pow2(a - 1), Pow2(b));
    }
  }

  lemma {:induction false} Pow2Monotone(a: nat, b: nat)
    requires a <= b
    ensures Pow2(a) <= Pow2(b)
    decreases b
  {
    if a < b {
      Pow2Monotone(a, b - 1);
    }
  }

  lemma {:induction false} Pow2Values()
    ensures Pow2(30) == 0x4000_0000 && Pow2(31) == 0x8000_0000
    ensures Pow2(62) == 0x4000_0000_0000_0000 && Pow2(63) == 0x8000_0000_0000_0000
  {
    assert Pow2(5) == 32 by {
      assert Pow2(1) == 2 && Pow2(2) == 4 && Pow2(3) == 8 && Pow2(4) == 16;
    }
    Pow2Sum(5, 5);
    Pow2Sum(10, 10);
    Pow2Sum(20, 10);
    Pow2Sum(31, 31);
  }

  // ----- bit by bit

  function BAnd(x: nat, y: nat): nat
    decreases x + y
  {
    if x == 0 && y == 0 then 0 else (if x % 2 == 1 && y % 2 == 1 then 1 else 0) + 2 * BAnd(x / 2, y / 2)
  }

  function BOr(x: nat, y: nat): nat
    decreases x + y
  {
    if x == 0 && y == 0 then 0 else (if x % 2 == 1 || y % 2 == 1 then 1 else 0) + 2 * BOr(x / 2, y / 2)
  }

  function BXor(x: nat, y: nat): nat
    decreases x + y
  {
    if x == 0 && y == 0 then 0 else (if x % 2 != y % 2 then 1 else 0) + 2 * BXor(x / 2, y / 2)
  }

  lemma {:induction false} AndTwice(x: nat, y: nat)
    ensures BAnd(BAnd(x, y), y) == BAnd(x, y)
    decreases x + y
  {
    if x != 0 || y != 0 {
      AndTwice(x / 2, y / 2);
    }
  }

  lemma {:induction false} OrTwice(x: nat, y: nat)
    ensures BOr(BOr(x, y), y) == BOr(x, y)
    decreases x + y
  {
    if x != 0 || y != 0 {
      OrTwice(x / 2, y / 2);
    }
  }

  lemma {:induction false} XorTwice(x: nat, y: nat)
    ensures BXor(BXor(x, y), y) == x
    decreases x + y
  {
    if x != 0 || y != 0 {
      XorTwice(x / 2, y / 2);
      XorStep(x, y);
      XorStep(BXor(x, y), y);
    }
  }

  lemma {:induction false} XorStep(x: nat, y: nat)
    ensures BXor(x, y) / 2 == BXor(x / 2, y / 2)
    ensures BXor(x, y) % 2 == if x % 2 != y % 2 then 1 else 0
  {
  }

  /** Results stay within the operands' width. */
  lemma {:induction false} BitsWithin(x: nat, y: nat, n: nat)
    requires x < Pow2(n) && y < Pow2(n)
    ensures BAnd(x, y) < Pow2(n) && BOr(x, y) < Pow2(n) && BXor(x, y) < Pow2(n)
    decreases n
  {
    if n > 0 {
      BitsWithin(x / 2, y / 2, n - 1);
    }
  }

  /** Masking with n ones is the remainder modulo 2^n. */
  lemma {:induction false} MaskIsRemainder(v: nat, n: nat)
    ensures BAnd(v, Pow2(n) - 1) == v % Pow2(n)
    decreases n
  {
    if n == 0 {
      AndZero(v);
      assert v % 1 == 0;
    } else {
      var p := Pow2(n - 1);
      assert (2 * p - 1) / 2 == p - 1 && (2 * p - 1) % 2 == 1;
      MaskIsRemainder(v / 2, n - 1);
      HalfRemainder(v, p);
      if v == 0 {
        assert BAnd(0, 2 * p - 1) == 2 * BAnd(0, p - 1);
      }
    }
  }

  lemma {:induction false} AndZero(v: nat)
    ensures BAnd(v, 0) == 0
    decreases v
  {
    if v > 0 {
      AndZero(v / 2);
    }
  }

  lemma {:induction false} HalfRemainder(v: nat, p: nat)
    requires p > 0
    ensures v % (2 * p) == v % 2 + 2 * (v / 2 % p)
  {
    var h := v / 2;
    var q, r := h / p, v % 2 + 2 * (h % p);
    assert h == q * p + h % p;
    assert v == q * (2 * p) + r;
    DivModUnique(q, 2 * p, r);
  }

  // ----- bit by bit

  /** Bit k of a number. */
  function Bit(v: nat, k: nat): nat {
    v / Pow2(k) % 2
  }

  lemma {:induction false} BitOfHalf(v: nat, k: nat)
    ensures Bit(v, 0) == v % 2 && Bit(v, k + 1) == Bit(v / 2, k)
  {
    var p := Pow2(k);
    var q, r := v / 2 / p, v / 2 % p;
    DoubledProduct(q, p);
    assert v / 2 == q * p + r;
    assert v == q * (2 * p) + (2 * r + v % 2);
    DivModUnique(q, 2 * p, 2 * r + v % 2);
  }

  /** Every bit of the conjunction, the disjunction and the exclusive disjunction. */
  lemma {:induction false} BitOfOperations(x: nat, y: nat, k: nat)
    ensures Bit(BAnd(x, y), k) == (if Bit(x, k) == 1 && Bit(y, k) == 1 then 1 else 0)
    ensures Bit(BOr(x, y), k) == (if Bit(x, k) == 1 || Bit(y, k) == 1 then 1 else 0)
    ensures Bit(BXor(x, y), k) == (if Bit(x, k) != Bit(y, k) then 1 else 0)
    decreases k
  {
    hide Bit;
    Halves(x, y);
    var i := if k == 0 then 0 else k - 1;
    BitOfHalf(x, i);
    BitOfHalf(y, i);
    BitOfHalf(BAnd(x, y), i);
    BitOfHalf(BOr(x, y), i);
    BitOfHalf(BXor(x, y), i);
    if k > 0 {
      BitOfOperations(x / 2, y / 2, k - 1);
    }
  }

  lemma {:induction false} Halves(x: nat, y: nat)
    ensures BAnd(x, y) / 2 == BAnd(x / 2, y / 2) && BAnd(x, y) % 2 == if x % 2 == 1 && y % 2 == 1 then 1 else 0
    ensures BOr(x, y) / 2 == BOr(x / 2, y / 2) && BOr(x, y) % 2 == if x % 2 == 1 || y % 2 == 1 then 1 else 0
    ensures BXor(x, y) / 2 == BXor(x / 2, y / 2) && BXor(x, y) % 2 == if x % 2 != y % 2 then 1 else 0
  {
    XorStep(x, y);
  }

  /** Common bits are counted twice, different ones once. */
  lemma {:induction false} BitSums(x: nat, y: nat)
    ensures BAnd(x, y) + BOr(x, y) == x + y && BXor(x, y) + 2 * BAnd(x, y) == x + y
    decreases x + y
  {
    if x != 0 || y != 0 {
      BitSums(x / 2, y / 2);
    }
  }
}
