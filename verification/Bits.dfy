/** Bitwise operators on natural numbers, one bit at a time. */
module Bits {
  function Pow2(n: nat): (p: nat)
    ensures p > 0
  {
    if n == 0 then 1 else 2 * Pow2(n - 1)
  }

  function Bit(b: bool): nat { if b then 1 else 0 }

  /** The bits of `a` and `b`, combined one by one. */
  function Bitwise(f: (bool, bool) -> bool, a: nat, b: nat): nat
    requires !f(false, false)
    decreases a + b
  {
    if a == 0 && b == 0 then 0
    else Bit(f(a % 2 == 1, b % 2 == 1)) + 2 * Bitwise(f, a / 2, b / 2)
  }

  predicate Differ(x: bool, y: bool) { x != y }
  predicate Both(x: bool, y: bool) { x && y }
  predicate Either(x: bool, y: bool) { x || y }

  lemma {:induction false} BitwiseFits(f: (bool, bool) -> bool, a: nat, b: nat, n: nat)
    requires !f(false, false) && a < Pow2(n) && b < Pow2(n)
    ensures Bitwise(f, a, b) < Pow2(n)
    decreases n
  {
    if n > 0 && !(a == 0 && b == 0) { BitwiseFits(f, a / 2, b / 2, n - 1); }
  }

  lemma {:induction false} NoBits(a: nat)
    ensures Bitwise(Both, a, 0) == 0
  {
    if a > 0 { NoBits(a / 2); }
  }

  lemma OddMask(a: nat, p: nat)
    requires p > 0
    ensures Bitwise(Both, a, 2 * p - 1) == a % 2 + 2 * Bitwise(Both, a / 2, p - 1)
  {
    assert (2 * p - 1) / 2 == p - 1 && (2 * p - 1) % 2 == 1;
  }

  lemma MaskStep(a: nat, p: nat)
    requires p > 0 && Bitwise(Both, a / 2, p - 1) == a / 2 % p
    ensures Bitwise(Both, a, 2 * p - 1) == a % (2 * p)
  {
    OddMask(a, p);
    RemainderHalves(a, p);
  }

  /** A mask of ones keeps the remainder. */
  lemma {:induction false} MaskIsRemainder(a: nat, n: nat)
    ensures Bitwise(Both, a, Pow2(n) - 1) == a % Pow2(n)
  {
    if n == 0 {
      NoBits(a);
    } else {
      MaskIsRemainder(a / 2, n - 1);
      MaskStep(a, Pow2(n - 1));
    }
  }

  lemma RemainderHalves(a: nat, p: nat)
    requires p > 0
    ensures a % (2 * p) == a % 2 + 2 * (a / 2 % p)
  {
    var q, r := a / 2 / p, a / 2 % p;
    assert a == 2 * (p * q + r) + a % 2;
    assert a == (2 * p) * q + (2 * r + a % 2) by { assert 2 * (p * q) == (2 * p) * q; }
    Remainder(a, 2 * p, q, 2 * r + a % 2);
  }

  lemma AtLeast(p: nat, d: nat)
    requires d > 0
    ensures p * d >= p
  {
  }

  lemma Remainder(a: nat, p: nat, q: nat, r: nat)
    requires a == p * q + r && r < p
    ensures a % p == r
  {
    var d := a / p - q;
    assert p * d == r - a % p by { assert a == p * (a / p) + a % p; }
    if d > 0 { AtLeast(p, d); }
    if d < 0 { AtLeast(p, -d); }
  }

  lemma {:induction false} OrZero(x: nat)
    ensures Bitwise(Either, x, 0) == x
  {
    if x > 0 { OrZero(x / 2); }
  }

  /** Or of numbers without a common bit is their sum. */
  lemma {:induction false} OrIsSum(x: nat, y: nat, n: nat)
    requires y < Pow2(n)
    ensures Bitwise(Either, x * Pow2(n), y) == x * Pow2(n) + y
    decreases n
  {
    if n == 0 {
      OrZero(x);
    } else {
      var p := Pow2(n - 1);
      assert x * Pow2(n) == 2 * (x * p);
      OrIsSum(x, y / 2, n - 1);
    }
  }

  // ---------- single bits ----------

  /** Bit `i` of `x`, counted from the least significant. */
  predicate BitAt(x: nat, i: nat) { if i == 0 then x % 2 == 1 else BitAt(x / 2, i - 1) }

  lemma Halves(y: nat, low: nat, high: nat)
    requires y == low + 2 * high && low < 2
    ensures y % 2 == low && y / 2 == high
  {
  }

  lemma BitwiseHalves(f: (bool, bool) -> bool, a: nat, b: nat)
    requires !f(false, false)
    ensures (Bitwise(f, a, b) % 2 == 1) == f(a % 2 == 1, b % 2 == 1) && Bitwise(f, a, b) / 2 == Bitwise(f, a / 2, b / 2)
  {
    if a > 0 || b > 0 { Halves(Bitwise(f, a, b), Bit(f(a % 2 == 1, b % 2 == 1)), Bitwise(f, a / 2, b / 2)); }
  }

  lemma {:induction false} BitOfBitwise(f: (bool, bool) -> bool, a: nat, b: nat, i: nat)
    requires !f(false, false)
    ensures BitAt(Bitwise(f, a, b), i) == f(BitAt(a, i), BitAt(b, i))
  {
    BitwiseHalves(f, a, b);
    if i > 0 { BitOfBitwise(f, a / 2, b / 2, i - 1); }
  }

  lemma Quotient(a: nat, p: nat, q: nat, r: nat)
    requires a == p * q + r && r < p
    ensures a / p == q
  {
    var d := a / p - q;
    assert p * d == r - a % p by { assert a == p * (a / p) + a % p; }
    if d > 0 { AtLeast(p, d); }
  }

  lemma HalfFirst(x: nat, p: nat)
    requires p > 0
    ensures x / (2 * p) == x / 2 / p
  {
    var q, r := x / 2 / p, x / 2 % p;
    assert x == 2 * (p * q + r) + x % 2;
    assert x == (2 * p) * q + (2 * r + x % 2) by { assert 2 * (p * q) == (2 * p) * q; }
    Quotient(x, 2 * p, q, 2 * r + x % 2);
  }

  lemma {:induction false} BitOfQuotient(x: nat, n: nat, i: nat)
    ensures x / Pow2(n) >= 0 && BitAt(x / Pow2(n), i) == BitAt(x, i + n)
    decreases n
  {
    if n > 0 {
      HalfFirst(x, Pow2(n - 1));
      BitOfQuotient(x / 2, n - 1, i);
    }
  }

  lemma {:induction false} BitOfProduct(x: nat, n: nat, i: nat)
    ensures x * Pow2(n) >= 0 && BitAt(x * Pow2(n), i) == (i >= n && BitAt(x, i - n))
    decreases n
  {
    if n > 0 {
      var y := x * Pow2(n - 1);
      assert x * Pow2(n) == 2 * y;
      if i > 0 { BitOfProduct(x, n - 1, i - 1); }
    }
  }

  lemma {:induction false} BitOfRemainder(x: nat, n: nat, i: nat)
    requires i < n
    ensures BitAt(x % Pow2(n), i) == BitAt(x, i)
  {
    var p := Pow2(n - 1);
    RemainderHalves(x, p);
    Halves(x % Pow2(n), x % 2, x / 2 % p);
    if i > 0 { BitOfRemainder(x / 2, n - 1, i - 1); }
  }

  lemma {:induction false} NoBit(i: nat)
    ensures !BitAt(0, i)
  {
    if i > 0 { NoBit(i - 1); }
  }

  lemma {:induction false} BitAbove(x: nat, n: nat, i: nat)
    requires x < Pow2(n) && i >= n
    ensures !BitAt(x, i)
  {
    if n > 0 { BitAbove(x / 2, n - 1, i - 1); } else { NoBit(i); }
  }

  lemma {:induction false} BitOfComplement(x: nat, n: nat, i: nat)
    requires x < Pow2(n) && i < n
    ensures BitAt(Pow2(n) - 1 - x, i) == !BitAt(x, i)
  {
    assert (Pow2(n) - 1 - x) / 2 == Pow2(n - 1) - 1 - x / 2;
    if i > 0 { BitOfComplement(x / 2, n - 1, i - 1); }
  }

  /** Numbers of `n` bits with the same bits are equal. */
  lemma {:induction false} SameBits(x: nat, y: nat, n: nat)
    requires x < Pow2(n) && y < Pow2(n) && forall i: nat :: i < n ==> BitAt(x, i) == BitAt(y, i)
    ensures x == y
  {
    if n > 0 {
      assert BitAt(x, 0) == BitAt(y, 0);
      forall i: nat | i < n - 1 ensures BitAt(x / 2, i) == BitAt(y / 2, i) {
        assert BitAt(x, i + 1) == BitAt(y, i + 1);
      }
      SameBits(x / 2, y / 2, n - 1);
    }
  }
}
