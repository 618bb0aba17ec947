/** Bitwise operations on unbounded naturals, bit by bit. */
module Bits {

  function Pow2(n: nat): (p: nat)
    ensures p >= 1
  {
    if n == 0 then 1 else 2 * Pow2(n - 1)
  }

  lemma PowStep(n: nat)
    requires n > 0
    ensures Pow2(n) == 2 * Pow2(n - 1)
  {
  }

  lemma QuotientNat(x: nat, p: nat)
    requires p >= 1
    ensures x / p >= 0
  {
  }

  function Shr(x: nat, n: nat): nat {
    QuotientNat(x, Pow2(n));
    x / Pow2(n)
  }

  function Bit(x: nat, i: nat): nat { (x / Pow2(i)) % 2 }

  function Or(a: nat, b: nat): nat
    decreases a + b
  {
    if a == 0 && b == 0 then 0
    else (if a % 2 == 1 || b % 2 == 1 then 1 else 0) + 2 * Or(a / 2, b / 2)
  }

  lemma {:induction false} PowSum(a: nat, b: nat)
    ensures Pow2(a + b) == Pow2(a) * Pow2(b)
  {
    if a > 0 {
      PowSum(a - 1, b);
      assert Pow2(a) * Pow2(b) == 2 * (Pow2(a - 1) * Pow2(b));
    }
  }

  lemma {:induction false} PowLess(a: nat, b: nat)
    requires a <= b
    ensures Pow2(a) <= Pow2(b)
  {
    if a < b {
      PowLess(a, b - 1);
    }
  }

  lemma {:induction false} OrZero(a: nat)
    ensures Or(a, 0) == a && Or(0, a) == a
  {
    if a > 0 {
      OrZero(a / 2);
    }
  }

  lemma OrEven(a: nat, c: nat)
    ensures Or(a, 2 * c) == a % 2 + 2 * Or(a / 2, c)
    ensures Or(2 * c, a) == a % 2 + 2 * Or(c, a / 2)
  {
    assert (2 * c) / 2 == c && (2 * c) % 2 == 0;
  }

  /** Setting bits above all that are set is addition. */
  lemma {:induction false} OrAbove(a: nat, n: nat, b: nat)
    requires a < Pow2(n)
    ensures Or(a, b * Pow2(n)) == a + b * Pow2(n)
    ensures Or(b * Pow2(n), a) == a + b * Pow2(n)
  {
    hide Or;
    if n == 0 {
      OrZero(b);
    } else {
      var c := b * Pow2(n - 1);
      Doubled(b, Pow2(n - 1));
      OrEven(a, c);
      OrAbove(a / 2, n - 1, b);
    }
  }

  lemma Doubled(b: nat, p: nat)
    ensures b * (2 * p) == 2 * (b * p)
  {
  }

  // --------------------------------------------------------------------- exclusive or

  function XorBit(a: nat, b: nat): nat { if a % 2 == b % 2 then 0 else 1 }

  function Xor(a: nat, b: nat): nat
    decreases a + b
  {
    if a == 0 && b == 0 then 0 else XorBit(a, b) + 2 * Xor(a / 2, b / 2)
  }

  lemma XorUnfold(a: nat, b: nat)
    ensures Xor(a, b) == XorBit(a, b) + 2 * Xor(a / 2, b / 2)
  {
  }

  lemma XorStep(a: nat, b: nat)
    ensures Xor(a, b) == XorBit(a, b) + 2 * Xor(a / 2, b / 2)
    ensures Xor(a, b) % 2 == XorBit(a, b) && Xor(a, b) / 2 == Xor(a / 2, b / 2)
  {
    hide Xor;
    XorUnfold(a, b);
    LastAndRest(XorBit(a, b), Xor(a / 2, b / 2));
  }

  lemma LastAndRest(a: nat, r: nat)
    requires a < 2
    ensures (a + 2 * r) % 2 == a && (a + 2 * r) / 2 == r
  {
  }

  lemma {:induction false} XorTwice(a: nat, b: nat)
    ensures Xor(Xor(a, b), b) == a
    decreases a + b
  {
    if a + b > 0 {
      XorTwice(a / 2, b / 2);
      XorStep(a, b);
      XorStep(Xor(a, b), b);
    }
  }

  lemma {:induction false} XorBelow(a: nat, b: nat, n: nat)
    requires a < Pow2(n) && b < Pow2(n)
    ensures Xor(a, b) < Pow2(n)
  {
    hide Xor;
    if n == 0 {
      assert Xor(0, 0) == 0 by { XorZeros(); }
    } else {
      XorBelow(a / 2, b / 2, n - 1);
      XorStep(a, b);
    }
  }

  lemma XorZeros()
    ensures Xor(0, 0) == 0
  {
  }

  /** A word folded over itself: `z ^ (z >> shift)`. */
  function XorShift(z: nat, shift: nat): nat { Xor(z, Shr(z, shift)) }

  /** The word whose fold is `y`: its bits are found from the top down. */
  function Unshift(y: nat, shift: nat): nat
    requires shift > 0
  {
    if y == 0 then 0
    else
      var rest := Unshift(y / 2, shift);
      2 * rest + XorBit(y, Shr(rest, shift - 1))
  }
}
