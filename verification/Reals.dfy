/** Products and quotients of real numbers. */
module Reals {

  lemma RealScale(a: real, b: real, k: real)
    requires a <= b && k >= 0.0
    ensures a * k <= b * k
  {
    NotNegative(b - a, k);
    assert (b - a) * k == b * k - a * k;
  }

  lemma StrictScale(a: real, b: real, k: real)
    requires a < b && k > 0.0
    ensures a * k < b * k
  {
    assert (b - a) * k > 0.0;
    assert (b - a) * k == b * k - a * k;
  }

  lemma NotNegative(a: real, b: real)
    requires a >= 0.0 && b >= 0.0
    ensures a * b >= 0.0
  {
  }

  lemma ScaledBy(q: real, r: real, s: real, extent: real)
    requires s > 0.0 && q * s == extent
    ensures q <= r <==> extent <= r * s
  {
    if q <= r {
      RealScale(q, r, s);
    } else {
      StrictScale(r, q, s);
    }
  }

  lemma ScaledBelow(q: real, s: real)
    requires s > 0.0
    ensures 0.0 <= q <==> 0.0 <= q * s
  {
    if q < 0.0 {
      StrictScale(q, 0.0, s);
    } else {
      RealScale(0.0, q, s);
    }
  }

  lemma Scaled(r: real, s: real, extent: real)
    requires s > 0.0
    ensures extent / s <= r <==> extent <= r * s
  {
    ScaledBy(extent / s, r, s, extent);
  }

  /** A part of a positive whole lies between zero and one. */
  lemma PartOf(part: real, whole: real)
    requires 0.0 <= part <= whole && whole > 0.0
    ensures 0.0 <= part / whole <= 1.0
  {
    var q := part / whole;
    assert q * whole == part;
    ScaledBy(q, 1.0, whole, part);
    ScaledBelow(q, whole);
  }
}
