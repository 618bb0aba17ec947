/** What the ear test's triangle test decides. */
module EarMeaning {
  import opened Reals
  import opened RegionMeaning
  import EarClip

  type Point = (real, real)

  lemma SidesAreAreas(p: Point, a: Point, b: Point, c: Point)
    ensures EarClip.SideOf(p, a, b) == Orient(a, b, p) && EarClip.SideOf(p, b, c) == Orient(b, c, p)
    ensures EarClip.SideOf(p, c, a) == Orient(c, a, p) && EarClip.Turn(a, b, c) == Orient(a, b, c)
  {
    SideIsArea(p, a, b);
    SideIsArea(p, b, c);
    SideIsArea(p, c, a);
  }

  lemma SideIsArea(p: Point, a: Point, b: Point)
    ensures EarClip.SideOf(p, a, b) == Orient(a, b, p)
  {
    var x, y, u, v := p.0 - b.0, p.1 - b.1, a.0 - b.0, a.1 - b.1;
    assert Orient(a, b, p) == -u * (y - v) + v * (x - u);
    assert -u * (y - v) + v * (x - u) == x * v - u * y;
  }

  /** The three areas make up the triangle's. */
  lemma AreasAddUp(p: Point, a: Point, b: Point, c: Point)
    ensures Orient(a, b, p) + Orient(b, c, p) + Orient(c, a, p) == Orient(a, b, c)
  {
  }

  /** In one coordinate, the corners weighed by the opposite areas average to the point. */
  lemma Cramer(p: Point, a: Point, b: Point, c: Point)
    ensures Orient(b, c, p) * a.0 + Orient(c, a, p) * b.0 + Orient(a, b, p) * c.0 == Orient(a, b, c) * p.0
    ensures Orient(b, c, p) * a.1 + Orient(c, a, p) * b.1 + Orient(a, b, p) * c.1 == Orient(a, b, c) * p.1
  {
  }

  lemma Quotient(x: real, d: real, n: real)
    requires d > 0.0 && n == d * x
    ensures n / d == x
  {
  }

  lemma WeightsOf(p: Point, a: Point, b: Point, c: Point)
    requires Orient(a, b, c) > 0.0
    ensures var d := Orient(a, b, c);
      Weighed(p, a, b, c, Orient(b, c, p) / d, Orient(c, a, p) / d, Orient(a, b, p) / d)
  {
    var d, da, db, dc := Orient(a, b, c), Orient(b, c, p), Orient(c, a, p), Orient(a, b, p);
    AreasAddUp(p, a, b, c);
    Cramer(p, a, b, c);
    hide Orient;
    ThreeQuotients(da, db, dc, 1.0, 1.0, 1.0, d, 1.0);
    ThreeQuotients(da, db, dc, a.0, b.0, c.0, d, p.0);
    ThreeQuotients(da, db, dc, a.1, b.1, c.1, d, p.1);
  }

  lemma ThreeQuotients(da: real, db: real, dc: real, a: real, b: real, c: real, d: real, p: real)
    requires d > 0.0 && da * a + db * b + dc * c == d * p
    ensures da / d * a + db / d * b + dc / d * c == p
  {
    var qa, qb, qc := da / d, db / d, dc / d;
    assert qa * d == da && qb * d == db && qc * d == dc;
    var s := qa * a + qb * b + qc * c;
    assert s * d == qa * d * a + qb * d * b + qc * d * c;
    assert s * d == d * p;
    assert (s - p) * d == 0.0;
    if s > p { StrictScale(p, s, d); }
    if s < p { StrictScale(s, p, d); }
  }

  /** For a triangle that turns the positive way, the test holds exactly of the averages of its
      corners with no negative weight. */
  lemma InTriangleExactly(p: Point, a: Point, b: Point, c: Point)
    requires EarClip.Turn(a, b, c) > 0.0
    ensures EarClip.PointInTriangle(p, a, b, c)
       <==> exists wa: real, wb: real, wc: real :: wa >= 0.0 && wb >= 0.0 && wc >= 0.0 && Weighed(p, a, b, c, wa, wb, wc)
  {
    SidesAreAreas(p, a, b, c);
    AreasAddUp(p, a, b, c);
    var d, da, db, dc := Orient(a, b, c), Orient(b, c, p), Orient(c, a, p), Orient(a, b, p);
    hide Orient, EarClip.SideOf, EarClip.Turn;
    if EarClip.PointInTriangle(p, a, b, c) {
      WeightsOf(p, a, b, c);
      NotNegativeShare(da, d);
      NotNegativeShare(db, d);
      NotNegativeShare(dc, d);
    }
    if wa: real, wb: real, wc: real :| wa >= 0.0 && wb >= 0.0 && wc >= 0.0 && Weighed(p, a, b, c, wa, wb, wc) {
      WeightIsShare(p, a, b, c, wa, wb, wc);
      OppositeShares(p, a, b, c, wa, wb, wc);
      NotNegative(wa, d);
      NotNegative(wb, d);
      NotNegative(wc, d);
    }
  }

  lemma NotNegativeShare(n: real, d: real)
    requires n >= 0.0 && d > 0.0
    ensures n / d >= 0.0
  {
    ScaledBelow(n / d, d);
  }
}
