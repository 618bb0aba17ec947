/**
 * What the pieces of the region lookup mean: a crossing by the side of the edge's line, a triangle
 * by its barycentric weights, a bounding box by its corners, a bucket by its cells, and the
 * combined loss by the chance that no region takes the signal.
 */
module RegionMeaning {
  import opened Bytes
  import opened Reals
  import opened Region

  // -------------------------------------------------------------------------- crossings

  /** Twice the signed area of `u`, `v`, `p`: positive when `p` lies left of the way from `u` to `v`. */
  function Orient(u: Point, v: Point, p: Point): real {
    (v.0 - u.0) * (p.1 - u.1) - (v.1 - u.1) * (p.0 - u.0)
  }

  /** One end is above the point's height and the other is not, and the point lies left of the
      way up along the edge. */
  predicate LeftOfEdge(p: Point, u: Point, v: Point) {
    || (u.1 <= p.1 && v.1 > p.1 && Orient(u, v, p) > 0.0)
    || (v.1 <= p.1 && u.1 > p.1 && Orient(v, u, p) > 0.0)
  }

  /** Two numbers compare as their products with a positive one. */
  lemma Compare(d: real, q: real, e: real)
    requires e > 0.0
    ensures d < q <==> d * e < q * e
  {
    if d < q {
      StrictScale(d, q, e);
    } else {
      RealScale(q, d, e);
    }
  }

  /** A quotient on one side of an inequality, with the denominator's sign. */
  lemma BelowQuotient(d: real, n: real, e: real, w: real)
    requires e != 0.0
    ensures e > 0.0 ==> (d < n / e * w <==> d * e < n * w)
    ensures e < 0.0 ==> (d < n / e * w <==> d * e > n * w)
  {
    var q := n / e;
    assert q * e == n;
    Reordered(q, w, e);
    if e > 0.0 {
      Compare(d, q * w, e);
    } else {
      Negate(d, e);
      Negate(q * w, e);
      Compare(d, q * w, -e);
    }
  }

  lemma Reordered(q: real, w: real, e: real)
    ensures q * w * e == q * e * w
  {
  }

  lemma Negate(d: real, e: real)
    ensures d * -e == -(d * e)
  {
  }

  lemma CrossesByProduct(x: real, y: real, p: Point, q: Point)
    ensures Crosses(x, y, p, q) ==> (p.1 > y) != (q.1 > y)
    ensures p.1 <= y < q.1 ==> (Crosses(x, y, p, q) <==> (x - p.0) * (q.1 - p.1) < (y - p.1) * (q.0 - p.0))
    ensures q.1 <= y < p.1 ==> (Crosses(x, y, p, q) <==> (x - p.0) * (q.1 - p.1) > (y - p.1) * (q.0 - p.0))
  {
    if (p.1 > y) != (q.1 > y) {
      BelowQuotient(x - p.0, y - p.1, q.1 - p.1, q.0 - p.0);
    }
  }

  lemma OrientTurned(u: Point, v: Point, p: Point)
    ensures Orient(v, u, p) == -Orient(u, v, p)
  {
  }

  /** An edge is crossed exactly when the point lies left of the way up along it. */
  lemma CrossesIsLeft(p: Point, u: Point, v: Point)
    ensures Crosses(p.0, p.1, u, v) <==> LeftOfEdge(p, u, v)
  {
    CrossesByProduct(p.0, p.1, u, v);
    OrientTurned(u, v, p);
    assert Orient(u, v, p) == (p.1 - u.1) * (v.0 - u.0) - (p.0 - u.0) * (v.1 - u.1);
  }

  // -------------------------------------------------------------------------- triangles

  /** The point is the average of the corners with these weights. */
  predicate Weighed(p: Point, a: Point, b: Point, c: Point, wa: real, wb: real, wc: real) {
    && wa + wb + wc == 1.0
    && p.0 == wa * a.0 + wb * b.0 + wc * c.0
    && p.1 == wa * a.1 + wb * b.1 + wc * c.1
  }

  /** Each weight is the share of the area opposite its corner. */
  lemma WeightIsShare(p: Point, a: Point, b: Point, c: Point, wa: real, wb: real, wc: real)
    requires Weighed(p, a, b, c, wa, wb, wc)
    ensures Orient(b, c, p) == wa * Orient(a, b, c)
  {
    var u, v := c.0 - b.0, c.1 - b.1;
    assert wa == 1.0 - wb - wc;
    assert p.1 - b.1 == wa * (a.1 - b.1) + wc * v by { Combine(wa, wb, wc, a.1, b.1, c.1); }
    assert p.0 - b.0 == wa * (a.0 - b.0) + wc * u by { Combine(wa, wb, wc, a.0, b.0, c.0); }
    Determinant(u, v, wa, wc, a.0 - b.0, a.1 - b.1);
    assert Orient(a, b, c) == u * (a.1 - b.1) - v * (a.0 - b.0) by { Rotated(a, b, c); }
  }

  lemma Combine(wa: real, wb: real, wc: real, a: real, b: real, c: real)
    requires wa + wb + wc == 1.0
    ensures wa * a + wb * b + wc * c - b == wa * (a - b) + wc * (c - b)
  {
    assert wb * b == b - wa * b - wc * b by { assert (wa + wb + wc) * b == b; }
  }

  lemma Determinant(u: real, v: real, wa: real, wc: real, dx: real, dy: real)
    ensures u * (wa * dy + wc * v) - v * (wa * dx + wc * u) == wa * (u * dy - v * dx)
  {
    assert u * (wa * dy + wc * v) == wa * (u * dy) + wc * (u * v);
    assert v * (wa * dx + wc * u) == wa * (v * dx) + wc * (u * v);
  }

  lemma Rotated(a: Point, b: Point, c: Point)
    ensures Orient(a, b, c) == (c.0 - b.0) * (a.1 - b.1) - (c.1 - b.1) * (a.0 - b.0)
    ensures Orient(a, b, c) == Orient(b, c, a)
  {
  }

  lemma Signs(a: real, b: real)
    ensures a > 0.0 && b > 0.0 ==> a * b > 0.0
    ensures a < 0.0 && b > 0.0 ==> a * b < 0.0
    ensures a > 0.0 && b < 0.0 ==> a * b < 0.0
    ensures a < 0.0 && b < 0.0 ==> a * b > 0.0
    ensures a == 0.0 || b == 0.0 ==> a * b == 0.0
    ensures a >= 0.0 && b >= 0.0 ==> a * b >= 0.0
    ensures a <= 0.0 && b >= 0.0 ==> a * b <= 0.0
  {
    if a > 0.0 && b > 0.0 { StrictScale(0.0, a, b); }
    if a < 0.0 && b > 0.0 { StrictScale(a, 0.0, b); }
    if a > 0.0 && b < 0.0 { StrictScale(0.0, a, -b); assert a * -b == -(a * b); }
    if a < 0.0 && b < 0.0 { StrictScale(a, 0.0, -b); assert a * -b == -(a * b); }
  }

  /** The weights' moments about the point's height balance. */
  lemma Balance(wa: real, wb: real, wc: real, a: real, b: real, c: real, y: real)
    requires wa + wb + wc == 1.0 && y == wa * a + wb * b + wc * c
    ensures wa * (a - y) + wb * (b - y) + wc * (c - y) == 0.0
  {
    assert (wa + wb + wc) * y == y;
    assert wa * (a - y) == wa * a - wa * y && wb * (b - y) == wb * b - wb * y && wc * (c - y) == wc * c - wc * y;
  }

  /** One corner above and two at or below: how the weights of the two others may stand. */
  lemma LoneAbove(wa: real, wb: real, wc: real, a: real, b: real, c: real, y: real)
    requires wa + wb + wc == 1.0 && y == wa * a + wb * b + wc * c
    requires a > y && b <= y && c <= y
    ensures wa < 0.0 || wb < 0.0 || wc < 0.0 ==> (wc < 0.0 <==> wb > 0.0) && (wb < 0.0 <==> wc > 0.0)
  {
    Balance(wa, wb, wc, a, b, c, y);
    Signs(wa, a - y);
    Signs(wb, y - b);
    Signs(wc, y - c);
    assert wb * (b - y) == -(wb * (y - b)) && wc * (c - y) == -(wc * (y - c));
  }

  /** One corner at or below and two above. */
  lemma LoneBelow(wa: real, wb: real, wc: real, a: real, b: real, c: real, y: real)
    requires wa + wb + wc == 1.0 && y == wa * a + wb * b + wc * c
    requires a <= y && b > y && c > y
    ensures wa < 0.0 || wb < 0.0 || wc < 0.0 ==> (wc < 0.0 <==> wb > 0.0) && (wb < 0.0 <==> wc > 0.0)
  {
    Balance(wa, wb, wc, a, b, c, y);
    Signs(wa, y - a);
    Signs(wb, b - y);
    Signs(wc, c - y);
    assert wa * (a - y) == -(wa * (y - a));
  }

  /** A positive weight gives its moment the sign of the arm. */
  lemma Moment(w: real, arm: real, m: real)
    requires w > 0.0 && m == w * arm
    ensures arm < 0.0 ==> m < 0.0
    ensures arm > 0.0 ==> m > 0.0
    ensures arm == 0.0 ==> m == 0.0
  {
    Signs(w, arm);
  }

  /** All three on one side of the height: the point is not strictly inside. */
  lemma NoneApart(wa: real, wb: real, wc: real, a: real, b: real, c: real, y: real)
    requires wa + wb + wc == 1.0 && y == wa * a + wb * b + wc * c
    requires (a > y && b > y && c > y) || (a <= y && b <= y && c <= y)
    ensures wa > 0.0 && wb > 0.0 && wc > 0.0 ==> a == b == c
  {
    Balance(wa, wb, wc, a, b, c, y);
    if wa > 0.0 && wb > 0.0 && wc > 0.0 {
      var ma, mb, mc := wa * (a - y), wb * (b - y), wc * (c - y);
      assert ma + mb + mc == 0.0;
      Moment(wa, a - y, ma);
      Moment(wb, b - y, mb);
      Moment(wc, c - y, mc);
    }
  }

  function Count(b: bool): nat { if b then 1 else 0 }

  /** How many of the triangle's edges are crossed. */
  function EdgesCrossed(p: Point, a: Point, b: Point, c: Point): nat {
    Count(LeftOfEdge(p, a, b)) + Count(LeftOfEdge(p, b, c)) + Count(LeftOfEdge(p, c, a))
  }

  /** Inside or outside, by the signs of the weights. */
  predicate Decided(odd: bool, wa: real, wb: real, wc: real) {
    && (wa > 0.0 && wb > 0.0 && wc > 0.0 ==> odd)
    && (wa < 0.0 || wb < 0.0 || wc < 0.0 ==> !odd)
  }

  /** The first corner alone on its side of the height. */
  lemma LoneCorner(p: Point, a: Point, b: Point, c: Point, wa: real, wb: real, wc: real)
    requires Weighed(p, a, b, c, wa, wb, wc) && Orient(a, b, c) != 0.0
    requires (a.1 > p.1) != (b.1 > p.1) && (b.1 > p.1) == (c.1 > p.1)
    ensures Decided(EdgesCrossed(p, a, b, c) % 2 == 1, wa, wb, wc)
  {
    var d := Orient(a, b, c);
    OppositeShares(p, a, b, c, wa, wb, wc);
    Signs(wb, d);
    Signs(wc, d);
    OrientTurned(a, b, p);
    OrientTurned(c, a, p);
    if a.1 > p.1 {
      LoneAbove(wa, wb, wc, a.1, b.1, c.1, p.1);
    } else {
      LoneBelow(wa, wb, wc, a.1, b.1, c.1, p.1);
    }
    hide Orient;
  }

  lemma OppositeShares(p: Point, a: Point, b: Point, c: Point, wa: real, wb: real, wc: real)
    requires Weighed(p, a, b, c, wa, wb, wc)
    ensures Orient(c, a, p) == wb * Orient(a, b, c) && Orient(a, b, p) == wc * Orient(a, b, c)
  {
    Rotated(a, b, c);
    Rotated(b, c, a);
    WeightIsShare(p, b, c, a, wb, wc, wa);
    WeightIsShare(p, c, a, b, wc, wa, wb);
  }

  lemma ByEdges(p: Point, a: Point, b: Point, c: Point, wa: real, wb: real, wc: real)
    requires Weighed(p, a, b, c, wa, wb, wc) && Orient(a, b, c) != 0.0
    ensures Decided(EdgesCrossed(p, a, b, c) % 2 == 1, wa, wb, wc)
  {
    Rotated(a, b, c);
    Rotated(b, c, a);
    if (a.1 > p.1) == (b.1 > p.1) == (c.1 > p.1) {
      NoneApart(wa, wb, wc, a.1, b.1, c.1, p.1);
    } else if (b.1 > p.1) == (c.1 > p.1) {
      LoneCorner(p, a, b, c, wa, wb, wc);
    } else if (a.1 > p.1) == (c.1 > p.1) {
      LoneCorner(p, b, c, a, wb, wc, wa);
    } else {
      LoneCorner(p, c, a, b, wc, wa, wb);
    }
  }

  /**
   * The even-odd test on a triangle of whatever orientation: a point with three positive weights
   * passes it, and a point with a negative one fails it.
   */
  lemma TriangleByWeights(p: Point, a: Point, b: Point, c: Point, wa: real, wb: real, wc: real)
    requires Weighed(p, a, b, c, wa, wb, wc) && Orient(a, b, c) != 0.0
    ensures wa > 0.0 && wb > 0.0 && wc > 0.0 ==> EvenOdd(p.0, p.1, [a, b, c])
    ensures wa < 0.0 || wb < 0.0 || wc < 0.0 ==> !EvenOdd(p.0, p.1, [a, b, c])
  {
    ByEdges(p, a, b, c, wa, wb, wc);
    CrossesIsLeft(p, a, c);
    CrossesIsLeft(p, b, a);
    CrossesIsLeft(p, c, b);
    ThreeCrossings(p, a, b, c);
    hide EvenOdd, Crosses, Orient, Weighed;
  }

  lemma ThreeCrossings(p: Point, a: Point, b: Point, c: Point)
    ensures EvenOdd(p.0, p.1, [a, b, c])
       <==> (Count(Crosses(p.0, p.1, a, c)) + Count(Crosses(p.0, p.1, b, a)) + Count(Crosses(p.0, p.1, c, b))) % 2 == 1
  {
    hide Crosses;
    var t := [a, b, c];
    assert Crossings(p.0, p.1, t, 1) == Count(Crosses(p.0, p.1, a, c));
    assert Crossings(p.0, p.1, t, 2) == Crossings(p.0, p.1, t, 1) + Count(Crosses(p.0, p.1, b, a));
    assert Crossings(p.0, p.1, t, 3) == Crossings(p.0, p.1, t, 2) + Count(Crosses(p.0, p.1, c, b));
  }

  // ----------------------------------------------------------------- boxes and buckets

  /** Every side of the box is held by a corner, so no smaller box would do. */
  lemma {:induction false} BoxIsTight(points: seq<Point>, n: nat)
    requires 0 < n <= |points|
    ensures var b := BoundsTo(points, n);
      && (exists i :: 0 <= i < n && points[i].0 == b.minX) && (exists i :: 0 <= i < n && points[i].0 == b.maxX)
      && (exists i :: 0 <= i < n && points[i].1 == b.minY) && (exists i :: 0 <= i < n && points[i].1 == b.maxY)
      && forall i :: 0 <= i < n ==> b.Contains(points[i].0, points[i].1)
  {
    if n == 1 {
      assert points[0].0 == BoundsTo(points, 1).minX;
    } else {
      BoxIsTight(points, n - 1);
      var p := points[n - 1];
      assert points[n - 1].0 == p.0 && points[n - 1].1 == p.1;
    }
  }

  /** A coordinate lies in its bucket, as far as bucket numbers reach. */
  lemma BucketHolds(v: real, size: real)
    requires size > 0.0 && -2147483648.0 * size <= v < 2147483648.0 * size
    ensures var i := BucketAxis(v, size) as real; i * size <= v < (i + 1.0) * size
  {
    var q := v / size;
    assert q * size == v;
    InReach(q, size, v);
    var i := q.Floor as real;
    FromEdge(i, q, size, v);
    ToEdge(q, i + 1.0, size, v);
  }

  lemma FromEdge(i: real, q: real, size: real, v: real)
    requires size > 0.0 && i <= q && q * size == v
    ensures i * size <= v
  {
    RealScale(i, q, size);
  }

  lemma ToEdge(q: real, j: real, size: real, v: real)
    requires size > 0.0 && q < j && q * size == v
    ensures v < j * size
  {
    StrictScale(q, j, size);
  }

  lemma InReach(q: real, size: real, v: real)
    requires size > 0.0 && q * size == v && -2147483648.0 * size <= v < 2147483648.0 * size
    ensures -2147483648.0 <= q < 2147483648.0
  {
    if q < -2147483648.0 { StrictScale(q, -2147483648.0, size); }
    if q >= 2147483648.0 { RealScale(2147483648.0, q, size); }
  }

  /** The buckets a box is entered under. */
  ghost function BucketsOf(x0: int, x1: int, y0: int, y1: int): set<Bucket> {
    set i: int, j: int | x0 <= i <= x1 && y0 <= j <= y1 :: (i, j)
  }

  lemma {:induction false} RectangleSize(x0: int, x1: int, y0: int, y1: int)
    requires x0 <= x1 + 1 && y0 <= y1 + 1
    ensures |BucketsOf(x0, x1, y0, y1)| == (x1 - x0 + 1) * (y1 - y0 + 1)
    decreases x1 - x0 + 1
  {
    if x1 < x0 {
      assert BucketsOf(x0, x1, y0, y1) == {};
    } else {
      RectangleSize(x0, x1 - 1, y0, y1);
      ColumnSize(x1, y0, y1);
      var rest, column := BucketsOf(x0, x1 - 1, y0, y1), BucketsOf(x1, x1, y0, y1);
      assert BucketsOf(x0, x1, y0, y1) == rest + column && rest !! column;
      assert (x1 - x0 + 1) * (y1 - y0 + 1) == (x1 - x0) * (y1 - y0 + 1) + (y1 - y0 + 1);
    }
  }

  lemma {:induction false} ColumnSize(x: int, y0: int, y1: int)
    requires y0 <= y1 + 1
    ensures |BucketsOf(x, x, y0, y1)| == y1 - y0 + 1
    decreases y1 - y0 + 1
  {
    if y1 < y0 {
      assert BucketsOf(x, x, y0, y1) == {};
    } else {
      ColumnSize(x, y0, y1 - 1);
      assert BucketsOf(x, x, y0, y1) == BucketsOf(x, x, y0, y1 - 1) + {(x, y1)};
    }
  }

  /** The span that is limited is the number of buckets the box is entered under. */
  lemma SpanIsNumber(b: Box, size: real)
    requires size > 0.0 && b.minX <= b.maxX && b.minY <= b.maxY
    ensures var under := BucketsOf(BucketAxis(b.minX, size), BucketAxis(b.maxX, size),
                                   BucketAxis(b.minY, size), BucketAxis(b.maxY, size));
      && Span(b, size) == |under| && forall at: Bucket :: at in under <==> Touches(b, size, at)
  {
    hide BucketAxis;
    BucketMonotone(b.minX, b.maxX, size);
    BucketMonotone(b.minY, b.maxY, size);
    RectangleSize(BucketAxis(b.minX, size), BucketAxis(b.maxX, size), BucketAxis(b.minY, size), BucketAxis(b.maxY, size));
  }

  // -------------------------------------------------------------------------- the loss

  /** The chance that one region lets the signal pass: one less its loss, where a loss below zero
      counts as zero and one above one as one. */
  function Passed(p: real): real { if p <= 0.0 then 1.0 else if p >= 1.0 then 0.0 else 1.0 - p }

  /** The chance that both of two independent events happen. */
  function Both(a: real, b: real): real { a * b }

  /** The chance that all of them do: the product. */
  function Spared(features: seq<Feature>, hits: seq<nat>): real
    requires Below(hits, |features|)
  {
    if hits == [] then 1.0
    else Both(Passed(features[hits[0]].loss), Spared(features, hits[1..]))
  }

  lemma {:induction false} SparedOn(features: seq<Feature>, hits: seq<nat>, k: nat)
    requires Below(hits, |features|) && k < |features| && Below(hits + [k], |features|)
    ensures Spared(features, hits + [k]) == Both(Spared(features, hits), Passed(features[k].loss))
    decreases |hits|
  {
    hide Passed, Both;
    if hits == [] {
      assert [] + [k] == [k];
      SparedOne(features, k);
      Unit(Passed(features[k].loss));
    } else {
      var first, rest := features[hits[0]].loss, hits[1..];
      assert (hits + [k])[1..] == rest + [k] && (hits + [k])[0] == hits[0];
      SparedOn(features, rest, k);
      Associates(Passed(first), Spared(features, rest), Passed(features[k].loss));
    }
  }

  lemma SparedOne(features: seq<Feature>, k: nat)
    requires k < |features|
    ensures Spared(features, [k]) == Passed(features[k].loss) && Spared(features, []) == 1.0
  {
    hide Passed, Both;
    assert [k][1..] == [];
    Unit(Passed(features[k].loss));
  }

  lemma Unit(a: real)
    ensures Both(a, 1.0) == a == Both(1.0, a)
  {
  }

  lemma Associates(a: real, b: real, c: real)
    ensures Both(a, Both(b, c)) == Both(Both(a, b), c)
  {
  }

  lemma PassedIsComplement(p: real)
    ensures Passed(p) == 1.0 - Clamp(p)
  {
  }

  lemma LossOn(features: seq<Feature>, rest: seq<nat>, k: nat)
    requires Below(rest, |features|) && k < |features| && Below(rest + [k], |features|)
    ensures Loss(features, rest + [k]) == Either(Loss(features, rest), Clamp(features[k].loss))
    ensures Loss(features, []) == 0.0
  {
    hide Either, Clamp;
    assert (rest + [k])[..|rest|] == rest;
  }

  lemma NeitherHappens(p: real, q: real, r: real, s: real)
    requires r == 1.0 - p && s == 1.0 - q
    ensures 1.0 - Either(p, q) == Both(r, s)
  {
  }

  /** The loss is the complement of being spared by every region. */
  lemma {:induction false} LossIsComplement(features: seq<Feature>, hits: seq<nat>)
    requires Below(hits, |features|)
    ensures 1.0 - Loss(features, hits) == Spared(features, hits)
    decreases |hits|, 0
  {
    if hits != [] {
      LossStep(features, hits[..|hits| - 1], hits[|hits| - 1]);
      assert hits == hits[..|hits| - 1] + [hits[|hits| - 1]];
    }
  }

  lemma {:induction false} LossStep(features: seq<Feature>, rest: seq<nat>, k: nat)
    requires Below(rest, |features|) && k < |features| && Below(rest + [k], |features|)
    ensures 1.0 - Loss(features, rest + [k]) == Spared(features, rest + [k])
    decreases |rest|, 1
  {
    hide Clamp, Either, Loss, Spared, Passed, Both;
    LossIsComplement(features, rest);
    SparedOn(features, rest, k);
    LossOn(features, rest, k);
    PassedIsComplement(features[k].loss);
    NeitherHappens(Loss(features, rest), Clamp(features[k].loss), Spared(features, rest), Passed(features[k].loss));
  }
}
