/**
 * Environment regions: a grid of buckets and a bounding box stand in front of an even-odd polygon
 * test, and answer exactly as the polygon test alone.
 */
module Region {
  import opened Bytes
  import opened Reals

  type Point = (real, real)
  type Bucket = (int, int)

  const MAX_REGION_BUCKETS := 0x40_0000
  const I32_MIN := -0x8000_0000
  const I32_MAX := 0x7fff_ffff

  // ------------------------------------------------------------------- the even-odd test

  /** The edge spans the point's height, counting its lower end and not its upper. */
  predicate Straddles(y: real, p: Point, q: Point) { (p.1 > y) != (q.1 > y) }

  /** The edge passes the point's height to the right of it. */
  predicate Crosses(x: real, y: real, p: Point, q: Point) {
    Straddles(y, p, q) && x < p.0 + (y - p.1) / (q.1 - p.1) * (q.0 - p.0)
  }

  /** The corner before `i`, the last one before the first. */
  function Previous(polygon: seq<Point>, i: nat): Point
    requires i < |polygon|
  {
    polygon[if i == 0 then |polygon| - 1 else i - 1]
  }

  /** How many of the edges up to corner `n` cross the ray to the right. */
  function Crossings(x: real, y: real, polygon: seq<Point>, n: nat): nat
    requires n <= |polygon|
  {
    if n == 0 then 0
    else
      Crossings(x, y, polygon, n - 1)
      + (if Crosses(x, y, polygon[n - 1], Previous(polygon, n - 1)) then 1 else 0)
  }

  predicate EvenOdd(x: real, y: real, polygon: seq<Point>) {
    |polygon| >= 3 && Crossings(x, y, polygon, |polygon|) % 2 == 1
  }

  /** `point_in_polygon`: the loop that toggles. */
  method PointInPolygon(x: real, y: real, polygon: seq<Point>) returns (inside: bool)
    ensures inside == EvenOdd(x, y, polygon)
  {
    if |polygon| < 3 {
      return false;
    }
    inside := false;
    var j := |polygon| - 1;
    var i := 0;
    while i < |polygon|
      invariant 0 <= i <= |polygon|
      invariant j == if i == 0 then |polygon| - 1 else i - 1
      invariant inside == (Crossings(x, y, polygon, i) % 2 == 1)
    {
      var (xi, yi) := polygon[i];
      var (xj, yj) := polygon[j];
      var straddles := (yi > y) != (yj > y);
      if straddles {
        var t := (y - yi) / (yj - yi);
        if x < xi + t * (xj - xi) {
          inside := !inside;
        }
      }
      j := i;
      i := i + 1;
    }
  }

  // -------------------------------------------------------------------- bounding boxes

  datatype Box = Box(minX: real, minY: real, maxX: real, maxY: real) {
    predicate Contains(x: real, y: real) { minX <= x <= maxX && minY <= y <= maxY }
  }

  function Lesser(a: real, b: real): real { if a <= b then a else b }
  function Greater(a: real, b: real): real { if a >= b then a else b }

  function Join(b: Box, p: Point): Box {
    Box(Lesser(b.minX, p.0), Lesser(b.minY, p.1), Greater(b.maxX, p.0), Greater(b.maxY, p.1))
  }

  function BoundsTo(points: seq<Point>, n: nat): Box
    requires 0 < n <= |points|
  {
    if n == 1 then Box(points[0].0, points[0].1, points[0].0, points[0].1)
    else Join(BoundsTo(points, n - 1), points[n - 1])
  }

  function Bounds(points: seq<Point>): Box {
    if points == [] then Box(0.0, 0.0, 0.0, 0.0) else BoundsTo(points, |points|)
  }

  /** `outline_bounds`. */
  method OutlineBounds(points: seq<Point>) returns (b: Box)
    ensures b == Bounds(points)
  {
    if |points| == 0 {
      return Box(0.0, 0.0, 0.0, 0.0);
    }
    b := Box(points[0].0, points[0].1, points[0].0, points[0].1);
    var i := 1;
    while i < |points|
      invariant 1 <= i <= |points| && b == BoundsTo(points, i)
    {
      b := Join(b, points[i]);
      i := i + 1;
    }
  }

  lemma {:induction false} CornersInBounds(points: seq<Point>, n: nat, i: nat)
    requires i < n <= |points|
    ensures BoundsTo(points, n).Contains(points[i].0, points[i].1)
  {
    if i < n - 1 {
      CornersInBounds(points, n - 1, i);
    } else if n > 1 {
      CornersInBounds(points, n - 1, 0);
    }
  }

  // ------------------------------------------- an odd count forces the point into the box

  lemma Between(p: real, q: real, t: real)
    requires 0.0 <= t <= 1.0
    ensures p + t * (q - p) <= Greater(p, q)
    ensures p + t * (q - p) >= Lesser(p, q)
  {
    if p <= q {
      NotNegative(t, q - p);
      NotNegative(1.0 - t, q - p);
      assert p + t * (q - p) == q - (1.0 - t) * (q - p);
    } else {
      NotNegative(t, p - q);
      NotNegative(1.0 - t, p - q);
      assert p + t * (q - p) == p - t * (p - q) == q + (1.0 - t) * (p - q);
    }
  }

  lemma Part(y: real, p: real, q: real)
    requires (p > y) != (q > y)
    ensures p != q && 0.0 <= (y - p) / (q - p) <= 1.0
  {
    if q > p {
      PartOf(y - p, q - p);
    } else {
      PartOf(p - y, p - q);
      assert (y - p) / (q - p) == (p - y) / (p - q) by { SameQuotient(y - p, q - p); }
    }
  }

  lemma SameQuotient(a: real, d: real)
    requires d != 0.0
    ensures a / d == (-a) / (-d)
  {
    assert a / d * (-d) == -a;
  }

  /** A crossing lies between the ends of its edge. */
  lemma CrossingWithin(x: real, y: real, p: Point, q: Point)
    requires Straddles(y, p, q)
    ensures Crosses(x, y, p, q) ==> x < Greater(p.0, q.0)
    ensures x < Lesser(p.0, q.0) ==> Crosses(x, y, p, q)
  {
    Part(y, p.1, q.1);
    Between(p.0, q.0, (y - p.1) / (q.1 - p.1));
  }

  /** Left of the whole outline every straddling edge is crossed; going round, the outline comes
      back to the side of the height it started on. */
  lemma {:induction false} LeftOfAll(x: real, y: real, polygon: seq<Point>, n: nat)
    requires n <= |polygon|
    requires forall i :: 0 <= i < |polygon| ==> x < polygon[i].0
    ensures n > 0 ==> (Crossings(x, y, polygon, n) % 2 == 1
                       <==> (polygon[n - 1].1 > y) != (polygon[|polygon| - 1].1 > y))
  {
    hide Crosses;
    if n > 0 {
      LeftOfAll(x, y, polygon, n - 1);
      var p, q := polygon[n - 1], Previous(polygon, n - 1);
      if Straddles(y, p, q) {
        CrossingWithin(x, y, p, q);
      }
      NoStraddle(x, y, p, q);
    }
  }

  lemma NoStraddle(x: real, y: real, p: Point, q: Point)
    ensures Crosses(x, y, p, q) ==> Straddles(y, p, q)
  {
  }

  lemma {:induction false} RightOfAll(x: real, y: real, polygon: seq<Point>, n: nat)
    requires n <= |polygon|
    requires forall i :: 0 <= i < |polygon| ==> polygon[i].0 <= x
    ensures Crossings(x, y, polygon, n) == 0
  {
    hide Crosses;
    if n > 0 {
      RightOfAll(x, y, polygon, n - 1);
      var p, q := polygon[n - 1], Previous(polygon, n - 1);
      NoStraddle(x, y, p, q);
      if Straddles(y, p, q) {
        CrossingWithin(x, y, p, q);
      }
    }
  }

  lemma {:induction false} OneSide(x: real, y: real, polygon: seq<Point>, n: nat)
    requires n <= |polygon|
    requires (forall i :: 0 <= i < |polygon| ==> polygon[i].1 > y)
          || (forall i :: 0 <= i < |polygon| ==> polygon[i].1 <= y)
    ensures Crossings(x, y, polygon, n) == 0
  {
    if n > 0 {
      OneSide(x, y, polygon, n - 1);
    }
  }

  /** The bounding box never hides a region the even-odd test would report. */
  lemma InsideIsInBounds(x: real, y: real, polygon: seq<Point>)
    requires EvenOdd(x, y, polygon)
    ensures Bounds(polygon).Contains(x, y)
  {
    hide Crosses;
    var n, b := |polygon|, Bounds(polygon);
    forall i | 0 <= i < n ensures b.Contains(polygon[i].0, polygon[i].1) {
      CornersInBounds(polygon, n, i);
    }
    if x < b.minX {
      LeftOfAll(x, y, polygon, n);
    } else if x > b.maxX {
      RightOfAll(x, y, polygon, n);
    } else if y < b.minY || y > b.maxY {
      OneSide(x, y, polygon, n);
    }
  }

  // ------------------------------------------------------------------------- buckets

  function Saturate(i: int): int {
    if i < I32_MIN then I32_MIN else if i > I32_MAX then I32_MAX else i
  }

  function BucketAxis(v: real, size: real): int
    requires size > 0.0
  {
    Saturate((v / size).Floor)
  }

  function BucketOf(x: real, y: real, size: real): Bucket
    requires size > 0.0
  {
    (BucketAxis(x, size), BucketAxis(y, size))
  }

  lemma BucketMonotone(a: real, b: real, size: real)
    requires size > 0.0 && a <= b
    ensures BucketAxis(a, size) <= BucketAxis(b, size)
  {
    var p, q := a / size, b / size;
    assert q * size == b && p * size == a;
    if q < p {
      StrictScale(q, p, size);
    }
  }

  /** The bucket is one of those the box touches. */
  predicate Touches(b: Box, size: real, at: Bucket)
    requires size > 0.0
  {
    && BucketAxis(b.minX, size) <= at.0 <= BucketAxis(b.maxX, size)
    && BucketAxis(b.minY, size) <= at.1 <= BucketAxis(b.maxY, size)
  }

  /** A point in the box has its bucket among them. */
  lemma PointTouches(b: Box, x: real, y: real, size: real)
    requires size > 0.0 && b.Contains(x, y)
    ensures Touches(b, size, BucketOf(x, y, size))
  {
    BucketMonotone(b.minX, x, size);
    BucketMonotone(x, b.maxX, size);
    BucketMonotone(b.minY, y, size);
    BucketMonotone(y, b.maxY, size);
  }

  /** How many buckets the box touches. */
  function Span(b: Box, size: real): int
    requires size > 0.0
  {
    (BucketAxis(b.maxX, size) - BucketAxis(b.minX, size) + 1)
    * (BucketAxis(b.maxY, size) - BucketAxis(b.minY, size) + 1)
  }

  // ----------------------------------------------------------------------- region set

  datatype Feature = Feature(geomRef: nat, loss: real)

  /** Every feature refers to one of the outlines. */
  predicate Refers(features: seq<Feature>, outlines: nat) {
    forall i :: 0 <= i < |features| ==> features[i].geomRef < outlines
  }

  /** The first `n` features that touch the bucket, in ascending order. */
  function Touching(features: seq<Feature>, bounds: seq<Box>, size: real, n: nat, at: Bucket): seq<nat>
    requires size > 0.0 && n <= |features|
    requires Refers(features, |bounds|)
  {
    if n == 0 then []
    else
      Touching(features, bounds, size, n - 1, at)
      + (if Touches(bounds[features[n - 1].geomRef], size, at) then [n - 1] else [])
  }

  /** The answer the polygon test alone gives: the first `n` features around the point. */
  function Around(features: seq<Feature>, polygons: seq<seq<Point>>, n: nat, x: real, y: real): seq<nat>
    requires n <= |features| && Refers(features, |polygons|)
  {
    if n == 0 then []
    else
      Around(features, polygons, n - 1, x, y)
      + (if EvenOdd(x, y, polygons[features[n - 1].geomRef]) then [n - 1] else [])
  }

  /** Ascending, without repeats, and exactly the features whose polygon holds the point. */
  lemma {:induction false} AroundExactly(features: seq<Feature>, polygons: seq<seq<Point>>, n: nat,
                                         x: real, y: real)
    requires n <= |features| && Refers(features, |polygons|)
    ensures var r := Around(features, polygons, n, x, y);
      && (forall i, j :: 0 <= i < j < |r| ==> r[i] < r[j])
      && (forall k :: k in r <==> 0 <= k < n && EvenOdd(x, y, polygons[features[k].geomRef]))
  {
    hide EvenOdd;
    if n > 0 {
      AroundExactly(features, polygons, n - 1, x, y);
      var rest := Around(features, polygons, n - 1, x, y);
      assert forall i :: 0 <= i < |rest| ==> rest[i] in rest;
    }
  }

  /** The two filters of `regions_at` over a list of candidates. */
  function Kept(candidates: seq<nat>, features: seq<Feature>, polygons: seq<seq<Point>>,
                bounds: seq<Box>, x: real, y: real): seq<nat>
    requires |bounds| == |polygons| && Refers(features, |polygons|)
    requires Below(candidates, |features|)
  {
    if candidates == [] then []
    else
      var last := candidates[|candidates| - 1];
      Kept(candidates[..|candidates| - 1], features, polygons, bounds, x, y)
      + (if bounds[features[last].geomRef].Contains(x, y)
            && EvenOdd(x, y, polygons[features[last].geomRef]) then [last] else [])
  }

  lemma {:induction false} TouchingIn(features: seq<Feature>, bounds: seq<Box>, size: real, n: nat,
                                      at: Bucket)
    requires size > 0.0 && n <= |features|
    requires Refers(features, |bounds|)
    ensures Below(Touching(features, bounds, size, n, at), n)
  {
    hide Touches;
    if n > 0 {
      TouchingIn(features, bounds, size, n - 1, at);
      BelowOn(Touching(features, bounds, size, n - 1, at), n - 1);
    }
  }

  predicate Below(ks: seq<nat>, n: nat) { forall i :: 0 <= i < |ks| ==> ks[i] < n }

  lemma BelowOn(ks: seq<nat>, n: nat)
    requires Below(ks, n)
    ensures Below(ks + [], n + 1) && Below(ks + [n], n + 1)
  {
  }

  lemma KeptOn(candidates: seq<nat>, k: nat, features: seq<Feature>, polygons: seq<seq<Point>>,
               bounds: seq<Box>, x: real, y: real)
    requires |bounds| == |polygons| && Refers(features, |polygons|) && k < |features|
    requires Below(candidates, |features|)
    ensures Below(candidates + [k], |features|)
    ensures Kept(candidates + [k], features, polygons, bounds, x, y)
         == Kept(candidates, features, polygons, bounds, x, y)
          + (if bounds[features[k].geomRef].Contains(x, y)
                && EvenOdd(x, y, polygons[features[k].geomRef]) then [k] else [])
  {
    hide EvenOdd, Box.Contains;
    assert (candidates + [k])[..|candidates|] == candidates;
  }

  /** What the features from the `m`-th on add to the answer, and when that is nothing. */
  lemma {:induction false} AroundLess(features: seq<Feature>, polygons: seq<seq<Point>>, m: nat, n: nat,
                                      x: real, y: real)
    requires m <= n <= |features| && Refers(features, |polygons|)
    ensures Around(features, polygons, m, x, y) <= Around(features, polygons, n, x, y)
    ensures Around(features, polygons, m, x, y) == Around(features, polygons, n, x, y)
       <==> forall k :: m <= k < n ==> !EvenOdd(x, y, polygons[features[k].geomRef])
    decreases n
  {
    hide EvenOdd;
    if m < n {
      AroundLess(features, polygons, m, n - 1, x, y);
    }
  }

  /** Neither the bucket nor the box loses a region. */
  lemma {:induction false} FiltersLoseNothing(features: seq<Feature>, polygons: seq<seq<Point>>,
      bounds: seq<Box>, size: real, n: nat, x: real, y: real)
    requires size > 0.0 && n <= |features| && |bounds| == |polygons|
    requires Refers(features, |polygons|)
    requires forall i :: 0 <= i < |polygons| ==> bounds[i] == Bounds(polygons[i])
    ensures var t := Touching(features, bounds, size, n, BucketOf(x, y, size));
      && Below(t, |features|)
      && Kept(t, features, polygons, bounds, x, y) == Around(features, polygons, n, x, y)
  {
    hide EvenOdd, Touches, Bounds, BucketOf, Box.Contains, Kept, Around, Touching;
    if n == 0 {
      NoneKept(features, polygons, bounds, size, x, y, BucketOf(x, y, size));
    } else {
      var at := BucketOf(x, y, size);
      var rest := Touching(features, bounds, size, n - 1, at);
      TouchingOn(features, bounds, size, n - 1, at);
      AroundOn(features, polygons, n - 1, x, y);
      TouchingIn(features, bounds, size, n - 1, at);
      FiltersLoseNothing(features, polygons, bounds, size, n - 1, x, y);
      var g := features[n - 1].geomRef;
      if EvenOdd(x, y, polygons[g]) {
        InsideIsInBounds(x, y, polygons[g]);
        PointTouches(bounds[g], x, y, size);
      }
      BelowOn(rest, n - 1);
      KeptOn(rest, n - 1, features, polygons, bounds, x, y);
      assert rest + [] == rest;
    }
  }

  lemma NoneKept(features: seq<Feature>, polygons: seq<seq<Point>>, bounds: seq<Box>, size: real,
                 x: real, y: real, at: Bucket)
    requires size > 0.0 && |bounds| == |polygons| && Refers(features, |polygons|)
    ensures Touching(features, bounds, size, 0, at) == []
    ensures Kept([], features, polygons, bounds, x, y) == [] == Around(features, polygons, 0, x, y)
  {
  }

  lemma AroundOn(features: seq<Feature>, polygons: seq<seq<Point>>, n: nat, x: real, y: real)
    requires n < |features| && Refers(features, |polygons|)
    ensures Around(features, polygons, n + 1, x, y)
         == Around(features, polygons, n, x, y)
          + (if EvenOdd(x, y, polygons[features[n].geomRef]) then [n] else [])
  {
  }

  lemma TouchingOn(features: seq<Feature>, bounds: seq<Box>, size: real, n: nat, at: Bucket)
    requires size > 0.0 && n < |features| && Refers(features, |bounds|)
    ensures Touching(features, bounds, size, n + 1, at)
         == Touching(features, bounds, size, n, at)
          + (if Touches(bounds[features[n].geomRef], size, at) then [n] else [])
  {
  }

  // ------------------------------------------------------------- combined probability

  function Clamp(p: real): real { if p < 0.0 then 0.0 else if p > 1.0 then 1.0 else p }

  /** The chance that at least one of two independent events happens. */
  function Either(p: real, q: real): real { 1.0 - (1.0 - p) * (1.0 - q) }

  /** `loss_probability_at`, over the features a lookup returned. */
  function Loss(features: seq<Feature>, hits: seq<nat>): real
    requires Below(hits, |features|)
  {
    if hits == [] then 0.0
    else
      Either(Loss(features, hits[..|hits| - 1]), Clamp(features[hits[|hits| - 1]].loss))
  }

  lemma Combined(acc: real, p: real)
    requires 0.0 <= acc <= 1.0 && 0.0 <= p <= 1.0
    ensures acc <= Either(acc, p) <= 1.0 && p <= Either(acc, p)
    ensures Either(acc, p) == 1.0 <==> acc == 1.0 || p == 1.0
  {
    NotNegative(1.0 - acc, 1.0 - p);
    NotNegative(p, 1.0 - acc);
    NotNegative(acc, 1.0 - p);
    NoZeroFactor(1.0 - acc, 1.0 - p);
  }

  lemma NoZeroFactor(a: real, b: real)
    requires a >= 0.0 && b >= 0.0
    ensures a * b == 0.0 <==> a == 0.0 || b == 0.0
  {
    if a > 0.0 && b > 0.0 {
      StrictScale(0.0, a, b);
    }
  }

  /** A probability, at least that of every region hit, and certain only if one of them is. */
  lemma {:induction false} LossIsProbability(features: seq<Feature>, hits: seq<nat>)
    requires Below(hits, |features|)
    ensures 0.0 <= Loss(features, hits) <= 1.0
    ensures forall i :: 0 <= i < |hits| ==> Clamp(features[hits[i]].loss) <= Loss(features, hits)
    ensures Loss(features, hits) == 1.0
       <==> exists i :: 0 <= i < |hits| && Clamp(features[hits[i]].loss) == 1.0
  {
    hide Either;
    if hits != [] {
      var rest, last := hits[..|hits| - 1], hits[|hits| - 1];
      LossIsProbability(features, rest);
      var acc, total := Loss(features, rest), Loss(features, hits);
      Combined(acc, Clamp(features[last].loss));
      assert acc <= total && Clamp(features[last].loss) <= total;
      forall i | 0 <= i < |hits|
        ensures Clamp(features[hits[i]].loss) <= Loss(features, hits)
      {
        if i < |rest| {
          assert hits[i] == rest[i];
          assert Clamp(features[rest[i]].loss) <= acc;
        }
      }
    }
  }

  /** The feature would take up more buckets than the index allows. */
  predicate Wide(features: seq<Feature>, bounds: seq<Box>, size: real, i: nat)
    requires size > 0.0 && i < |features| && features[i].geomRef < |bounds|
  {
    Span(bounds[features[i].geomRef], size) > MAX_REGION_BUCKETS
  }

  function Entry(buckets: map<Bucket, seq<nat>>, at: Bucket): seq<nat> {
    if at in buckets then buckets[at] else []
  }

  /** The loops pushed the index in these buckets so far. */
  predicate Pushed(at: Bucket, x0: int, x1: int, y0: int, y: int, x: int) {
    (x0 <= at.0 <= x1 && y0 <= at.1 < y) || (x0 <= at.0 < x && at.1 == y)
  }

  ghost predicate AllPushed(was: map<Bucket, seq<nat>>, now: map<Bucket, seq<nat>>, index: nat,
                            x0: int, x1: int, y0: int, y: int, x: int) {
    forall at: Bucket ::
      Entry(now, at) == Entry(was, at) + (if Pushed(at, x0, x1, y0, y, x) then [index] else [])
  }

  /** The two loops over the buckets a feature touches. */
  method PushAll(was: map<Bucket, seq<nat>>, index: nat, x0: int, x1: int, y0: int, y1: int)
    returns (now: map<Bucket, seq<nat>>)
    ensures forall at: Bucket ::
      Entry(now, at) == Entry(was, at)
                      + (if x0 <= at.0 <= x1 && y0 <= at.1 <= y1 then [index] else [])
  {
    now := was;
    var y := y0;
    while y <= y1
      invariant y0 <= y && (y <= y1 + 1 || y == y0)
      invariant AllPushed(was, now, index, x0, x1, y0, y, x0)
    {
      var x := x0;
      while x <= x1
        invariant x0 <= x && (x <= x1 + 1 || x == x0)
        invariant AllPushed(was, now, index, x0, x1, y0, y, x)
      {
        now := now[(x, y) := Entry(now, (x, y)) + [index]];
        x := x + 1;
      }
      y := y + 1;
    }
  }

  /** Every bucket lists the first `n` features that touch it. */
  ghost predicate IndexedTo(buckets: map<Bucket, seq<nat>>, features: seq<Feature>,
                            bounds: seq<Box>, size: real, n: nat)
    requires size > 0.0 && n <= |features| && Refers(features, |bounds|)
  {
    forall at: Bucket :: Entry(buckets, at) == Touching(features, bounds, size, n, at)
  }

  lemma IndexOn(was: map<Bucket, seq<nat>>, now: map<Bucket, seq<nat>>, features: seq<Feature>,
                bounds: seq<Box>, size: real, n: nat)
    requires size > 0.0 && n < |features| && Refers(features, |bounds|)
    requires IndexedTo(was, features, bounds, size, n)
    requires var b := bounds[features[n].geomRef];
      forall at: Bucket ::
        Entry(now, at) == Entry(was, at)
          + (if BucketAxis(b.minX, size) <= at.0 <= BucketAxis(b.maxX, size)
                && BucketAxis(b.minY, size) <= at.1 <= BucketAxis(b.maxY, size) then [n] else [])
    ensures IndexedTo(now, features, bounds, size, n + 1)
  {
    hide BucketAxis, Touching;
    var next := n + 1;
    forall at: Bucket ensures Entry(now, at) == Touching(features, bounds, size, next, at) {
      TouchingOn(features, bounds, size, n, at);
    }
  }

  /** The first feature from the `i`-th on whose box is too wide, or the number of features. */
  function FirstWide(features: seq<Feature>, bounds: seq<Box>, size: real, i: nat): (n: nat)
    requires size > 0.0 && i <= |features| && Refers(features, |bounds|)
    ensures i <= n <= |features|
    ensures n < |features| ==> Wide(features, bounds, size, n)
    ensures forall k :: i <= k < n ==> !Wide(features, bounds, size, k)
    decreases |features| - i
  {
    if i == |features| || Wide(features, bounds, size, i) then i
    else FirstWide(features, bounds, size, i + 1)
  }

  /** A point as it is handed in: a coordinate may be infinite or no number at all. */
  type RawPoint = (Option<real>, Option<real>)

  predicate AllFinite(outlines: seq<seq<RawPoint>>) {
    forall i :: 0 <= i < |outlines| ==> forall j :: 0 <= j < |outlines[i]| ==>
      outlines[i][j].0.Some? && outlines[i][j].1.Some?
  }

  function PointsOf(outline: seq<RawPoint>): (points: seq<Point>)
    requires forall j :: 0 <= j < |outline| ==> outline[j].0.Some? && outline[j].1.Some?
    ensures |points| == |outline|
    ensures forall j :: 0 <= j < |outline| ==> outline[j] == (Some(points[j].0), Some(points[j].1))
  {
    seq(|outline|, j requires 0 <= j < |outline| => (outline[j].0.value, outline[j].1.value))
  }

  function PolygonsOf(outlines: seq<seq<RawPoint>>): (polygons: seq<seq<Point>>)
    requires AllFinite(outlines)
    ensures |polygons| == |outlines|
  {
    seq(|outlines|, i requires 0 <= i < |outlines| => PointsOf(outlines[i]))
  }

  /** The region set: its features and outlines, and the index that is rebuilt with them. */
  class RegionSet {
    var features: seq<Feature>
    var polygons: seq<seq<Point>>
    var bounds: seq<Box>
    var buckets: map<Bucket, seq<nat>>
    var bucketSize: real

    ghost predicate Valid()
      reads this
    {
      && bucketSize > 0.0
      && Refers(features, |polygons|) && |bounds| == |polygons|
      && forall i :: 0 <= i < |polygons| ==> bounds[i] == Bounds(polygons[i])
    }

    /** How many features the index takes in: all of them, or those before the first whose box
        is too wide at this bucket size. */
    ghost function Reached(): (n: nat)
      requires Valid()
      reads this
      ensures n <= |features|
    {
      FirstWide(features, bounds, bucketSize, 0)
    }

    /** The index lists under every bucket exactly the features taken in that touch it. */
    ghost predicate Indexed()
      requires Valid()
      reads this
    {
      IndexedTo(buckets, features, bounds, bucketSize, Reached())
    }

    constructor (features: seq<Feature>, polygons: seq<seq<Point>>)
      requires Refers(features, |polygons|)
      ensures Valid() && this.features == features && this.polygons == polygons
      ensures bucketSize == 50.0 && buckets == map[]
    {
      this.features, this.polygons, this.bucketSize := features, polygons, 50.0;
      this.buckets := map[];
      this.bounds := seq(|polygons|, i requires 0 <= i < |polygons| => Bounds(polygons[i]));
    }

    /** `new`: a feature without an outline, or an outline too wide for the index, is refused. */
    static method Create(features: seq<Feature>, outlines: seq<seq<RawPoint>>)
      returns (r: Result<RegionSet>)
      ensures !Refers(features, |outlines|) || !AllFinite(outlines) ==> r == Err(Invalid)
      ensures r.Ok? ==> fresh(r.value) && r.value.Valid() && r.value.Indexed()
      ensures r.Ok? ==> r.value.features == features && AllFinite(outlines)
                        && r.value.polygons == PolygonsOf(outlines) && r.value.Reached() == |features|
      ensures Refers(features, |outlines|) && AllFinite(outlines) ==>
        (r.Ok? <==> forall i :: 0 <= i < |features| ==>
          Span(Bounds(PolygonsOf(outlines)[features[i].geomRef]), 50.0) <= MAX_REGION_BUCKETS)
    {
      hide Span, Bounds, Touching, PolygonsOf;
      var i := 0;
      while i < |features|
        invariant 0 <= i <= |features|
        invariant forall k :: 0 <= k < i ==> features[k].geomRef < |outlines|
      {
        if features[i].geomRef >= |outlines| {
          return Err(Invalid);
        }
        i := i + 1;
      }
      if !AllFinite(outlines) {
        return Err(Invalid);
      }
      var polygons := PolygonsOf(outlines);
      var set_ := new RegionSet(features, polygons);
      forall k | 0 <= k < |features|
        ensures Wide(features, set_.bounds, 50.0, k)
           <==> Span(Bounds(polygons[features[k].geomRef]), 50.0) > MAX_REGION_BUCKETS
      {
        assert set_.bounds[features[k].geomRef] == Bounds(polygons[features[k].geomRef]);
      }
      var built := set_.RebuildIndex();
      if built.Err? {
        return Err(built.error);
      }
      return Ok(set_);
    }

    /** `rebuild_index`. */
    method RebuildIndex() returns (r: Result<()>)
      requires Valid()
      modifies this`buckets
      ensures Valid() && Indexed()
      ensures r == if Reached() == |features| then Ok(()) else Err(Invalid)
    {
      hide Span, BucketAxis, Bounds, IndexedTo;
      buckets := map[];
      NoneTouch(features, bounds, bucketSize);
      var index := 0;
      while index < |features|
        invariant 0 <= index <= |features| && Valid()
        invariant IndexedTo(buckets, features, bounds, bucketSize, index)
        invariant forall i :: 0 <= i < index ==> !Wide(features, bounds, bucketSize, i)
      {
        var b := bounds[features[index].geomRef];
        if Span(b, bucketSize) > MAX_REGION_BUCKETS {
          assert Wide(features, bounds, bucketSize, index);
          return Err(Invalid);
        }
        ghost var was := buckets;
        buckets := PushAll(buckets, index,
                           BucketAxis(b.minX, bucketSize), BucketAxis(b.maxX, bucketSize),
                           BucketAxis(b.minY, bucketSize), BucketAxis(b.maxY, bucketSize));
        IndexOn(was, buckets, features, bounds, bucketSize, index);
        index := index + 1;
      }
      return Ok(());
    }

    /** `set_bucket_size`: the size is at least one metre, and the index follows it. A failure
        keeps the new size and the features entered before the one that is too wide. */
    method SetBucketSize(size: real) returns (r: Result<()>)
      requires Valid()
      modifies this`bucketSize, this`buckets
      ensures Valid() && Indexed() && bucketSize == Greater(size, 1.0)
      ensures r == if Reached() == |features| then Ok(()) else Err(Invalid)
    {
      hide Touches, Span, BucketAxis, Bounds;
      bucketSize := Greater(size, 1.0);
      r := RebuildIndex();
    }

    /** `regions_at`: through the index, and yet what the polygon test alone answers for the
        features taken in. After a failed rebuild it loses a region exactly when one of the others
        is around the point. */
    method RegionsAt(x: real, y: real) returns (r: seq<nat>)
      requires Valid() && Indexed()
      ensures r == Around(features, polygons, Reached(), x, y)
      ensures r == Around(features, polygons, |features|, x, y)
         <==> forall k :: Reached() <= k < |features| ==> !EvenOdd(x, y, polygons[features[k].geomRef])
    {
      hide BucketAxis, EvenOdd, Touching, Bounds, Around, BucketOf;
      var at := BucketOf(x, y, bucketSize);
      FiltersLoseNothing(features, polygons, bounds, bucketSize, Reached(), x, y);
      assert Entry(buckets, at) == Touching(features, bounds, bucketSize, Reached(), at);
      AroundLess(features, polygons, Reached(), |features|, x, y);
      if at !in buckets {
        return [];
      }
      return Kept(buckets[at], features, polygons, bounds, x, y);
    }
  }

  lemma NoneTouch(features: seq<Feature>, bounds: seq<Box>, size: real)
    requires size > 0.0 && Refers(features, |bounds|)
    ensures IndexedTo(map[], features, bounds, size, 0)
  {
  }
}
