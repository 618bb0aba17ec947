/**
 * Roof triangulation by ear clipping, with the fan the source falls back to.  Coordinates are
 * real numbers; a corner is known by its index in the ring.
 */
module EarClip {
  import opened Grid

  type Point = (real, real)
  type Triangle = (int, int, int)

  // ------------------------------------------------------------------ the ear test

  /** The side of `rq` that `p` lies on. */
  function SideOf(p: Point, q: Point, r: Point): real {
    (p.0 - r.0) * (q.1 - r.1) - (q.0 - r.0) * (p.1 - r.1)
  }

  predicate PointInTriangle(p: Point, a: Point, b: Point, c: Point) {
    var d1, d2, d3 := SideOf(p, a, b), SideOf(p, b, c), SideOf(p, c, a);
    var negative := d1 < 0.0 || d2 < 0.0 || d3 < 0.0;
    var positive := d1 > 0.0 || d2 > 0.0 || d3 > 0.0;
    !(negative && positive)
  }

  function Turn(a: Point, b: Point, c: Point): real {
    (b.0 - a.0) * (c.1 - a.1) - (b.1 - a.1) * (c.0 - a.0)
  }

  predicate Corners(ring: seq<Point>, left: seq<int>) {
    forall i :: 0 <= i < |left| ==> 0 <= left[i] < |ring|
  }

  /** The corner before and the corner after position `i` of the corners left. */
  function Before(left: seq<int>, i: nat): int
    requires i < |left|
  {
    left[if i == 0 then |left| - 1 else i - 1]
  }

  function After(left: seq<int>, i: nat): int
    requires i < |left|
  {
    left[if i == |left| - 1 then 0 else i + 1]
  }

  /** The corner at `i` is convex and no other corner left lies in its triangle. */
  predicate IsEar(ring: seq<Point>, left: seq<int>, i: nat)
    requires Corners(ring, left) && i < |left|
  {
    var a, b, c := Before(left, i), left[i], After(left, i);
    && Turn(ring[a], ring[b], ring[c]) > 0.0
    && forall k :: 0 <= k < |left| && left[k] !in {a, b, c} ==>
         !PointInTriangle(ring[left[k]], ring[a], ring[b], ring[c])
  }

  /** The first ear at or after position `i`, or the number of corners if there is none. */
  function FirstEar(ring: seq<Point>, left: seq<int>, i: nat): (e: nat)
    requires Corners(ring, left) && i <= |left|
    ensures i <= e <= |left|
    ensures e < |left| ==> IsEar(ring, left, e)
    ensures forall k :: i <= k < e ==> !IsEar(ring, left, k)
    decreases |left| - i
  {
    if i == |left| || IsEar(ring, left, i) then i else FirstEar(ring, left, i + 1)
  }

  function Cut(left: seq<int>, i: nat): (rest: seq<int>)
    requires i < |left|
    ensures |rest| == |left| - 1
    ensures forall x :: x in rest ==> x in left
  {
    left[..i] + left[i + 1..]
  }

  /** The triangles of the fan about the first corner, up to corner `k`. */
  function Fan(left: seq<int>, k: nat): seq<Triangle>
    requires k < |left|
  {
    if k <= 1 then [] else Fan(left, k - 1) + [(left[0], left[k - 1], left[k])]
  }

  /** Cuts the first ear as long as there is one, then fans what is left. */
  function Clip(ring: seq<Point>, left: seq<int>): seq<Triangle>
    requires Corners(ring, left) && |left| >= 3
    decreases |left|
  {
    var e := FirstEar(ring, left, 0);
    if |left| == 3 then [(left[0], left[1], left[2])]
    else if e == |left| then Fan(left, |left| - 1)
    else
      assert Corners(ring, Cut(left, e)) by { CutCorners(ring, left, e); }
      [(Before(left, e), left[e], After(left, e))] + Clip(ring, Cut(left, e))
  }

  lemma CutCorners(ring: seq<Point>, left: seq<int>, i: nat)
    requires Corners(ring, left) && i < |left|
    ensures Corners(ring, Cut(left, i))
  {
  }

  // ----------------------------------------------------------- sums over closed walks

  /** A weight for directed edges that changes sign with the direction. */
  ghost predicate Directed(f: (int, int) -> real) { forall i, j :: f(i, j) == -f(j, i) }

  lemma BackAndForth(f: (int, int) -> real, i: int, j: int)
    requires Directed(f)
    ensures f(i, j) + f(j, i) == 0.0
  {
  }

  /** The weights along a walk. */
  function Open(f: (int, int) -> real, walk: seq<int>): real {
    if |walk| <= 1 then 0.0
    else Open(f, walk[..|walk| - 1]) + f(walk[|walk| - 2], walk[|walk| - 1])
  }

  /** The weights along a closed walk. */
  function Loop(f: (int, int) -> real, walk: seq<int>): real
    requires walk != []
  {
    Open(f, walk) + f(walk[|walk| - 1], walk[0])
  }

  function Around(f: (int, int) -> real, t: Triangle): real {
    f(t.0, t.1) + f(t.1, t.2) + f(t.2, t.0)
  }

  function Sum(f: (int, int) -> real, triangles: seq<Triangle>): real {
    if triangles == [] then 0.0
    else Around(f, triangles[0]) + Sum(f, triangles[1..])
  }

  lemma {:induction false} SumOn(f: (int, int) -> real, ts: seq<Triangle>, t: Triangle)
    ensures Sum(f, ts + [t]) == Sum(f, ts) + Around(f, t)
  {
    if ts != [] {
      assert (ts + [t])[1..] == ts[1..] + [t];
      SumOn(f, ts[1..], t);
    }
  }

  lemma {:induction false} OpenJoin(f: (int, int) -> real, a: seq<int>, b: seq<int>)
    requires a != [] && b != []
    ensures Open(f, a + b) == Open(f, a) + f(a[|a| - 1], b[0]) + Open(f, b)
  {
    assert (a + b)[..|a + b| - 1] == a + b[..|b| - 1];
    if |b| == 1 {
      assert a + b[..0] == a;
    } else {
      OpenJoin(f, a, b[..|b| - 1]);
    }
  }

  lemma OpenOne(f: (int, int) -> real, a: int)
    ensures Open(f, [a]) == 0.0
  {
  }

  /** Cutting a corner off takes its triangle out of the closed walk. */
  lemma LoopCut(f: (int, int) -> real, left: seq<int>, i: nat)
    requires Directed(f) && |left| >= 3 && i < |left|
    ensures Loop(f, left)
         == Loop(f, Cut(left, i)) + Around(f, (Before(left, i), left[i], After(left, i)))
  {
    hide Open;
    var a, b, c := left[..i], [left[i]], left[i + 1..];
    assert left == a + (b + c) && left == (a + b) + c;
    OpenOne(f, left[i]);
    if i == 0 {
      OpenJoin(f, b, c);
      assert left == b + c && Cut(left, i) == c;
    } else if i == |left| - 1 {
      OpenJoin(f, a, b);
      assert left == a + b && Cut(left, i) == a;
    } else {
      OpenJoin(f, a, b + c);
      OpenJoin(f, b, c);
      OpenJoin(f, a, c);
    }
  }

  lemma {:induction false} FanSum(f: (int, int) -> real, left: seq<int>, k: nat)
    requires Directed(f) && 1 <= k < |left|
    ensures Sum(f, Fan(left, k)) == Loop(f, left[..k + 1])
  {
    hide Open;
    if k == 1 {
      OpenJoin(f, [left[0]], [left[1]]);
      assert left[..2] == [left[0]] + [left[1]];
      OpenOne(f, left[0]);
      OpenOne(f, left[1]);
    } else {
      FanSum(f, left, k - 1);
      SumOn(f, Fan(left, k - 1), (left[0], left[k - 1], left[k]));
      assert left[..k + 1] == left[..k] + [left[k]];
      OpenJoin(f, left[..k], [left[k]]);
      OpenOne(f, left[k]);
      BackAndForth(f, left[0], left[k - 1]);
    }
  }

  /** The triangles chain up to the ring: summed around every triangle, any weight that
      changes sign with direction gives its sum around the ring.  So every side of the ring
      belongs to one triangle more than it is crossed back, and every diagonal cancels. */
  lemma {:induction false} ClipSum(f: (int, int) -> real, ring: seq<Point>, left: seq<int>)
    requires Directed(f) && Corners(ring, left) && |left| >= 3
    ensures Sum(f, Clip(ring, left)) == Loop(f, left)
    decreases |left|
  {
    hide Open, IsEar, Sum;
    var e := FirstEar(ring, left, 0);
    if |left| == 3 {
      ThreeCorners(f, left);
    } else if e == |left| {
      FanSum(f, left, |left| - 1);
      assert left[..|left|] == left;
    } else {
      CutCorners(ring, left, e);
      ClipSum(f, ring, Cut(left, e));
      LoopCut(f, left, e);
      SumFirst(f, (Before(left, e), left[e], After(left, e)), Clip(ring, Cut(left, e)));
    }
  }

  lemma SumFirst(f: (int, int) -> real, t: Triangle, ts: seq<Triangle>)
    ensures Sum(f, [t] + ts) == Around(f, t) + Sum(f, ts)
  {
    assert ([t] + ts)[1..] == ts;
  }

  lemma ThreeCorners(f: (int, int) -> real, left: seq<int>)
    requires |left| == 3
    ensures Sum(f, [(left[0], left[1], left[2])]) == Loop(f, left)
  {
    var t := (left[0], left[1], left[2]);
    SumFirst(f, t, []);
    assert [t] + [] == [t];
    assert left[..2][..1] == [left[0]];
    assert Open(f, left[..2]) == f(left[0], left[1]);
  }

  /** A ring of n corners gives n - 2 triangles. */
  lemma {:induction false} ClipCount(ring: seq<Point>, left: seq<int>)
    requires Corners(ring, left) && |left| >= 3
    ensures |Clip(ring, left)| == |left| - 2
    decreases |left|
  {
    hide IsEar;
    var e := FirstEar(ring, left, 0);
    if |left| == 3 {
    } else if e == |left| {
      FanCount(left, |left| - 1);
    } else {
      CutCorners(ring, left, e);
      ClipCount(ring, Cut(left, e));
    }
  }

  lemma {:induction false} FanCount(left: seq<int>, k: nat)
    requires 1 <= k < |left|
    ensures |Fan(left, k)| == k - 1
  {
    if k > 1 {
      FanCount(left, k - 1);
    }
  }

  // ------------------------------------------------------------------- main results

  function Indices(n: nat): (all: seq<int>)
    ensures |all| == n && forall i :: 0 <= i < n ==> all[i] == i
  {
    seq(n, i => i)
  }

  /** Twice the signed area between an edge and the origin. */
  function Cross(p: Point, q: Point): real { p.0 * q.1 - q.0 * p.1 }

  function EdgeArea(ring: seq<Point>): (int, int) -> real {
    (i: int, j: int) =>
      if 0 <= i < |ring| && 0 <= j < |ring| then Cross(ring[i], ring[j]) else 0.0
  }

  /** The doubled signed area of the ring. */
  function RingArea(ring: seq<Point>): real
    requires ring != []
  {
    Loop(EdgeArea(ring), Indices(|ring|))
  }

  predicate TriangleOf(ring: seq<Point>, t: Triangle) {
    0 <= t.0 < |ring| && 0 <= t.1 < |ring| && 0 <= t.2 < |ring|
  }

  /** The doubled signed areas of the triangles. */
  function TriangleAreas(ring: seq<Point>, ts: seq<Triangle>): real
    requires forall t :: t in ts ==> TriangleOf(ring, t)
  {
    if ts == [] then 0.0
    else
      var t := ts[0];
      assert TriangleOf(ring, t);
      Turn(ring[t.0], ring[t.1], ring[t.2]) + TriangleAreas(ring, ts[1..])
  }

  lemma TurnIsAround(ring: seq<Point>, t: Triangle)
    requires TriangleOf(ring, t)
    ensures Turn(ring[t.0], ring[t.1], ring[t.2]) == Around(EdgeArea(ring), t)
  {
  }

  lemma {:induction false} AreasAreSum(ring: seq<Point>, ts: seq<Triangle>)
    requires forall t :: t in ts ==> TriangleOf(ring, t)
    ensures TriangleAreas(ring, ts) == Sum(EdgeArea(ring), ts)
  {
    hide Turn, Around, EdgeArea;
    if ts != [] {
      TurnIsAround(ring, ts[0]);
      AreasAreSum(ring, ts[1..]);
    }
  }

  /** Every triangle joins three different corners of those left. */
  predicate Joined(left: seq<int>, t: Triangle) {
    t.0 in left && t.1 in left && t.2 in left && t.0 != t.1 && t.1 != t.2 && t.0 != t.2
  }

  lemma {:induction false} FanJoined(left: seq<int>, k: nat)
    requires Distinct(left) && k < |left|
    ensures forall t :: t in Fan(left, k) ==> Joined(left, t)
  {
    if k > 1 {
      FanJoined(left, k - 1);
    }
  }

  lemma {:induction false} ClipJoined(ring: seq<Point>, left: seq<int>)
    requires Corners(ring, left) && |left| >= 3 && Distinct(left)
    ensures forall t :: t in Clip(ring, left) ==> Joined(left, t)
    decreases |left|
  {
    hide IsEar, Cut, Joined, Distinct;
    var e := FirstEar(ring, left, 0);
    if |left| == 3 {
      NeighboursJoined(left, 1);
    } else if e == |left| {
      FanJoined(left, |left| - 1);
    } else {
      CutCorners(ring, left, e);
      CutDistinct(left, e);
      ClipJoined(ring, Cut(left, e));
      NeighboursJoined(left, e);
      forall t | Joined(Cut(left, e), t) ensures Joined(left, t) {
        JoinedBefore(left, e, t);
      }
    }
  }

  lemma NeighboursJoined(left: seq<int>, e: nat)
    requires Distinct(left) && |left| >= 3 && e < |left|
    ensures Joined(left, (Before(left, e), left[e], After(left, e)))
  {
  }

  lemma JoinedBefore(left: seq<int>, e: nat, t: Triangle)
    requires e < |left| && Joined(Cut(left, e), t)
    ensures Joined(left, t)
  {
  }

  /** The roof: n - 2 triangles on corners of the ring whose signed areas sum to the signed
      area of the ring, whether the ears ran out or not. */
  lemma RoofCovers(ring: seq<Point>)
    requires |ring| >= 3
    ensures var ts := Clip(ring, Indices(|ring|));
      && |ts| == |ring| - 2
      && (forall t :: t in ts ==> TriangleOf(ring, t) && Joined(Indices(|ring|), t))
      && TriangleAreas(ring, ts) == RingArea(ring)
  {
    hide Open, Loop, Sum, TriangleAreas, Clip, EdgeArea, Turn, Cross;
    var left := Indices(|ring|);
    ClipCount(ring, left);
    ClipJoined(ring, left);
    CrossDirected(ring);
    ClipSum(EdgeArea(ring), ring, left);
    assert forall t :: Joined(left, t) ==> TriangleOf(ring, t);
    AreasAreSum(ring, Clip(ring, left));
  }

  // ------------------------------------------------------------------ what the ears are

  /** How many ears are cut before three corners are left or no corner is an ear. */
  function Ears(ring: seq<Point>, left: seq<int>): nat
    requires Corners(ring, left) && |left| >= 3
    decreases |left|
  {
    var e := FirstEar(ring, left, 0);
    if |left| == 3 || e == |left| then 0
    else
      assert Corners(ring, Cut(left, e)) by { CutCorners(ring, left, e); }
      1 + Ears(ring, Cut(left, e))
  }

  /** The corners without one of them. */
  function Drop(left: seq<int>, corner: int): seq<int> {
    if left == [] then []
    else if left[0] == corner then left[1..]
    else [left[0]] + Drop(left[1..], corner)
  }

  /** The corners left once the middle corners of the first `k` triangles are gone. */
  function LeftAfter(left: seq<int>, ts: seq<Triangle>, k: nat): seq<int>
    requires k <= |ts|
    decreases k
  {
    if k == 0 then left else LeftAfter(Drop(left, ts[0].1), ts[1..], k - 1)
  }

  /** The triangle of corners of the ring turns the positive way. */
  predicate TurnsPositive(ring: seq<Point>, t: Triangle) {
    TriangleOf(ring, t) && Turn(ring[t.0], ring[t.1], ring[t.2]) > 0.0
  }

  /** The triangle is a corner with its two neighbours, it turns the positive way, and no other
      corner left lies in it. */
  ghost predicate Clipped(ring: seq<Point>, left: seq<int>, t: Triangle) {
    && TurnsPositive(ring, t)
    && (exists i :: 0 <= i < |left| && t == (Before(left, i), left[i], After(left, i)))
    && forall v :: v in left && 0 <= v < |ring| && v !in {t.0, t.1, t.2} ==>
         !PointInTriangle(ring[v], ring[t.0], ring[t.1], ring[t.2])
  }

  lemma {:induction false} DropIsCut(left: seq<int>, i: nat)
    requires Distinct(left) && i < |left|
    ensures Drop(left, left[i]) == Cut(left, i) && Distinct(Cut(left, i))
    decreases i
  {
    hide Cut, Distinct;
    CutDistinct(left, i);
    if i == 0 {
      CutFirst(left);
    } else {
      Apart(left, i);
      RestDistinct(left);
      DropIsCut(left[1..], i - 1);
      CutRest(left, i);
    }
  }

  lemma CutFirst(left: seq<int>)
    requires left != []
    ensures Cut(left, 0) == left[1..]
  {
  }

  lemma Apart(left: seq<int>, i: nat)
    requires Distinct(left) && 0 < i < |left|
    ensures left[0] != left[i]
  {
  }

  lemma RestDistinct(left: seq<int>)
    requires Distinct(left) && left != []
    ensures Distinct(left[1..])
  {
  }

  lemma CutDistinct(left: seq<int>, i: nat)
    requires Distinct(left) && i < |left|
    ensures Distinct(Cut(left, i))
  {
    assert forall a :: 0 <= a < |left| - 1 ==> Cut(left, i)[a] == left[if a < i then a else a + 1];
  }

  lemma CutRest(left: seq<int>, i: nat)
    requires 0 < i < |left|
    ensures Cut(left, i) == [left[0]] + Cut(left[1..], i - 1)
  {
    assert left[..i] == [left[0]] + left[1..][..i - 1];
    assert left[1..][i..] == left[i + 1..];
  }

  lemma EarIsClipped(ring: seq<Point>, left: seq<int>, e: nat)
    requires Corners(ring, left) && e < |left| && IsEar(ring, left, e)
    ensures Clipped(ring, left, (Before(left, e), left[e], After(left, e)))
  {
    hide PointInTriangle, Turn;
    forall v | v in left && 0 <= v < |ring| && v !in {Before(left, e), left[e], After(left, e)}
      ensures !PointInTriangle(ring[v], ring[Before(left, e)], ring[left[e]], ring[After(left, e)])
    {
      var k :| 0 <= k < |left| && left[k] == v;
    }
  }

  /** One cut in front of what was shown for the corners left after it. */
  lemma OneMoreEar(ring: seq<Point>, left: seq<int>, e: nat, more: seq<Triangle>, m: nat)
    requires Distinct(left) && e < |left| && m <= |more|
    requires Clipped(ring, left, (Before(left, e), left[e], After(left, e)))
    requires forall k :: 0 <= k < m ==> Clipped(ring, LeftAfter(Cut(left, e), more, k), more[k])
    ensures var ts := [(Before(left, e), left[e], After(left, e))] + more;
      && (forall k :: 0 <= k < m + 1 ==> Clipped(ring, LeftAfter(left, ts, k), ts[k]))
      && LeftAfter(left, ts, m + 1) == LeftAfter(Cut(left, e), more, m) && ts[m + 1..] == more[m..]
  {
    hide Clipped, Cut, Distinct;
    var ts := [(Before(left, e), left[e], After(left, e))] + more;
    DropIsCut(left, e);
    assert ts[1..] == more;
    forall k | 0 <= k < m + 1 ensures Clipped(ring, LeftAfter(left, ts, k), ts[k]) {
      if k > 0 {
        assert ts[k] == more[k - 1];
        assert LeftAfter(left, ts, k) == LeftAfter(Cut(left, e), more, k - 1);
      }
    }
  }

  /**
   * The first `m` triangles are ears of the corners left at their moment. What follows is the fan
   * about the first corner of those left in the end: the one triangle when three are left, and
   * otherwise no corner of them is an ear.
   */
  ghost predicate EarByEar(ring: seq<Point>, left: seq<int>, ts: seq<Triangle>, m: nat) {
    && m + 3 <= |left| && m <= |ts|
    && (forall k :: 0 <= k < m ==> Clipped(ring, LeftAfter(left, ts, k), ts[k]))
    && EndsInFan(ring, LeftAfter(left, ts, m), |left| - m, ts[m..])
  }

  ghost predicate EndsInFan(ring: seq<Point>, last: seq<int>, size: nat, ts: seq<Triangle>) {
    && |last| == size && size >= 3 && Corners(ring, last) && ts == Fan(last, size - 1)
    && (size > 3 ==> forall e :: 0 <= e < size ==> !IsEar(ring, last, e))
  }

  lemma ClipStep(ring: seq<Point>, left: seq<int>)
    requires Corners(ring, left) && |left| >= 3
    ensures var e := FirstEar(ring, left, 0);
      if |left| == 3 then Clip(ring, left) == [(left[0], left[1], left[2])] && Ears(ring, left) == 0
      else if e == |left| then Clip(ring, left) == Fan(left, |left| - 1) && Ears(ring, left) == 0
      else
        && Corners(ring, Cut(left, e))
        && Clip(ring, left) == [(Before(left, e), left[e], After(left, e))] + Clip(ring, Cut(left, e))
        && Ears(ring, left) == 1 + Ears(ring, Cut(left, e))
  {
    hide IsEar, Fan;
    if FirstEar(ring, left, 0) < |left| {
      CutCorners(ring, left, FirstEar(ring, left, 0));
    }
  }

  lemma {:induction false} EarsAreClipped(ring: seq<Point>, left: seq<int>)
    requires Corners(ring, left) && |left| >= 3 && Distinct(left)
    ensures EarByEar(ring, left, Clip(ring, left), Ears(ring, left))
    decreases |left|
  {
    hide IsEar, Clipped, Cut, Distinct, Clip, Ears, Fan;
    var e := FirstEar(ring, left, 0);
    ClipStep(ring, left);
    if |left| == 3 || e == |left| {
      if |left| == 3 { OneFan(left); }
      assert Clip(ring, left)[0..] == Clip(ring, left);
    } else {
      EarIsClipped(ring, left, e);
      DropIsCut(left, e);
      EarsAreClipped(ring, Cut(left, e));
      OneMoreEar(ring, left, e, Clip(ring, Cut(left, e)), Ears(ring, Cut(left, e)));
    }
  }

  lemma OneFan(left: seq<int>)
    requires |left| == 3
    ensures Fan(left, 2) == [(left[0], left[1], left[2])]
  {
    assert Fan(left, 1) == [];
  }

  lemma {:induction false} AreasOfPrefix(ring: seq<Point>, ts: seq<Triangle>, t: Triangle)
    requires (forall s :: s in ts ==> TriangleOf(ring, s)) && TriangleOf(ring, t)
    ensures TriangleAreas(ring, ts + [t]) == TriangleAreas(ring, ts) + Turn(ring[t.0], ring[t.1], ring[t.2])
  {
    hide Turn, TriangleOf;
    if ts == [] {
      assert [] + [t] == [t];
      assert [t][1..] == [];
    } else {
      AreasOfPrefix(ring, ts[1..], t);
      assert (ts + [t])[1..] == ts[1..] + [t];
    }
  }

  /**
   * On the clipping path every triangle but the last turns the positive way, and the last does
   * exactly when the ears take up less than the ring's area.
   */
  lemma RoofTurns(ring: seq<Point>)
    requires |ring| >= 3 && Ears(ring, Indices(|ring|)) == |ring| - 3
    ensures |Clip(ring, Indices(|ring|))| == |ring| - 2
    ensures var ts := Clip(ring, Indices(|ring|)); var ears := ts[..|ring| - 3];
      && (forall t :: t in ears ==> TurnsPositive(ring, t) && TriangleOf(ring, t))
      && (TurnsPositive(ring, ts[|ring| - 3]) <==> TriangleAreas(ring, ears) < RingArea(ring))
  {
    hide Turn, Clip, LeftAfter, Ears, TriangleAreas, Fan, Loop, EdgeArea, IsEar, RingArea;
    var left, n := Indices(|ring|), |ring| - 3;
    EarsAreClipped(ring, left);
    RoofCovers(ring);
    hide EndsInFan;
    var ts := Clip(ring, left);
    assert ts == ts[..n] + [ts[n]];
    AreasOfPrefix(ring, ts[..n], ts[n]);
    forall t | t in ts[..n] ensures TurnsPositive(ring, t) {
      var k :| 0 <= k < n && ts[k] == t;
      assert Clipped(ring, LeftAfter(left, ts, k), ts[k]);
    }
  }

  /** A ring that crosses itself: its one ear is cut, and the last triangle turns the other way. */
  lemma BowTie()
    ensures var ring := [(0.0, 0.0), (2.0, 2.0), (2.0, 0.0), (0.0, 2.0)];
      && Ears(ring, Indices(4)) == 1 && Clip(ring, Indices(4)) == [(3, 0, 1), (1, 2, 3)]
      && !TurnsPositive(ring, (1, 2, 3))
  {
    var ring: seq<Point> := [(0.0, 0.0), (2.0, 2.0), (2.0, 0.0), (0.0, 2.0)];
    var left := [0, 1, 2, 3];
    assert Indices(4) == left;
    assert IsEar(ring, left, 0);
    assert FirstEar(ring, left, 0) == 0;
    assert Cut(left, 0) == [1, 2, 3];
  }

  lemma CrossDirected(ring: seq<Point>)
    ensures Directed(EdgeArea(ring))
  {
  }

  // ---------------------------------------------------------------- sides and diagonals

  function Hit(hit: bool): int { if hit then 1 else 0 }

  /** How many triangles run along the edge from `u` to `v`. */
  function Uses(ts: seq<Triangle>, u: int, v: int): int {
    if ts == [] then 0
    else
      Hit((ts[0].0, ts[0].1) == (u, v)) + Hit((ts[0].1, ts[0].2) == (u, v))
      + Hit((ts[0].2, ts[0].0) == (u, v)) + Uses(ts[1..], u, v)
  }

  function EdgeCount(u: int, v: int): (int, int) -> real {
    (i: int, j: int) => (Hit((i, j) == (u, v)) - Hit((i, j) == (v, u))) as real
  }

  lemma {:induction false} UsesAreSum(ts: seq<Triangle>, u: int, v: int)
    ensures (Uses(ts, u, v) - Uses(ts, v, u)) as real == Sum(EdgeCount(u, v), ts)
  {
    if ts != [] {
      UsesAreSum(ts[1..], u, v);
    }
  }

  lemma {:induction false} OpenIndices(n: nat, u: int, v: int)
    ensures Open(EdgeCount(u, v), Indices(n))
         == (Hit(0 <= u && v == u + 1 && v < n) - Hit(0 <= v && u == v + 1 && u < n)) as real
  {
    if n >= 2 {
      assert Indices(n)[..n - 1] == Indices(n - 1);
      OpenIndices(n - 1, u, v);
    }
  }

  /** Each side of the ring is a side of one more triangle than runs back along it; any other
      pair of corners is joined as often in one direction as in the other. */
  lemma SidesOnce(ring: seq<Point>, u: int, v: int)
    requires |ring| >= 3 && 0 <= u < |ring| && 0 <= v < |ring|
    ensures var ts, n := Clip(ring, Indices(|ring|)), |ring|;
      Uses(ts, u, v) - Uses(ts, v, u)
        == (if v == u + 1 || (u == n - 1 && v == 0) then 1
            else if u == v + 1 || (v == n - 1 && u == 0) then -1 else 0)
  {
    hide Clip, Sum, Uses, Open;
    var left := Indices(|ring|);
    assert Directed(EdgeCount(u, v));
    ClipSum(EdgeCount(u, v), ring, left);
    UsesAreSum(Clip(ring, left), u, v);
    OpenIndices(|ring|, u, v);
  }

  // ------------------------------------------------------------------------ the loops

  /** `isEar`: the loop over the other corners. */
  method EarTest(ring: seq<Point>, left: seq<int>, index: nat) returns (ear: bool)
    requires Corners(ring, left) && index < |left|
    ensures ear == IsEar(ring, left, index)
  {
    hide PointInTriangle, Turn;
    var previous := left[(index + |left| - 1) % |left|];
    var current := left[index];
    var next := left[(index + 1) % |left|];
    Neighbours(left, index);
    var a, b, c := ring[previous], ring[current], ring[next];
    if Turn(a, b, c) <= 0.0 {
      return false;
    }
    var k := 0;
    while k < |left|
      invariant 0 <= k <= |left|
      invariant forall i :: 0 <= i < k && left[i] !in {previous, current, next} ==>
        !PointInTriangle(ring[left[i]], a, b, c)
    {
      if left[k] != previous && left[k] != current && left[k] != next {
        if PointInTriangle(ring[left[k]], a, b, c) {
          return false;
        }
      }
      k := k + 1;
    }
    return true;
  }

  lemma Neighbours(left: seq<int>, i: nat)
    requires i < |left|
    ensures left[(i + |left| - 1) % |left|] == Before(left, i)
    ensures left[(i + 1) % |left|] == After(left, i)
  {
    if i == 0 { Wrapped(0, |left| - 1, |left|); } else { Wrapped(1, i - 1, |left|); }
    if i == |left| - 1 { Wrapped(1, 0, |left|); } else { Wrapped(0, i + 1, |left|); }
  }

  lemma Wrapped(turns: nat, i: nat, n: nat)
    requires i < n
    ensures (turns * n + i) % n == i
  {
    var all := turns * n + i;
    OneQuotient(turns, i, all / n, all % n, n);
  }

  /** `earClip`.  The guard counts down from the square of the number of corners; what is left
      of it is positive at the end, so it never stopped the loop. */
  method Triangulate(ring: seq<Point>) returns (triangles: seq<Triangle>, guard: int)
    ensures |ring| < 3 ==> triangles == []
    ensures |ring| >= 3 ==> triangles == Clip(ring, Indices(|ring|)) && guard > 0
  {
    hide IsEar, Cut, Fan;
    var count := |ring|;
    guard := count * count;
    triangles := [];
    if count < 3 {
      return;
    }
    var left := Indices(count);
    ThreeTimes(count);
    var clipped := true;
    while |left| > 3 && guard > 0 && clipped
      invariant Corners(ring, left) && 3 <= |left| <= count
      invariant guard >= 2 * count + |left| - (if clipped then 0 else 1)
      invariant Clip(ring, Indices(count)) == triangles + Clip(ring, left)
      invariant !clipped ==> FirstEar(ring, left, 0) == |left|
      decreases |left|, clipped
    {
      guard := guard - 1;
      clipped := false;
      var index := 0;
      while index < |left| && !clipped
        invariant 0 <= index <= |left|
        invariant FirstEar(ring, left, 0) == FirstEar(ring, left, index)
        invariant !clipped
      {
        var ear := EarTest(ring, left, index);
        if ear {
          break;
        }
        index := index + 1;
      }
      if index < |left| {
        CutCorners(ring, left, index);
        triangles := triangles + [(Before(left, index), left[index], After(left, index))];
        left := Cut(left, index);
        clipped := true;
      }
    }
    if |left| == 3 {
      triangles := triangles + [(left[0], left[1], left[2])];
    } else {
      var index := 1;
      ghost var clippedOff := triangles;
      FanStarts(left);
      while index + 1 < |left|
        invariant 1 <= index < |left|
        invariant triangles == clippedOff + Fan(left, index)
      {
        triangles := triangles + [(left[0], left[index], left[index + 1])];
        FanGrows(left, index);
        index := index + 1;
      }
    }
  }

  lemma ThreeTimes(count: nat)
    requires count >= 3
    ensures count * count >= 3 * count
  {
  }

  lemma FanStarts(left: seq<int>)
    requires |left| > 1
    ensures Fan(left, 1) == []
  {
  }

  lemma FanGrows(left: seq<int>, k: nat)
    requires 1 <= k && k + 1 < |left|
    ensures Fan(left, k + 1) == Fan(left, k) + [(left[0], left[k], left[k + 1])]
  {
  }
}
