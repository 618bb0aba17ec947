/**
 * The boundary rings of one building component: every side of a member cell whose neighbour
 * is not a member is a directed unit edge on the corner lattice, and the edges are chained
 * into closed rings.  A corner `(x, y)` is known by its key `y * w + x`, where `w` is the
 * number of corners in a row, and a cell by the key of its top left corner.
 */
module Rings {
  import opened Grid

  type Edge = (int, int)
  type Point = (int, int)

  function Bit(b: bool): int { if b then 1 else 0 }

  // ------------------------------------------------------------------ edges and cells

  /** An edge joins two neighbouring corners. */
  predicate Unit(e: Edge, w: int) {
    e.1 == e.0 + 1 || e.1 == e.0 + w || e.1 == e.0 - 1 || e.1 == e.0 - w
  }

  /** The cell whose side, walked with the cell on the inner hand, is `e`. */
  function Owner(e: Edge, w: int): int {
    if e.1 == e.0 + 1 then e.0
    else if e.1 == e.0 + w then e.0 - 1
    else if e.1 == e.0 - 1 then e.1 - w
    else e.1
  }

  /** The cell on the other hand of `e`. */
  function Across(e: Edge, w: int): int {
    if e.1 == e.0 + 1 then e.0 - w
    else if e.1 == e.0 + w then e.0
    else if e.1 == e.0 - 1 then e.1
    else e.1 - 1
  }

  predicate OnBoundary(e: Edge, members: set<int>, w: int) {
    Unit(e, w) && Owner(e, w) in members && Across(e, w) !in members
  }

  function Side(hidden: bool, e: Edge): seq<Edge> { if hidden then [] else [e] }

  /** The boundary sides of one cell, in the order the source adds them. */
  function Sides(v: int, members: set<int>, w: int): seq<Edge> {
    Side(v - w in members, (v, v + 1)) +
    Side(v + 1 in members, (v + 1, v + 1 + w)) +
    Side(v + w in members, (v + 1 + w, v + w)) +
    Side(v - 1 in members, (v + w, v))
  }

  function Boundary(cells: seq<int>, members: set<int>, w: int): seq<Edge> {
    if cells == [] then []
    else Boundary(cells[..|cells| - 1], members, w) + Sides(cells[|cells| - 1], members, w)
  }

  lemma SideCount(hidden: bool, side: Edge, e: Edge)
    ensures multiset(Side(hidden, side))[e] == Bit(!hidden && e == side)
  {
  }

  lemma JoinCount(a: seq<Edge>, b: seq<Edge>, c: seq<Edge>, d: seq<Edge>, e: Edge)
    ensures multiset(a + b + c + d)[e]
         == multiset(a)[e] + multiset(b)[e] + multiset(c)[e] + multiset(d)[e]
  {
  }

  lemma SidesOf(v: int, members: set<int>, w: int, e: Edge)
    requires w >= 2
    ensures multiset(Sides(v, members, w))[e]
         == Bit(Unit(e, w) && Owner(e, w) == v && Across(e, w) !in members)
  {
    hide Side;
    JoinCount(Side(v - w in members, (v, v + 1)), Side(v + 1 in members, (v + 1, v + 1 + w)),
              Side(v + w in members, (v + 1 + w, v + w)), Side(v - 1 in members, (v + w, v)), e);
    SideCount(v - w in members, (v, v + 1), e);
    SideCount(v + 1 in members, (v + 1, v + 1 + w), e);
    SideCount(v + w in members, (v + 1 + w, v + w), e);
    SideCount(v - 1 in members, (v + w, v), e);
  }

  lemma {:induction false} BoundaryUpTo(cells: seq<int>, members: set<int>, w: int, e: Edge)
    requires w >= 2 && Distinct(cells)
    ensures multiset(Boundary(cells, members, w))[e]
         == Bit(Unit(e, w) && Owner(e, w) in cells && Across(e, w) !in members)
  {
    if cells != [] {
      var rest, v := cells[..|cells| - 1], cells[|cells| - 1];
      assert cells == rest + [v];
      BoundaryUpTo(rest, members, w, e);
      SidesOf(v, members, w, e);
      assert multiset(Boundary(cells, members, w))
          == multiset(Boundary(rest, members, w)) + multiset(Sides(v, members, w));
    }
  }

  /** The edge list holds exactly the boundary edges of the component, each once. */
  lemma BoundaryExactly(cells: seq<int>, w: int, e: Edge)
    requires w >= 2 && Distinct(cells)
    ensures multiset(Boundary(cells, Members(cells), w))[e]
         == Bit(OnBoundary(e, Members(cells), w))
  {
    BoundaryUpTo(cells, Members(cells), w, e);
  }

  // --------------------------------------------------------------- degrees at a corner

  function Out(edges: multiset<Edge>, w: int, v: int): int {
    edges[(v, v + 1)] + edges[(v, v + w)] + edges[(v, v - 1)] + edges[(v, v - w)]
  }

  function In(edges: multiset<Edge>, w: int, v: int): int {
    edges[(v - 1, v)] + edges[(v - w, v)] + edges[(v + 1, v)] + edges[(v + w, v)]
  }

  function Net(edges: multiset<Edge>, w: int, v: int): int {
    Out(edges, w, v) - In(edges, w, v)
  }

  /** The eight edges at a corner, by the four cells around it. */
  lemma AroundCorner(cells: seq<int>, w: int, v: int)
    requires w >= 2 && Distinct(cells)
    ensures var edges, m := multiset(Boundary(cells, Members(cells), w)), Members(cells);
            var ne, se, sw, nw := v - w in m, v in m, v - 1 in m, v - 1 - w in m;
            && edges[(v, v + 1)] == Bit(se && !ne)
            && edges[(v, v + w)] == Bit(sw && !se)
            && edges[(v, v - 1)] == Bit(nw && !sw)
            && edges[(v, v - w)] == Bit(ne && !nw)
            && edges[(v - 1, v)] == Bit(sw && !nw)
            && edges[(v - w, v)] == Bit(nw && !ne)
            && edges[(v + 1, v)] == Bit(ne && !se)
            && edges[(v + w, v)] == Bit(se && !sw)
  {
    hide Boundary, Members;
    BoundaryExactly(cells, w, (v, v + 1));
    BoundaryExactly(cells, w, (v, v + w));
    BoundaryExactly(cells, w, (v, v - 1));
    BoundaryExactly(cells, w, (v, v - w));
    BoundaryExactly(cells, w, (v - 1, v));
    BoundaryExactly(cells, w, (v - w, v));
    BoundaryExactly(cells, w, (v + 1, v));
    BoundaryExactly(cells, w, (v + w, v));
  }

  /** Going round a corner, as many cells are entered as are left. */
  lemma CornersBalance(cells: seq<int>, w: int, v: int)
    requires w >= 2 && Distinct(cells)
    ensures Out(multiset(Boundary(cells, Members(cells), w)), w, v)
         == In(multiset(Boundary(cells, Members(cells), w)), w, v)
  {
    hide Boundary, Members;
    AroundCorner(cells, w, v);
  }

  /** Walking over an edge uses up one way out of its start and one way into its end. */
  lemma NetAfter(edges: multiset<Edge>, w: int, e: Edge, v: int)
    requires w >= 2 && e in edges && Unit(e, w)
    ensures Net(edges - multiset{e}, w, v) == Net(edges, w, v) - Bit(v == e.0) + Bit(v == e.1)
  {
  }

  /** The state of a walk from `start` to `current`: only its two ends are out of balance. */
  ghost predicate Walking(edges: multiset<Edge>, w: int, start: int, current: int) {
    && (forall e :: e in edges ==> Unit(e, w))
    && (forall v :: Net(edges, w, v) == Bit(v == current) - Bit(v == start))
  }

  /** A walk that has not closed always has a way on. */
  lemma NeverStuck(edges: multiset<Edge>, w: int, start: int, current: int)
    requires Walking(edges, w, start, current) && current != start
    ensures exists to :: (current, to) in edges
  {
    assert Net(edges, w, current) == 1;
    assert Out(edges, w, current) >= 1;
    assert (current, current + 1) in edges || (current, current + w) in edges
        || (current, current - 1) in edges || (current, current - w) in edges;
  }

  lemma WalkOn(edges: multiset<Edge>, w: int, start: int, current: int, to: int)
    requires w >= 2 && Walking(edges, w, start, current) && (current, to) in edges
    ensures Walking(edges - multiset{(current, to)}, w, start, to)
  {
    forall v
      ensures Net(edges - multiset{(current, to)}, w, v) == Bit(v == to) - Bit(v == start)
    {
      NetAfter(edges, w, (current, to), v);
    }
  }

  // ------------------------------------------------------------------- walks and rings

  /** The edges a walk through the given corners uses. */
  function Steps(walk: seq<int>): seq<Edge> {
    if |walk| <= 1 then []
    else Steps(walk[..|walk| - 1]) + [(walk[|walk| - 2], walk[|walk| - 1])]
  }

  function Keys(ring: seq<Point>, w: int): seq<int> {
    seq(|ring|, i requires 0 <= i < |ring| => ring[i].1 * w + ring[i].0)
  }

  /** The edges of a ring: from each corner to the next and from the last to the first. */
  function RingEdges(ring: seq<Point>, w: int): seq<Edge>
  {
    if ring == [] then [] else Steps(Keys(ring, w) + [Keys(ring, w)[0]])
  }

  function AllEdges(rings: seq<seq<Point>>, w: int): seq<Edge> {
    if rings == [] then []
    else AllEdges(rings[..|rings| - 1], w) + RingEdges(rings[|rings| - 1], w)
  }

  lemma StepsOn(walk: seq<int>, to: int)
    requires walk != []
    ensures multiset(Steps(walk + [to]))
         == multiset(Steps(walk)) + multiset{(walk[|walk| - 1], to)}
  {
    assert (walk + [to])[..|walk|] == walk;
  }

  lemma AllEdgesOn(rings: seq<seq<Point>>, ring: seq<Point>, w: int)
    ensures multiset(AllEdges(rings + [ring], w))
         == multiset(AllEdges(rings, w)) + multiset(RingEdges(ring, w))
  {
    assert (rings + [ring])[..|rings|] == rings;
  }

  lemma PointOfKey(key: int, w: int)
    requires w >= 2
    ensures (key / w) * w + key % w == key
  {
  }

  /** A boundary edge is no loop, and its reverse is not on the boundary. */
  lemma OneWay(e: Edge, members: set<int>, w: int)
    requires w >= 2 && OnBoundary(e, members, w)
    ensures e.0 != e.1 && !OnBoundary((e.1, e.0), members, w)
  {
    assert Owner((e.1, e.0), w) == Across(e, w);
  }

  lemma ShortSteps(a: int, b: int, c: int)
    ensures Steps([a, b]) == [(a, b)]
    ensures Steps([a, b, c]) == [(a, b), (b, c)]
  {
    assert [a, b][..1] == [a];
    assert [a, b, c][..2] == [a, b];
  }

  lemma NoLoop(a: int, members: set<int>, w: int)
    requires w >= 2
    ensures !OnBoundary((a, a), members, w)
  {
  }

  lemma NoReturn(a: int, b: int, members: set<int>, w: int)
    requires w >= 2
    ensures !(OnBoundary((a, b), members, w) && OnBoundary((b, a), members, w))
  {
    hide OnBoundary;
    if OnBoundary((a, b), members, w) {
      OneWay((a, b), members, w);
    }
  }

  lemma ClosedByOne(walk: seq<int>)
    requires |walk| == 1
    ensures (walk[0], walk[0]) in Steps(walk + [walk[0]])
  {
    hide Steps;
    var a := walk[0];
    ShortSteps(a, a, a);
    assert walk + [walk[0]] == [a, a];
    assert Steps([a, a])[0] == (a, a);
  }

  lemma ClosedByTwo(walk: seq<int>)
    requires |walk| == 2
    ensures (walk[0], walk[1]) in Steps(walk + [walk[0]])
    ensures (walk[1], walk[0]) in Steps(walk + [walk[0]])
  {
    hide Steps;
    var a, b := walk[0], walk[1];
    ShortSteps(a, b, a);
    assert walk + [walk[0]] == [a, b, a];
    assert Steps([a, b, a])[0] == (a, b) && Steps([a, b, a])[1] == (b, a);
  }

  predicate AllOnBoundary(edges: seq<Edge>, members: set<int>, w: int) {
    forall e :: e in edges ==> OnBoundary(e, members, w)
  }

  lemma OneOnBoundary(edges: seq<Edge>, members: set<int>, w: int, e: Edge)
    requires AllOnBoundary(edges, members, w) && e in edges
    ensures OnBoundary(e, members, w)
  {
  }

  /** A closed walk over boundary edges has at least three of them: the length test on a ring
      drops nothing. */
  lemma RingsAreLong(walk: seq<int>, members: set<int>, w: int)
    requires w >= 2 && walk != [] && AllOnBoundary(Steps(walk + [walk[0]]), members, w)
    ensures |walk| >= 3
  {
    hide OnBoundary, Steps, AllOnBoundary;
    var steps := Steps(walk + [walk[0]]);
    if |walk| == 1 {
      ClosedByOne(walk);
      NoLoop(walk[0], members, w);
      OneOnBoundary(steps, members, w, (walk[0], walk[0]));
    } else if |walk| == 2 {
      ClosedByTwo(walk);
      NoReturn(walk[0], walk[1], members, w);
      OneOnBoundary(steps, members, w, (walk[0], walk[1]));
      OneOnBoundary(steps, members, w, (walk[1], walk[0]));
    }
  }
}
