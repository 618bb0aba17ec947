/**
 * `componentRings`: collects the boundary edges of a component in a map from a corner to the
 * ends of the edges leaving it, then walks edges out of the map until none is left.
 */
module RingTrace {
  import opened Grid
  import opened Rings
  import Area = RingArea

  // ---------------------------------------------------------------- grid and lattice

  predicate IsMember(member: set<int>, columns: int, rows: int, x: int, y: int) {
    InBounds(x, y, columns, rows) && CellAt(x, y, columns) in member
  }

  function Key(x: int, y: int, columns: int): int { y * (columns + 1) + x }

  function Corner(at: int, columns: int): int
    requires columns > 0
  {
    Key(ColumnOf(at, columns), LineOf(at, columns), columns)
  }

  function Corners(cells: seq<int>, columns: int): seq<int>
    requires columns > 0
  {
    seq(|cells|, i requires 0 <= i < |cells| => Corner(cells[i], columns))
  }

  /** What the component flood hands over: distinct cells of the grid. */
  predicate Component(cells: seq<int>, columns: int, rows: int) {
    && columns > 0
    && Distinct(cells)
    && (forall i :: 0 <= i < |cells| ==> InMask(cells[i], columns, rows))
  }

  lemma CornerInGrid(at: int, columns: int, rows: int)
    requires columns > 0 && InMask(at, columns, rows)
    ensures Area.InGrid(Corner(at, columns), columns + 1)
    ensures Area.At(Corner(at, columns), columns + 1) == (ColumnOf(at, columns), LineOf(at, columns))
  {
    CellCoordinates(at, columns, rows);
    Area.AtOf(ColumnOf(at, columns), LineOf(at, columns), columns + 1);
  }

  /** Corner keys tell cells apart, also across the ends of the rows. */
  lemma CornerOf(at: int, x: int, y: int, columns: int, rows: int)
    requires columns > 0 && InMask(at, columns, rows) && -1 <= x <= columns
    ensures Key(x, y, columns) == Corner(at, columns) <==> x == ColumnOf(at, columns) && y == LineOf(at, columns)
  {
    CellCoordinates(at, columns, rows);
    if Key(x, y, columns) == Corner(at, columns) {
      if x == -1 {
        assert y * (columns + 1) == (y - 1) * (columns + 1) + (columns + 1);
        OneQuotient(y - 1, columns, LineOf(at, columns), ColumnOf(at, columns), columns + 1);
        assert false;
      } else {
        OneQuotient(y, x, LineOf(at, columns), ColumnOf(at, columns), columns + 1);
      }
    }
  }

  /** The cell at `(x, y)`, by position and by corner. */
  lemma SameCell(at: int, x: int, y: int, columns: int, rows: int)
    requires columns > 0 && InMask(at, columns, rows) && -1 <= x <= columns
    ensures Key(x, y, columns) == Corner(at, columns)
        <==> InBounds(x, y, columns, rows) && CellAt(x, y, columns) == at
  {
    CornerOf(at, x, y, columns, rows);
    CellCoordinates(at, columns, rows);
    if InBounds(x, y, columns, rows) {
      CoordinatesOf(x, y, columns, rows);
    }
  }

  lemma MemberByCorner(cells: seq<int>, columns: int, rows: int, x: int, y: int)
    requires Component(cells, columns, rows) && -1 <= x <= columns
    ensures IsMember(Members(cells), columns, rows, x, y)
        <==> Key(x, y, columns) in Members(Corners(cells, columns))
  {
    hide Key, Corner, InMask, Distinct;
    var keys := Corners(cells, columns);
    assert forall i :: 0 <= i < |cells| ==> keys[i] == Corner(cells[i], columns);
    forall i | 0 <= i < |cells|
      ensures keys[i] == Key(x, y, columns)
         <==> InBounds(x, y, columns, rows) && CellAt(x, y, columns) == cells[i]
    {
      SameCell(cells[i], x, y, columns, rows);
    }
    if IsMember(Members(cells), columns, rows, x, y) {
      var i :| 0 <= i < |cells| && cells[i] == CellAt(x, y, columns);
      assert keys[i] in keys;
    }
    if Key(x, y, columns) in Members(keys) {
      var i :| 0 <= i < |keys| && keys[i] == Key(x, y, columns);
      assert cells[i] in cells;
    }
  }

  lemma CornersApart(a: int, b: int, columns: int, rows: int)
    requires columns > 0 && InMask(a, columns, rows) && InMask(b, columns, rows) && a != b
    ensures Corner(a, columns) != Corner(b, columns)
  {
    CellCoordinates(a, columns, rows);
    CellCoordinates(b, columns, rows);
    CornerOf(b, ColumnOf(a, columns), LineOf(a, columns), columns, rows);
  }

  lemma CornersDistinct(cells: seq<int>, columns: int, rows: int)
    requires Component(cells, columns, rows)
    ensures Distinct(Corners(cells, columns))
  {
    hide Corner, InMask;
    forall i, j | 0 <= i < j < |cells|
      ensures Corners(cells, columns)[i] != Corners(cells, columns)[j]
    {
      CornersApart(cells[i], cells[j], columns, rows);
    }
  }

  function BoundaryOf(cells: seq<int>, columns: int): seq<Edge>
    requires columns > 0
  {
    Boundary(Corners(cells, columns), Members(Corners(cells, columns)), columns + 1)
  }

  // --------------------------------------------------------------------- the edge map

  /** The map lists exactly the given edges by their starts, with no empty list. */
  ghost predicate Lists(edges: map<int, seq<int>>, all: multiset<Edge>) {
    && (forall k :: k in edges ==> edges[k] != [])
    && (forall e: Edge :: all[e] == if e.0 in edges then multiset(edges[e.0])[e.1] else 0)
  }

  method Add(edges: map<int, seq<int>>, start: int, end: int, ghost all: multiset<Edge>)
    returns (grown: map<int, seq<int>>)
    requires Lists(edges, all)
    ensures Lists(grown, all + multiset{(start, end)})
  {
    var ends := if start in edges then edges[start] else [];
    grown := edges[start := ends + [end]];
  }

  lemma ListedStart(edges: map<int, seq<int>>, all: multiset<Edge>, e: Edge)
    requires Lists(edges, all) && e in all
    ensures e.0 in edges
  {
    assert all[e] > 0;
  }

  lemma HeadListed(edges: map<int, seq<int>>, all: multiset<Edge>, k: int)
    requires Lists(edges, all) && k in edges
    ensures (k, edges[k][0]) in all
  {
    assert all[(k, edges[k][0])] == multiset(edges[k])[edges[k][0]];
  }

  /** `ends.shift()` and the removal of an emptied list. */
  method Shift(edges: map<int, seq<int>>, current: int, ghost all: multiset<Edge>)
    returns (next: int, shrunk: map<int, seq<int>>)
    requires Lists(edges, all) && current in edges
    ensures (current, next) in all && Lists(shrunk, all - multiset{(current, next)})
  {
    HeadListed(edges, all, current);
    var ends := edges[current];
    next := ends[0];
    ghost var rest := ends[1..];
    assert ends == [next] + rest;
    if |ends| == 1 {
      shrunk := edges - {current};
      assert rest == [];
    } else {
      shrunk := edges[current := ends[1..]];
    }
    assert multiset(ends) == multiset{next} + multiset(rest);
  }

  method AddSide(edges: map<int, seq<int>>, hidden: bool, start: int, end: int,
                 ghost all: multiset<Edge>)
    returns (grown: map<int, seq<int>>)
    requires Lists(edges, all)
    ensures Lists(grown, all + multiset(Side(hidden, (start, end))))
  {
    grown := edges;
    if !hidden {
      grown := Add(edges, start, end, all);
    }
  }

  /** The edges there are after the four sides of a cell that are not hidden are added. */
  ghost function FourSides(before: multiset<Edge>, above: bool, right: bool, below: bool, left: bool,
                           a: int, b: int, c: int, d: int): multiset<Edge> {
    before + multiset(Side(above, (a, b))) + multiset(Side(right, (b, c)))
           + multiset(Side(below, (c, d))) + multiset(Side(left, (d, a)))
  }

  ghost function WithSides(before: multiset<Edge>, v: int, m: set<int>, w: int): multiset<Edge> {
    FourSides(before, v - w in m, v + 1 in m, v + w in m, v - 1 in m, v, v + 1, v + 1 + w, v + w)
  }

  lemma JoinAll(z: seq<Edge>, a: seq<Edge>, b: seq<Edge>, c: seq<Edge>, d: seq<Edge>)
    ensures multiset(z + (a + b + c + d))
         == multiset(z) + multiset(a) + multiset(b) + multiset(c) + multiset(d)
  {
  }

  lemma BoundaryStep(keys: seq<int>, v: int, m: set<int>, w: int)
    ensures Boundary(keys + [v], m, w) == Boundary(keys, m, w) + Sides(v, m, w)
  {
    hide Sides;
    assert (keys + [v])[..|keys|] == keys;
  }

  lemma BoundaryOn(keys: seq<int>, v: int, m: set<int>, w: int)
    ensures multiset(Boundary(keys + [v], m, w)) == WithSides(multiset(Boundary(keys, m, w)), v, m, w)
  {
    hide Side, Boundary;
    BoundaryStep(keys, v, m, w);
    JoinAll(Boundary(keys, m, w), Side(v - w in m, (v, v + 1)),
            Side(v + 1 in m, (v + 1, v + 1 + w)), Side(v + w in m, (v + 1 + w, v + w)),
            Side(v - 1 in m, (v + w, v)));
  }

  lemma MembersAround(cells: seq<int>, columns: int, rows: int, at: int)
    requires Component(cells, columns, rows) && at in cells
    ensures var member, x, y := Members(cells), ColumnOf(at, columns), LineOf(at, columns);
            var m, v, w := Members(Corners(cells, columns)), Corner(at, columns), columns + 1;
            && (IsMember(member, columns, rows, x, y - 1) <==> v - w in m)
            && (IsMember(member, columns, rows, x + 1, y) <==> v + 1 in m)
            && (IsMember(member, columns, rows, x, y + 1) <==> v + w in m)
            && (IsMember(member, columns, rows, x - 1, y) <==> v - 1 in m)
            && Key(x + 1, y, columns) == v + 1
            && Key(x, y + 1, columns) == v + w
            && Key(x + 1, y + 1, columns) == v + 1 + w
  {
    hide Corners, Members, IsMember;
    var x, y := ColumnOf(at, columns), LineOf(at, columns);
    MemberByCorner(cells, columns, rows, x, y - 1);
    MemberByCorner(cells, columns, rows, x + 1, y);
    MemberByCorner(cells, columns, rows, x, y + 1);
    MemberByCorner(cells, columns, rows, x - 1, y);
  }

  /** The four conditional additions, given the corners and what lies on the other sides. */
  method AddFour(edges: map<int, seq<int>>, ghost before: multiset<Edge>,
                 above: bool, right: bool, below: bool, leftwards: bool, a: int, b: int, c: int, d: int)
    returns (grown: map<int, seq<int>>)
    requires Lists(edges, before)
    ensures Lists(grown, FourSides(before, above, right, below, leftwards, a, b, c, d))
  {
    hide Lists, Side;
    grown := AddSide(edges, above, a, b, before);
    ghost var all := before + multiset(Side(above, (a, b)));
    grown := AddSide(grown, right, b, c, all);
    all := all + multiset(Side(right, (b, c)));
    grown := AddSide(grown, below, c, d, all);
    all := all + multiset(Side(below, (c, d)));
    grown := AddSide(grown, leftwards, d, a, all);
  }

  /** Adds the boundary sides of one cell. */
  method CollectCell(edges: map<int, seq<int>>, ghost before: multiset<Edge>, ghost cells: seq<int>,
                     member: set<int>, columns: int, rows: int, at: int)
    returns (grown: map<int, seq<int>>)
    requires columns > 0 && Component(cells, columns, rows) && at in cells && member == Members(cells)
    requires Lists(edges, before)
    ensures Lists(grown, WithSides(before, Corner(at, columns), Members(Corners(cells, columns)),
                                   columns + 1))
  {
    hide Component, Corner, Key, IsMember, Members, Corners, Lists, FourSides, ColumnOf, LineOf;
    var x, y := ColumnOf(at, columns), LineOf(at, columns);
    var above := IsMember(member, columns, rows, x, y - 1);
    var right := IsMember(member, columns, rows, x + 1, y);
    var below := IsMember(member, columns, rows, x, y + 1);
    var leftwards := IsMember(member, columns, rows, x - 1, y);
    grown := AddFour(edges, before, above, right, below, leftwards,
                     Key(x, y, columns), Key(x + 1, y, columns),
                     Key(x + 1, y + 1, columns), Key(x, y + 1, columns));
    MembersAround(cells, columns, rows, at);
    KeyOfCorner(at, columns);
  }

  /** Collects the boundary sides of every cell of the component. */
  method CollectEdges(cells: seq<int>, columns: int, rows: int) returns (edges: map<int, seq<int>>)
    requires Component(cells, columns, rows)
    ensures Lists(edges, multiset(BoundaryOf(cells, columns)))
  {
    hide Corner, Members, Boundary, Lists, Side, WithSides, Distinct, InMask;
    var member := Members(cells);
    ghost var keys, m, w := Corners(cells, columns), Members(Corners(cells, columns)), columns + 1;
    edges := map[];
    NothingListed(m, w);
    assert keys[..0] == [];
    var i := 0;
    while i < |cells|
      invariant 0 <= i <= |cells|
      invariant Lists(edges, multiset(Boundary(keys[..i], m, w)))
    {
      ghost var before := multiset(Boundary(keys[..i], m, w));
      edges := CollectCell(edges, before, cells, member, columns, rows, cells[i]);
      BoundaryOn(keys[..i], keys[i], m, w);
      assert keys[..i + 1] == keys[..i] + [keys[i]];
      i := i + 1;
    }
    assert keys[..|cells|] == keys;
  }

  lemma NothingListed(m: set<int>, w: int)
    ensures Lists(map[], multiset(Boundary([], m, w)))
  {
  }

  lemma KeyOfCorner(at: int, columns: int)
    requires columns > 0
    ensures Corner(at, columns) == Key(ColumnOf(at, columns), LineOf(at, columns), columns)
  {
  }

  lemma AllListed(edges: map<int, seq<int>>, all: multiset<Edge>)
    requires Lists(edges, all) && edges.Keys == {}
    ensures all == multiset{}
  {
  }

  // -------------------------------------------------------------------------- walking

  lemma KeysOn(ring: seq<Point>, key: int, w: int)
    requires w >= 2
    ensures Keys(ring + [Area.At(key, w)], w) == Keys(ring, w) + [key]
    ensures Area.OnLattice(ring, w) ==> Area.OnLattice(ring + [Area.At(key, w)], w)
  {
    PointOfKey(key, w);
  }

  /** Walks from `startKey` over unused edges.  The walk never gets stuck and closes exactly
      where it started; the edges it used and the edges left make up those it was given. */
  method Walk(given: map<int, seq<int>>, startKey: int, columns: int, ghost all: multiset<Edge>)
    returns (ring: seq<Point>, edges: map<int, seq<int>>, ghost left: multiset<Edge>)
    requires columns > 0 && Lists(given, all) && startKey in given
    requires Walking(all, columns + 1, startKey, startKey)
    ensures Lists(edges, left) && Walking(left, columns + 1, startKey, startKey)
    ensures ring != [] && Area.OnLattice(ring, columns + 1)
    ensures Keys(ring, columns + 1)[0] == startKey
    ensures multiset(RingEdges(ring, columns + 1)) + left == all
    ensures |left| < |all|
  {
    hide Lists, Walking, Keys, Steps, Area.OnLattice, Area.At, RingEdges;
    ghost var w := columns + 1;
    edges, left, ring := given, all, [];
    ghost var walk: seq<int> := [];
    var current := startKey;
    EmptyWalk(current, w);
    assert walk + [current] == [current];
    while true
      invariant Lists(edges, left) && Walking(left, w, startKey, current)
      invariant ring == [] ==> current == startKey && startKey in edges
      invariant ring != [] ==> current != startKey
      invariant Keys(ring, w) == walk && |walk| == |ring| && Area.OnLattice(ring, w)
      invariant (walk + [current])[0] == startKey
      invariant multiset(Steps(walk + [current])) + left == all
      invariant |left| <= |all| && (ring != [] ==> |left| < |all|)
      decreases |left|
    {
      if ring != [] {
        NeverStuck(left, w, startKey, current);
        ghost var to :| (current, to) in left;
        ListedStart(edges, left, (current, to));
      }
      assert current in edges;
      var next: int;
      next, edges := Shift(edges, current, left);
      WalkOn(left, w, startKey, current, next);
      UseEdge(walk, current, next, left, all);
      left := left - multiset{(current, next)};
      KeysOn(ring, current, w);
      ring := ring + [Area.At(current, columns + 1)];
      walk := walk + [current];
      current := next;
      if current == startKey {
        break;
      }
    }
    RingFromWalk(ring, walk, w);
  }

  /** The edge walked over moves from those left to those used. */
  lemma UseEdge(walk: seq<int>, current: int, next: int, left: multiset<Edge>, all: multiset<Edge>)
    requires multiset(Steps(walk + [current])) + left == all && (current, next) in left
    ensures multiset(Steps(walk + [current] + [next])) + (left - multiset{(current, next)}) == all
    ensures |left - multiset{(current, next)}| == |left| - 1
  {
    hide Steps;
    StepsOn(walk + [current], next);
  }

  lemma RingFromWalk(ring: seq<Point>, walk: seq<int>, w: int)
    requires Keys(ring, w) == walk && walk != []
    ensures RingEdges(ring, w) == Steps(walk + [walk[0]])
  {
  }

  lemma EmptyWalk(current: int, w: int)
    ensures Keys([], w) == [] && Steps([current]) == [] && Area.OnLattice([], w)
  {
  }

  ghost predicate Balanced(edges: multiset<Edge>, w: int) {
    && (forall e :: e in edges ==> Unit(e, w))
    && (forall v :: Net(edges, w, v) == 0)
  }

  lemma BalancedIsClosed(edges: multiset<Edge>, w: int, start: int)
    ensures Balanced(edges, w) <==> Walking(edges, w, start, start)
  {
  }

  lemma BoundaryBalanced(cells: seq<int>, columns: int, rows: int)
    requires Component(cells, columns, rows)
    ensures Balanced(multiset(BoundaryOf(cells, columns)), columns + 1)
  {
    hide Boundary;
    CornersDistinct(cells, columns, rows);
    var keys := Corners(cells, columns);
    var all, w := multiset(BoundaryOf(cells, columns)), columns + 1;
    forall v ensures Net(all, w, v) == 0 {
      CornersBalance(keys, w, v);
    }
    forall e | e in multiset(BoundaryOf(cells, columns)) ensures Unit(e, columns + 1) {
      BoundaryExactly(keys, columns + 1, e);
    }
  }

  /** A ring of boundary edges passes the length test. */
  lemma RingIsLong(cells: seq<int>, columns: int, rows: int, ring: seq<Point>,
                   left: multiset<Edge>)
    requires Component(cells, columns, rows) && ring != []
    requires multiset(RingEdges(ring, columns + 1)) + left <= multiset(BoundaryOf(cells, columns))
    ensures |ring| >= 3
  {
    hide Boundary, Steps, OnBoundary;
    CornersDistinct(cells, columns, rows);
    var keys, w := Corners(cells, columns), columns + 1;
    var walk := Keys(ring, w);
    forall e | e in Steps(walk + [walk[0]]) ensures OnBoundary(e, Members(keys), w) {
      assert e in multiset(RingEdges(ring, w));
      assert e in multiset(BoundaryOf(cells, columns));
      BoundaryExactly(keys, w, e);
    }
    assert AllOnBoundary(Steps(walk + [walk[0]]), Members(keys), w);
    RingsAreLong(walk, Members(keys), w);
  }

  lemma RingsCover(cells: seq<int>, columns: int, rows: int, rings: seq<seq<Point>>)
    requires Component(cells, columns, rows)
    requires forall r :: r in rings ==> Area.OnLattice(r, columns + 1)
    requires multiset(AllEdges(rings, columns + 1)) == multiset(BoundaryOf(cells, columns))
    ensures Area.Areas(rings) == 2 * |cells|
  {
    hide Boundary, Area.OnLattice, AllEdges;
    CornersDistinct(cells, columns, rows);
    var keys := Corners(cells, columns);
    forall v | v in keys ensures Area.InGrid(v, columns + 1) {
      var i :| 0 <= i < |keys| && keys[i] == v;
      CornerInGrid(cells[i], columns, rows);
    }
    Area.RingAreas(keys, rings, columns + 1);
  }

  /** The rings of a component use every boundary edge exactly once, each has at least three
      corners, and their signed areas sum to the number of cells. */
  method ComponentRings(cells: seq<int>, columns: int, rows: int)
    returns (rings: seq<seq<Point>>)
    requires columns > 0 && Component(cells, columns, rows)
    ensures multiset(AllEdges(rings, columns + 1)) == multiset(BoundaryOf(cells, columns))
    ensures forall r :: r in rings ==> |r| >= 3 && Area.OnLattice(r, columns + 1)
    ensures Area.Areas(rings) == 2 * |cells|
  {
    hide Component, BoundaryOf, Lists, Walking, Balanced, RingEdges, AllEdges, Area.OnLattice,
         Area.Areas, Keys;
    ghost var w, all := columns + 1, multiset(BoundaryOf(cells, columns));
    ghost var left := all;
    BoundaryBalanced(cells, columns, rows);
    var edges := CollectEdges(cells, columns, rows);
    rings := [];
    assert multiset(AllEdges(rings, w)) == multiset{} by { NoEdges(w); }
    while edges.Keys != {}
      invariant Lists(edges, left) && Balanced(left, w)
      invariant multiset(AllEdges(rings, w)) + left == all
      invariant forall r :: r in rings ==> |r| >= 3 && Area.OnLattice(r, w)
      decreases |left|
    {
      SomeMember(edges.Keys);
      var startKey :| startKey in edges.Keys;
      BalancedIsClosed(left, w, startKey);
      ghost var before := left;
      var ring;
      ring, edges, left := Walk(edges, startKey, columns, left);
      BalancedIsClosed(left, w, startKey);
      assert multiset(RingEdges(ring, w)) + left == before <= all;
      RingIsLong(cells, columns, rows, ring, left);
      if |ring| >= 3 {
        AllEdgesOn(rings, ring, w);
        rings := rings + [ring];
      }
    }
    AllListed(edges, left);
    RingsCover(cells, columns, rows, rings);
  }

  lemma NoEdges(w: int)
    ensures multiset(AllEdges([], w)) == multiset{}
  {
  }
}
