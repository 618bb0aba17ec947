/**
 * The signed area of the boundary rings.  Walking round every member cell separately and
 * summing the cross products counts each cell twice and each side shared by two members once
 * in either direction, so the shared sides cancel and the boundary alone carries the sum.
 */
module RingArea {
  import opened Grid
  import opened Rings

  function Cross(p: Point, q: Point): int { p.0 * q.1 - q.0 * p.1 }

  function At(key: int, w: int): Point
    requires w >= 2
  {
    (key % w, key / w)
  }

  function EdgeCross(e: Edge, w: int): int
    requires w >= 2
  {
    Cross(At(e.0, w), At(e.1, w))
  }

  function Total(edges: seq<Edge>, w: int): int
    requires w >= 2
  {
    if edges == [] then 0 else Total(edges[..|edges| - 1], w) + EdgeCross(edges[|edges| - 1], w)
  }

  lemma {:induction false} TotalJoin(a: seq<Edge>, b: seq<Edge>, w: int)
    requires w >= 2
    ensures Total(a + b, w) == Total(a, w) + Total(b, w)
  {
    if b == [] {
      assert a + b == a;
    } else {
      assert (a + b)[..|a + b| - 1] == a + b[..|b| - 1];
      TotalJoin(a, b[..|b| - 1], w);
    }
  }

  lemma Without(b: seq<Edge>, i: nat)
    requires i < |b|
    ensures multiset(b[..i] + b[i + 1..]) == multiset(b) - multiset{b[i]}
  {
    assert b == b[..i] + [b[i]] + b[i + 1..];
  }

  lemma TotalWithout(b: seq<Edge>, i: nat, w: int)
    requires w >= 2 && i < |b|
    ensures Total(b, w) == Total(b[..i] + b[i + 1..], w) + EdgeCross(b[i], w)
  {
    hide EdgeCross;
    assert b[..i + 1][..i] == b[..i];
    assert b == b[..i + 1] + b[i + 1..];
    TotalJoin(b[..i + 1], b[i + 1..], w);
    TotalJoin(b[..i], b[i + 1..], w);
  }

  /** The sum does not depend on the order of the edges. */
  lemma {:induction false} TotalOfMultiset(a: seq<Edge>, b: seq<Edge>, w: int)
    requires w >= 2 && multiset(a) == multiset(b)
    ensures Total(a, w) == Total(b, w)
    decreases |a|
  {
    hide Total;
    if a == [] {
      assert |multiset(b)| == 0;
      assert b == [];
    } else {
      assert a[0] in multiset(b);
      var i :| 0 <= i < |b| && b[i] == a[0];
      Without(a, 0);
      Without(b, i);
      TotalWithout(a, 0, w);
      TotalWithout(b, i, w);
      TotalOfMultiset(a[..0] + a[1..], b[..i] + b[i + 1..], w);
    }
  }

  // --------------------------------------------------------------------- shared sides

  /** The cross product of the side of `v` that `u` shares, zero when they share none. */
  function Shared(v: int, u: int, w: int): int
    requires w >= 2
  {
    if u == v - w then EdgeCross((v, v + 1), w)
    else if u == v + 1 then EdgeCross((v + 1, v + 1 + w), w)
    else if u == v + w then EdgeCross((v + 1 + w, v + w), w)
    else if u == v - 1 then EdgeCross((v + w, v), w)
    else 0
  }

  lemma SharedCancels(v: int, u: int, w: int)
    requires w >= 2
    ensures Shared(v, u, w) == -Shared(u, v, w)
  {
    hide At;
  }

  function Row(v: int, us: seq<int>, w: int): int
    requires w >= 2
  {
    if us == [] then 0 else Row(v, us[..|us| - 1], w) + Shared(v, us[|us| - 1], w)
  }

  function Pairs(vs: seq<int>, us: seq<int>, w: int): int
    requires w >= 2
  {
    if vs == [] then 0 else Pairs(vs[..|vs| - 1], us, w) + Row(vs[|vs| - 1], us, w)
  }

  lemma {:induction false} PairsOn(vs: seq<int>, us: seq<int>, u: int, w: int)
    requires w >= 2
    ensures Pairs(vs, us + [u], w) == Pairs(vs, us, w) - Row(u, vs, w)
  {
    hide Shared;
    if vs != [] {
      PairsOn(vs[..|vs| - 1], us, u, w);
      assert (us + [u])[..|us|] == us;
      SharedCancels(vs[|vs| - 1], u, w);
    }
  }

  lemma {:induction false} PairsSwap(vs: seq<int>, us: seq<int>, w: int)
    requires w >= 2
    ensures Pairs(vs, us, w) == -Pairs(us, vs, w)
  {
    if vs == [] {
      NoPairs(us, w);
    } else {
      PairsSwap(vs[..|vs| - 1], us, w);
      assert vs == vs[..|vs| - 1] + [vs[|vs| - 1]];
      PairsOn(us, vs[..|vs| - 1], vs[|vs| - 1], w);
    }
  }

  lemma {:induction false} NoPairs(us: seq<int>, w: int)
    requires w >= 2
    ensures Pairs(us, [], w) == 0
  {
    if us != [] {
      NoPairs(us[..|us| - 1], w);
    }
  }

  lemma {:induction false} RowOf(v: int, us: seq<int>, w: int)
    requires w >= 2 && Distinct(us)
    ensures Row(v, us, w) == (if v - w in us then Shared(v, v - w, w) else 0)
                           + (if v + 1 in us then Shared(v, v + 1, w) else 0)
                           + (if v + w in us then Shared(v, v + w, w) else 0)
                           + (if v - 1 in us then Shared(v, v - 1, w) else 0)
  {
    hide EdgeCross;
    if us != [] {
      var rest, last := us[..|us| - 1], us[|us| - 1];
      assert us == rest + [last];
      assert last !in rest;
      RowOf(v, rest, w);
    }
  }

  // --------------------------------------------------------------------- whole cells

  /** A cell of the grid: its top left corner is not at the end of a row of corners. */
  predicate InGrid(v: int, w: int)
    requires w >= 2
  {
    v >= 0 && v % w + 1 < w
  }

  lemma AtOf(x: int, y: int, w: int)
    requires w >= 2 && 0 <= x < w
    ensures At(y * w + x, w) == (x, y)
  {
    var key := y * w + x;
    PointOfKey(key, w);
    OneQuotient(y, x, key / w, key % w, w);
  }

  /** Walking round one cell gives twice its area. */
  lemma CellArea(v: int, w: int)
    requires w >= 2 && InGrid(v, w)
    ensures Shared(v, v - w, w) + Shared(v, v + 1, w) + Shared(v, v + w, w) + Shared(v, v - 1, w)
         == 2
  {
    hide At;
    var x, y := v % w, v / w;
    assert v == y * w + x;
    assert (y + 1) * w == y * w + w;
    AtOf(x, y, w);
    AtOf(x + 1, y, w);
    AtOf(x, y + 1, w);
    AtOf(x + 1, y + 1, w);
  }

  lemma SideTotal(hidden: bool, e: Edge, w: int)
    requires w >= 2
    ensures Total(Side(hidden, e), w) == if hidden then 0 else EdgeCross(e, w)
  {
    assert [e][..0] == [];
  }

  lemma SidesTotal(v: int, cells: seq<int>, w: int)
    requires w >= 2 && Distinct(cells) && InGrid(v, w)
    ensures Total(Sides(v, Members(cells), w), w) == 2 - Row(v, cells, w)
  {
    hide Side, EdgeCross, Total, InGrid, Row, Distinct;
    var m := Members(cells);
    var a, b := Side(v - w in m, (v, v + 1)), Side(v + 1 in m, (v + 1, v + 1 + w));
    var c, d := Side(v + w in m, (v + 1 + w, v + w)), Side(v - 1 in m, (v + w, v));
    TotalJoin(a + b + c, d, w);
    TotalJoin(a + b, c, w);
    TotalJoin(a, b, w);
    SideTotal(v - w in m, (v, v + 1), w);
    SideTotal(v + 1 in m, (v + 1, v + 1 + w), w);
    SideTotal(v + w in m, (v + 1 + w, v + w), w);
    SideTotal(v - 1 in m, (v + w, v), w);
    RowOf(v, cells, w);
    CellArea(v, w);
  }

  lemma {:induction false} BoundaryTotal(vs: seq<int>, cells: seq<int>, w: int)
    requires w >= 2 && Distinct(cells) && forall v :: v in vs ==> InGrid(v, w)
    ensures Total(Boundary(vs, Members(cells), w), w) == 2 * |vs| - Pairs(vs, cells, w)
  {
    hide InGrid, Sides, Row;
    if vs != [] {
      BoundaryTotal(vs[..|vs| - 1], cells, w);
      TotalJoin(Boundary(vs[..|vs| - 1], Members(cells), w),
                Sides(vs[|vs| - 1], Members(cells), w), w);
      SidesTotal(vs[|vs| - 1], cells, w);
    }
  }

  // ------------------------------------------------------------------------- shoelace

  /** The doubled signed area of a ring, summed over its first `n` corners. */
  function Shoelace(ring: seq<Point>, n: nat): int
    requires n <= |ring|
  {
    if n == 0 then 0 else Shoelace(ring, n - 1) + Cross(ring[n - 1], ring[n % |ring|])
  }

  function Areas(rings: seq<seq<Point>>): int {
    if rings == [] then 0
    else Areas(rings[..|rings| - 1]) + Shoelace(rings[|rings| - 1], |rings[|rings| - 1]|)
  }

  /** The corners of a ring lie on the lattice. */
  predicate OnLattice(ring: seq<Point>, w: int) {
    forall p :: p in ring ==> 0 <= p.0 < w
  }

  lemma StepTotal(walk: seq<int>, to: int, w: int)
    requires w >= 2 && walk != []
    ensures Total(Steps(walk + [to]), w)
         == Total(Steps(walk), w) + EdgeCross((walk[|walk| - 1], to), w)
  {
    assert (walk + [to])[..|walk|] == walk;
    var last := (walk[|walk| - 1], to);
    assert (Steps(walk) + [last])[..|Steps(walk)|] == Steps(walk);
  }

  lemma KeysCross(ring: seq<Point>, i: nat, j: nat, w: int)
    requires w >= 2 && i < |ring| && j < |ring| && OnLattice(ring, w)
    ensures EdgeCross((Keys(ring, w)[i], Keys(ring, w)[j]), w) == Cross(ring[i], ring[j])
  {
    hide At, Cross;
    AtOf(ring[i].0, ring[i].1, w);
    AtOf(ring[j].0, ring[j].1, w);
  }

  lemma ShoelaceStep(ring: seq<Point>, n: nat)
    requires n < |ring|
    ensures Shoelace(ring, n)
         == if n == 0 then 0 else Shoelace(ring, n - 1) + Cross(ring[n - 1], ring[n])
  {
    assert n % |ring| == n;
  }

  lemma {:induction false} OpenShoelace(ring: seq<Point>, n: nat, w: int)
    requires w >= 2 && n < |ring| && OnLattice(ring, w) && |Keys(ring, w)| == |ring|
    ensures Shoelace(ring, n) == Total(Steps(Keys(ring, w)[..n + 1]), w)
  {
    hide EdgeCross, Cross, Total, Keys, OnLattice, Steps, Shoelace;
    var keys := Keys(ring, w);
    ShoelaceStep(ring, n);
    if n == 0 {
      NoSteps(keys[..1], w);
    } else {
      OpenShoelace(ring, n - 1, w);
      assert keys[..n + 1] == keys[..n] + [keys[n]];
      StepTotal(keys[..n], keys[n], w);
      KeysCross(ring, n - 1, n, w);
    }
  }

  lemma KeysLength(ring: seq<Point>, w: int)
    ensures |Keys(ring, w)| == |ring|
  {
  }

  lemma NoSteps(walk: seq<int>, w: int)
    requires w >= 2 && |walk| <= 1
    ensures Total(Steps(walk), w) == 0
  {
  }

  lemma ShoelaceOfRing(ring: seq<Point>, w: int)
    requires w >= 2 && OnLattice(ring, w)
    ensures Shoelace(ring, |ring|) == Total(RingEdges(ring, w), w)
  {
    hide EdgeCross, Cross, Keys, OnLattice, Steps;
    KeysLength(ring, w);
    if ring != [] {
      var keys, n := Keys(ring, w), |ring|;
      OpenShoelace(ring, n - 1, w);
      assert keys[..n] == keys;
      StepTotal(keys, keys[0], w);
      KeysCross(ring, n - 1, 0, w);
    }
  }

  lemma {:induction false} AreasTotal(rings: seq<seq<Point>>, w: int)
    requires w >= 2 && forall r :: r in rings ==> OnLattice(r, w)
    ensures Areas(rings) == Total(AllEdges(rings, w), w)
  {
    if rings != [] {
      AreasTotal(rings[..|rings| - 1], w);
      ShoelaceOfRing(rings[|rings| - 1], w);
      TotalJoin(AllEdges(rings[..|rings| - 1], w), RingEdges(rings[|rings| - 1], w), w);
    }
  }

  /** However the boundary of a component is cut into rings, their signed areas sum to its
      number of cells (the sums here are doubled). */
  lemma RingAreas(cells: seq<int>, rings: seq<seq<Point>>, w: int)
    requires w >= 2 && Distinct(cells) && forall v :: v in cells ==> InGrid(v, w)
    requires forall r :: r in rings ==> OnLattice(r, w)
    requires multiset(AllEdges(rings, w)) == multiset(Boundary(cells, Members(cells), w))
    ensures Areas(rings) == 2 * |cells|
  {
    AreasTotal(rings, w);
    TotalOfMultiset(AllEdges(rings, w), Boundary(cells, Members(cells), w), w);
    BoundaryTotal(cells, cells, w);
    PairsSwap(cells, cells, w);
  }
}
