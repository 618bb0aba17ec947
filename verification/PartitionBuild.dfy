/**
 * The partition as the builder runs it: the scan of a square, the recursion that appends nodes,
 * and the sorted skeleton without repeated keys, in which a point finds the square over it.
 */
module PartitionBuild {
  import opened Bytes
  import opened Bits
  import opened NodeKeys
  import opened Reals
  import opened Records
  import opened Sorting
  import opened Partition
  import opened PartitionNodes
  import Grid
  import Reader
  import Quadtree

  /** The two loops over the cells of a square. */
  method Scan(env: Env, sq: Square) returns (s: Stats)
    ensures s == SquareStats(env, sq)
  {
    hide AddCell, Min;
    s := NOTHING;
    var x1, y1 := Min(sq.x + sq.size, env.proxy.width), Min(sq.y + sq.size, env.proxy.height);
    var y := sq.y;
    while y < y1
      invariant sq.y <= y && (y <= y1 || y == sq.y)
      invariant s == AreaStats(env, sq.x, x1, sq.y, y)
    {
      ghost var before := s;
      var x := sq.x;
      while x < x1
        invariant sq.x <= x && (x <= x1 || x == sq.x)
        invariant s == RowStats(env, before, y, sq.x, x)
      {
        s := AddCell(env, s, x, y);
        x := x + 1;
      }
      if x1 < sq.x {
        EmptyRow(env, before, y, sq.x, x1);
      }
      y := y + 1;
    }
  }

  lemma NodesJoin(env: Env, a: seq<Square>, b: seq<Square>)
    requires AllMergeable(env, a) && AllMergeable(env, b)
    ensures AllMergeable(env, a + b) && Nodes(env, a + b) == Nodes(env, a) + Nodes(env, b)
  {
    hide Mergeable, NodeOf;
    assert forall i :: 0 <= i < |b| ==> (a + b)[|a| + i] == b[i];
  }

  lemma {:induction false} MergedJoin(a: seq<Part>, b: seq<Part>)
    ensures Merged(a + b) == Merged(a) + Merged(b)
  {
    if a == [] {
      assert a + b == b;
    } else {
      var first := if a[0].merged then [a[0].square] else [];
      assert (a + b)[1..] == a[1..] + b && (a + b)[0] == a[0];
      MergedJoin(a[1..], b);
      assert Merged(a) == first + Merged(a[1..]);
      assert Merged(a + b) == first + (Merged(a[1..]) + Merged(b));
      assert first + (Merged(a[1..]) + Merged(b)) == first + Merged(a[1..]) + Merged(b);
    }
  }

  lemma MergedFour(a: seq<Part>, b: seq<Part>, c: seq<Part>, d: seq<Part>)
    ensures Merged(a + b + c + d) == Merged(a) + Merged(b) + Merged(c) + Merged(d)
  {
    MergedJoin(a + b + c, d);
    MergedJoin(a + b, c);
    MergedJoin(a, b);
  }

  lemma PartsMergeable(env: Env, sq: Square, side: nat, k: nat)
    requires Aligned(sq, side) && sq.size == Pow2(k) && side <= Pow2(31)
    ensures AllMergeable(env, Merged(Parts(env, sq)))
  {
    hide Parts, Aligned, Decide, FitsKey, Pow2;
    PartsWellPlaced(env, sq, side, k);
    MergedFrom(Parts(env, sq), 0, 0);
    var squares := Merged(Parts(env, sq));
    forall i | 0 <= i < |squares| ensures Mergeable(env, squares[i]) {
      assert squares[i] in squares;
      assert WellPlaced(env, Part(squares[i], true), side);
      AlignedFits(squares[i], side);
    }
  }

  /** `partition_recursive`: appends the nodes of the merged squares to `nodes`. */
  method Recurse(env: Env, sq: Square, nodes: seq<QNode>, ghost side: nat, ghost k: nat)
    returns (out: seq<QNode>)
    requires Aligned(sq, side) && sq.size == Pow2(k) && side <= Pow2(31)
    ensures AllMergeable(env, Merged(Parts(env, sq)))
    ensures out == nodes + Nodes(env, Merged(Parts(env, sq)))
    decreases sq.size
  {
    hide Parts, Merged, Aligned, SquareStats, Quarter, NodeOf, FitsKey, Pow2;
    PartsMergeable(env, sq, side, k);
    PartsStep(env, sq, side);
    out := nodes;
    var o := env.options;
    if sq.size == 0 || o.maxCoarse <= 0.0 {
      return;
    }
    var span := sq.size as real * env.res;
    var s := Scan(env, sq);
    if s.count == 0 {
      return;
    }
    SeenIsMax(env, sq);
    var mean := s.sum / s.count as real;
    if span < o.minCoarse {
      return;
    }
    var uniform := s.max.value - mean <= o.threshold;
    if uniform && span <= o.maxCoarse && !s.blocked {
      AlignedInGrid(sq, side);
      AlignedFits(sq, side);
      var cells := Pow2(sq.depth);
      if sq.x / sq.size < cells && sq.y / sq.size < cells {
        out := nodes + [NodeOf(env, sq)];
      }
      return;
    }
    if sq.depth >= o.maxDepth || sq.size < 2 {
      return;
    }
    SplitsInHalf(env, sq, k);
    QuarterAligned(sq, side, k - 1, 0);
    QuarterAligned(sq, side, k - 1, 1);
    QuarterAligned(sq, side, k - 1, 2);
    QuarterAligned(sq, side, k - 1, 3);
    PowStep(k);
    out := RecurseQuarters(env, sq, nodes, side, k);
  }

  /** The four recursive calls. */
  method RecurseQuarters(env: Env, sq: Square, nodes: seq<QNode>, ghost side: nat, ghost k: nat)
    returns (out: seq<QNode>)
    requires k > 0 && sq.size > 0 && side <= Pow2(31)
    requires forall q: nat :: q < 4 ==> Quarter(sq, q).size < sq.size
    requires forall q: nat :: q < 4 ==>
      Aligned(Quarter(sq, q), side) && Quarter(sq, q).size == Pow2(k - 1)
    ensures var m := Merged(Parts(env, Quarter(sq, 0))) + Merged(Parts(env, Quarter(sq, 1)))
        + Merged(Parts(env, Quarter(sq, 2))) + Merged(Parts(env, Quarter(sq, 3)));
      AllMergeable(env, m) && out == nodes + Nodes(env, m)
    decreases sq.size, 0
  {
    hide Parts, Merged, Aligned, Quarter, Nodes, AllMergeable, Pow2;
    ghost var a, b := Merged(Parts(env, Quarter(sq, 0))), Merged(Parts(env, Quarter(sq, 1)));
    ghost var c, d := Merged(Parts(env, Quarter(sq, 2))), Merged(Parts(env, Quarter(sq, 3)));
    out := Recurse(env, Quarter(sq, 0), nodes, side, k - 1);
    out := Recurse(env, Quarter(sq, 1), out, side, k - 1);
    out := Recurse(env, Quarter(sq, 2), out, side, k - 1);
    out := Recurse(env, Quarter(sq, 3), out, side, k - 1);
    NodesJoin(env, a, b);
    NodesJoin(env, a + b, c);
    NodesJoin(env, a + b + c, d);
    assert nodes + Nodes(env, a) + Nodes(env, b) + Nodes(env, c) + Nodes(env, d)
        == nodes + (Nodes(env, a) + Nodes(env, b) + Nodes(env, c) + Nodes(env, d));
  }

  lemma SeenIsMax(env: Env, sq: Square)
    ensures SquareStats(env, sq).count > 0 <==> SquareStats(env, sq).max.Some?
  {
    hide SquareStats;
    SquareDescribed(env, sq);
  }

  /** The squares merged within a square, by what the recursion decides. */
  lemma PartsStep(env: Env, sq: Square, side: nat)
    requires Aligned(sq, side)
    ensures var m := Merged(Parts(env, sq));
      match Decide(env, sq)
      case Merge => m == [sq]
      case Split =>
        m == Merged(Parts(env, Quarter(sq, 0))) + Merged(Parts(env, Quarter(sq, 1)))
           + Merged(Parts(env, Quarter(sq, 2))) + Merged(Parts(env, Quarter(sq, 3)))
      case _ => m == []
  {
    hide Decide, Quarter, Aligned;
    AlignedInGrid(sq, side);
    if Decide(env, sq) == Split {
      MergedFour(Parts(env, Quarter(sq, 0)), Parts(env, Quarter(sq, 1)),
                 Parts(env, Quarter(sq, 2)), Parts(env, Quarter(sq, 3)));
    }
  }

  // ------------------------------------------------------------------ the skeleton

  /** The square of the partition: the longer axis rounded up to a power of two. */
  function RootOf(env: Env): Square
    requires env.proxy.width > 0
  {
    var n := if env.proxy.width < env.proxy.height then env.proxy.height else env.proxy.width;
    Square(0, 0, Quadtree.NextPow2(n), 0)
  }

  /** Keeps the first of neighbouring nodes with one key. */
  function Dedup(s: seq<QNode>): seq<QNode>
    decreases |s|
  {
    if |s| <= 1 then s
    else if s[0].morton == s[1].morton then Dedup([s[0]] + s[2..])
    else [s[0]] + Dedup(s[1..])
  }

  lemma {:induction false} DedupKeepsAll(s: seq<QNode>)
    requires Strict(s, Reader.Morton)
    ensures Dedup(s) == s
  {
    if |s| > 1 {
      assert Reader.Morton(s[0]) < Reader.Morton(s[1]);
      DedupKeepsAll(s[1..]);
    }
  }

  lemma SkeletonSorted(env: Env, root: Square, k: nat)
    requires Root(env, root, k)
    ensures AllMergeable(env, Skeleton(env, root))
    ensures Strict(SortBy(Nodes(env, Skeleton(env, root)), Reader.Morton), Reader.Morton)
  {
    hide Skeleton, NodeOf, Aligned, Decide, FitsKey, KeyOf;
    SkeletonMergeable(env, root, k);
    var squares := Skeleton(env, root);
    forall i | 0 <= i < |squares| ensures Mergeable(env, squares[i]) {
      assert squares[i] in squares;
    }
    var nodes := Nodes(env, squares);
    var keys := MapSeq(Reader.Morton, nodes);
    forall i, j | 0 <= i < j < |keys| ensures keys[i] != keys[j] {
      KeysDistinct(env, root, k, i, j);
      NodeKeyOf(env, squares[i]);
      NodeKeyOf(env, squares[j]);
    }
    StrictOnceSorted(nodes);
  }

  lemma NodeKeyOf(env: Env, sq: Square)
    requires Mergeable(env, sq)
    ensures NodeOf(env, sq).morton == KeyOf(sq)
  {
  }

  lemma StrictOnceSorted(nodes: seq<QNode>)
    requires NoRepeats(MapSeq(Reader.Morton, nodes))
    ensures Strict(SortBy(nodes, Reader.Morton), Reader.Morton)
  {
    hide SortBy;
    var sorted := SortBy(nodes, Reader.Morton);
    SortByCorrect(nodes, Reader.Morton);
    Reader.SkeletonAccepted(nodes);
    Reader.StrictFromNeighbours(sorted, |sorted|);
  }

  /** The nodes of the skeleton, sorted by key. */
  ghost function SkeletonNodes(env: Env, root: Square, k: nat): (nodes: seq<QNode>)
    requires Root(env, root, k)
    ensures Strict(nodes, Reader.Morton)
  {
    SkeletonSorted(env, root, k);
    SortBy(Nodes(env, Skeleton(env, root)), Reader.Morton)
  }

  /** The exponent of the root's size. */
  ghost function RootPower(env: Env): (k: nat)
    requires env.proxy.width > 0
    requires env.proxy.width <= 0x8000_0000 && env.proxy.height <= 0x8000_0000
    ensures Root(env, RootOf(env), k)
  {
    var n := if env.proxy.width < env.proxy.height then env.proxy.height else env.proxy.width;
    assert n <= Pow2(n) by { Quadtree.PowAbove(n); }
    Sixty();
    Quadtree.LeastPower(n, 0)
  }

  /** What the partition comes to: nothing for an empty grid, an error for a channel that is not
      there, and otherwise the nodes of the merged squares by ascending key. */
  ghost function Partitioned(env: Env): (r: Result<seq<QNode>>)
    requires env.proxy.width <= 0x8000_0000 && env.proxy.height <= 0x8000_0000
    ensures r.Ok? ==> Strict(r.value, Reader.Morton)
  {
    if env.proxy.width == 0 || env.proxy.height == 0 then Ok([])
    else if env.proxy.channel >= env.proxy.channels then Err(Invalid)
    else Ok(SkeletonNodes(env, RootOf(env), RootPower(env)))
  }

  /** `partition_skeleton`: the sort leaves no two neighbours alike, so the removal of repeated
      keys at the end removes nothing, and the nodes are exactly those of the merged squares. */
  method PartitionSkeleton(env: Env) returns (r: Result<seq<QNode>>)
    requires env.proxy.width <= 0x8000_0000 && env.proxy.height <= 0x8000_0000
    ensures r == Partitioned(env)
    ensures env.proxy.width > 0 && env.proxy.height > 0 && env.proxy.channel < env.proxy.channels
        ==> var squares := Skeleton(env, RootOf(env));
            && AllMergeable(env, squares)
            && Reader.BuildSkeleton(Nodes(env, squares)) == r
  {
    hide Skeleton, NodeOf, SortBy, Nodes, Dedup, AllMergeable;
    if env.proxy.width == 0 || env.proxy.height == 0 {
      return Ok([]);
    }
    if env.proxy.channel >= env.proxy.channels {
      return Err(Invalid);
    }
    var root := RootOf(env);
    ghost var k := RootPower(env);
    RootAligned(env, root, k);
    var nodes := Recurse(env, root, [], root.size, k);
    SkeletonIs(env, root);
    SkeletonSorted(env, root, k);
    assert [] + Nodes(env, Skeleton(env, root)) == Nodes(env, Skeleton(env, root));
    var sorted := SortBy(nodes, Reader.Morton);
    DedupKeepsAll(sorted);
    StrictIsAccepted(nodes);
    return Ok(Dedup(sorted));
  }

  lemma StrictIsAccepted(nodes: seq<QNode>)
    requires Strict(SortBy(nodes, Reader.Morton), Reader.Morton)
    ensures Reader.BuildSkeleton(nodes) == Ok(SortBy(nodes, Reader.Morton))
  {
    hide SortBy;
    var sorted := SortBy(nodes, Reader.Morton);
    assert forall i :: 0 <= i < |sorted| - 1 ==> Reader.Morton(sorted[i]) < Reader.Morton(sorted[i + 1]);
  }

  lemma SkeletonIs(env: Env, root: Square)
    ensures Skeleton(env, root) == Merged(Parts(env, root))
  {
  }

  // ------------------------------------------------------------ looking a point up

  lemma {:induction false} PartsDepth(env: Env, sq: Square)
    requires sq.depth <= env.options.maxDepth
    ensures forall p :: p in Parts(env, sq) ==> p.square.depth <= env.options.maxDepth
    decreases sq.size
  {
    hide SquareStats;
    if Decide(env, sq) == Split {
      PartsDepth(env, Quarter(sq, 0));
      PartsDepth(env, Quarter(sq, 1));
      PartsDepth(env, Quarter(sq, 2));
      PartsDepth(env, Quarter(sq, 3));
    }
  }

  /** A lookup down to the builder's depth bound misses no merged square. */
  lemma SkeletonDepth(env: Env, root: Square, k: nat)
    requires Root(env, root, k)
    ensures forall sq :: sq in Skeleton(env, root) ==> sq.depth <= env.options.maxDepth
  {
    hide Parts;
    PartsDepth(env, root);
    MergedFrom(Parts(env, root), 0, 0);
    forall sq | sq in Skeleton(env, root) ensures sq.depth <= env.options.maxDepth {
      assert Part(sq, true) in Parts(env, root);
    }
  }

  lemma FloorBetween(r: real, a: int, b: int)
    ensures a as real <= r < b as real <==> a <= r.Floor < b
  {
  }

  lemma ScaledBetween(at: real, s: real, i: real, j: real, p: real, low: real, whole: real, high: real)
    requires s > 0.0 && at < p && j == i + 1.0
    requires low == i * s && whole == at * s && high == j * s
    ensures (i <= at && (at < j || (j == p && at == j))) <==> low <= whole < high
  {
    if i <= at { RealScale(i, at, s); } else { StrictScale(at, i, s); }
    if at < j { StrictScale(at, j, s); } else { RealScale(j, at, s); }
  }

  lemma Regroup(u: real, size: nat, p: nat)
    ensures u * (size * p) as real == u * p as real * size as real
  {
    assert (size * p) as real == size as real * p as real;
  }

  lemma EdgesOf(x: nat, size: nat, i: nat)
    requires x == i * size
    ensures i as real * size as real == x as real
    ensures (i as real + 1.0) * size as real == (x + size) as real
  {
    assert (i * size) as real == i as real * size as real;
  }

  /** A fraction of the side as a place on the grid of a depth and on the finest grid. */
  lemma PlacesOf(u: real, size: nat, p: nat, side: nat) returns (at: real, whole: real)
    requires u < 1.0 && p > 0 && side == size * p
    ensures at == u * p as real && whole == u * side as real
    ensures at < p as real && whole == at * size as real
  {
    at, whole := u * p as real, u * side as real;
    StrictScale(u, 1.0, p as real);
    Regroup(u, size, p);
  }

  /** In one axis: a place on the grid of the depth lies in cell `i` exactly when the finest cell
      under it lies in the square. */
  lemma AxisIsCover(at: real, whole: real, x: nat, size: nat, p: real, i: nat)
    requires size > 0 && at < p && whole == at * size as real && x == i * size
    ensures (i as real <= at && (at < i as real + 1.0 || (i as real + 1.0 == p && at == i as real + 1.0)))
       <==> x <= whole.Floor < x + size
  {
    EdgesOf(x, size, i);
    ScaledBetween(at, size as real, i as real, i as real + 1.0, p, x as real, whole, (x + size) as real);
    FloorBetween(whole, x, x + size);
  }

  lemma InnerCellIsCover(u: real, x: nat, size: nat, depth: nat, side: nat)
    requires 0.0 <= u < 1.0 && size > 0 && x == x / size * size && x / size < Pow2(depth)
    requires side == size * Pow2(depth)
    ensures Quadtree.InCell(u, x / size, depth)
       <==> x <= (u * side as real).Floor < x + size
  {
    hide Pow2;
    var at, whole := PlacesOf(u, size, Pow2(depth), side);
    AxisIsCover(at, whole, x, size, Pow2(depth) as real, x / size);
  }

  /** At the far edge only the last cell of a depth counts, and it covers the last grid cell. */
  lemma LastCellIsCover(x: nat, size: nat, p: nat, i: nat)
    requires size > 0 && x == i * size && i < p
    ensures i + 1 == p <==> x <= size * p - 1 < x + size
  {
    assert (i + 1) * size == x + size;
    if i + 1 < p {
      Grid.Multiple(p, i + 1, size);
      assert p * size == size * p;
    }
  }

  /** The cell of a fraction, inside and at the far edge. */
  lemma CellPlaces(u: real, k: nat)
    requires 0.0 <= u <= 1.0
    ensures u < 1.0 ==> Quadtree.CellOf(u, k) == (u * Pow2(k) as real).Floor
    ensures u == 1.0 ==> Quadtree.CellOf(u, k) == Pow2(k) - 1
  {
    hide Pow2;
    var p := Pow2(k) as real;
    if u < 1.0 {
      StrictScale(u, 1.0, p);
    } else {
      assert u * p == p;
    }
  }

  lemma EdgeInCell(i: nat, depth: nat)
    requires i < Pow2(depth)
    ensures Quadtree.InCell(1.0, i, depth) <==> i + 1 == Pow2(depth)
  {
    hide Pow2;
    assert 1.0 * Pow2(depth) as real == Pow2(depth) as real;
  }

  lemma FarCellIsCover(x: nat, size: nat, depth: nat, k: nat, i: nat)
    requires size > 0 && x == i * size && i < Pow2(depth) && Pow2(k) == size * Pow2(depth)
    ensures Quadtree.InCell(1.0, i, depth) <==> x <= Quadtree.CellOf(1.0, k) < x + size
  {
    hide Pow2, Quadtree.CellOf, Quadtree.InCell;
    CellPlaces(1.0, k);
    EdgeInCell(i, depth);
    LastCellIsCover(x, size, Pow2(depth), i);
  }

  lemma CellIsCover(u: real, x: nat, size: nat, depth: nat, k: nat)
    requires 0.0 <= u <= 1.0 && size > 0 && x == x / size * size && x / size < Pow2(depth)
    requires Pow2(k) == size * Pow2(depth)
    ensures Quadtree.InCell(u, x / size, depth) <==> x <= Quadtree.CellOf(u, k) < x + size
  {
    hide Pow2, Quadtree.CellOf, Quadtree.InCell;
    if u < 1.0 {
      CellPlaces(u, k);
      InnerCellIsCover(u, x, size, depth, Pow2(k));
    } else {
      FarCellIsCover(x, size, depth, k, x / size);
    }
  }

  lemma OverByCells(env: Env, sq: Square, u: real, v: real)
    requires sq.size > 0 && Mergeable(env, sq)
    ensures Quadtree.Over(NodeOf(env, sq), u, v)
       <==> Quadtree.InCell(u, sq.x / sq.size, sq.depth) && Quadtree.InCell(v, sq.y / sq.size, sq.depth)
  {
    hide Pow2, NodeKey, KeyDepth, KeyXY, Decide, NodeOf, Quadtree.InCell, Fits;
    NodeKeyOf(env, sq);
    KeyRoundTrip(sq.x / sq.size, sq.y / sq.size, sq.depth);
  }

  /** The node of a square is over a point exactly when the square covers its grid cell. */
  lemma OverIsCover(env: Env, sq: Square, k: nat, u: real, v: real)
    requires Mergeable(env, sq) && Aligned(sq, Pow2(k)) && 0.0 <= u <= 1.0 && 0.0 <= v <= 1.0
    ensures Quadtree.Over(NodeOf(env, sq), u, v) <==> sq.Covers(Quadtree.CellOf(u, k), Quadtree.CellOf(v, k))
  {
    hide Pow2, Decide, NodeOf, Quadtree.InCell, Quadtree.CellOf, Quadtree.Over, Fits;
    OverByCells(env, sq, u, v);
    CellIsCover(u, sq.x, sq.size, sq.depth, k);
    CellIsCover(v, sq.y, sq.size, sq.depth, k);
  }

  /** The skeleton holds exactly the nodes of the merged squares. */
  lemma NodeOrigin(env: Env, root: Square, k: nat, n: QNode)
    requires Root(env, root, k)
    ensures n in SkeletonNodes(env, root, k)
       <==> exists sq :: sq in Skeleton(env, root) && Mergeable(env, sq) && n == NodeOf(env, sq)
  {
    hide Pow2, Decide, NodeOf, SortBy, Skeleton, FitsKey, Root, Mergeable;
    SkeletonSorted(env, root, k);
    var squares := Skeleton(env, root);
    var list := Nodes(env, squares);
    SortByCorrect(list, Reader.Morton);
    assert n in SortBy(list, Reader.Morton) <==> n in multiset(list);
    if n in list {
      var i :| 0 <= i < |list| && list[i] == n;
      assert squares[i] in squares;
    }
    if sq :| sq in squares && Mergeable(env, sq) && n == NodeOf(env, sq) {
      var i :| 0 <= i < |squares| && squares[i] == sq;
      assert list[i] == n;
    }
  }

  /** What a lookup down to a depth should find: the node of the merged square over the cell, if
      there is one and it is no deeper than that, and nothing otherwise. */
  ghost predicate Found(env: Env, root: Square, limit: nat, px: nat, py: nat, r: Option<QNode>) {
    && (forall sq :: sq in Skeleton(env, root) && sq.Covers(px, py) ==>
          Mergeable(env, sq) && r == if sq.depth <= limit then Some(NodeOf(env, sq)) else None)
    && ((forall sq :: sq in Skeleton(env, root) ==> !sq.Covers(px, py)) ==> r == None)
  }

  /** No two merged squares cover one cell. */
  lemma OneCover(env: Env, root: Square, k: nat, a: Square, b: Square, px: nat, py: nat)
    requires Root(env, root, k) && px < root.size && py < root.size
    requires a in Skeleton(env, root) && b in Skeleton(env, root) && a.Covers(px, py) && b.Covers(px, py)
    ensures a == b
  {
    hide Parts, Square.Covers, Root;
    EveryCellOnce(env, root, k, px, py);
    MergedFrom(Parts(env, root), px, py);
    SkeletonIs(env, root);
    var squares := Skeleton(env, root);
    var i :| 0 <= i < |squares| && squares[i] == a;
    var j :| 0 <= j < |squares| && squares[j] == b;
    if i < j { CoveredTwice(squares, i, j, px, py); }
    if j < i { CoveredTwice(squares, j, i, px, py); }
  }

  /** What the climb returns is the node of a merged square over the cell, no deeper than asked. */
  lemma ClimbedSquare(env: Env, root: Square, k: nat, u: real, v: real, limit: nat, n: QNode) returns (sq: Square)
    requires Root(env, root, k) && 0.0 <= u <= 1.0 && 0.0 <= v <= 1.0
    requires Quadtree.Deepest(SkeletonNodes(env, root, k), u, v, limit, n)
    ensures sq in Skeleton(env, root) && Mergeable(env, sq) && n == NodeOf(env, sq)
    ensures sq.Covers(Quadtree.CellOf(u, k), Quadtree.CellOf(v, k)) && sq.depth <= limit
  {
    hide Pow2, KeyDepth, NodeOf, Skeleton, SkeletonNodes, Quadtree.Over, Quadtree.CellOf, Square.Covers, Decide, FitsKey;
    NodeOrigin(env, root, k, n);
    sq :| sq in Skeleton(env, root) && Mergeable(env, sq) && n == NodeOf(env, sq);
    SkeletonMergeable(env, root, k);
    OverIsCover(env, sq, k, u, v);
    DepthOfNode(env, sq);
  }

  /** Climbing from a point of the square, its far edges included, finds the node of the merged
      square over its cell exactly when it is no deeper than asked for, and nothing otherwise. */
  lemma PointFindsSquare(env: Env, root: Square, k: nat, u: real, v: real, limit: nat)
    requires Root(env, root, k) && limit <= MAX_DEPTH
    requires 0.0 <= u <= 1.0 && 0.0 <= v <= 1.0
    ensures Found(env, root, limit, Quadtree.CellOf(u, k), Quadtree.CellOf(v, k),
                  Quadtree.Climb(SkeletonNodes(env, root, k), u, v, limit))
  {
    hide Pow2, KeyDepth, NodeOf, Skeleton, SkeletonNodes, Quadtree.Over, Quadtree.Deepest,
         Quadtree.Climb, Quadtree.CellOf, Square.Covers, Mergeable, Aligned;
    var nodes := SkeletonNodes(env, root, k);
    var px, py := Quadtree.CellOf(u, k), Quadtree.CellOf(v, k);
    var r := Quadtree.Climb(nodes, u, v, limit);
    Quadtree.ClimbFindsDeepest(nodes, u, v, limit);
    SkeletonMergeable(env, root, k);
    var found := Square(0, 0, 0, 0);
    if r.Some? {
      found := ClimbedSquare(env, root, k, u, v, limit, r.value);
    }
    forall sq | sq in Skeleton(env, root) && sq.Covers(px, py)
      ensures Mergeable(env, sq) && r == if sq.depth <= limit then Some(NodeOf(env, sq)) else None
    {
      if r.Some? {
        OneCover(env, root, k, found, sq, px, py);
      } else {
        OverIsCover(env, sq, k, u, v);
        NodeOrigin(env, root, k, NodeOf(env, sq));
        DepthOfNode(env, sq);
      }
    }
  }

  // -------------------------------------------------------------------- in metres

  /** The proxy grid is the map's grid of cells at the header's resolution. */
  predicate CoversMap(env: Env, bounds: Quadtree.Area) {
    && env.res > 0.0 && bounds.Width() > 0.0 && bounds.Height() > 0.0
    && env.proxy.width == Quadtree.Ceil(bounds.Width() / env.res) <= 0x8000_0000
    && env.proxy.height == Quadtree.Ceil(bounds.Height() / env.res) <= 0x8000_0000
  }

  /** The square the builder split is the square the reader derives from the header alone. */
  lemma SidesAgree(env: Env, bounds: Quadtree.Area)
    requires CoversMap(env, bounds)
    ensures env.proxy.width > 0 && env.proxy.height > 0
    ensures Quadtree.SkeletonSide(bounds, env.res) == RootOf(env).size as real * env.res
  {
    hide Quadtree.SkeletonSide, Quadtree.Ceil, Quadtree.NextPow2;
    Quadtree.SideInCells(bounds, env.res, env.proxy.width, env.proxy.height);
  }

  /** The grid cell under a distance from the map's corner; the last cell takes the far edge. */
  function CellUnder(distance: real, res: real, size: nat): nat
    requires distance >= 0.0 && res > 0.0 && size > 0
  {
    assert distance / res >= 0.0;
    var i := (distance / res).Floor;
    if i < size then i else size - 1
  }

  lemma Rescaled(distance: real, p: real, res: real, side: real)
    requires p > 0.0 && res > 0.0 && side == p * res && 0.0 <= distance <= side
    ensures side > 0.0 && 0.0 <= distance / side <= 1.0 && distance / side * p == distance / res
  {
    PartOf(distance, side);
    var u := distance / side;
    assert u * p * res == u * side == distance;
  }

  lemma CellInMetres(distance: real, res: real, k: nat, side: real)
    requires res > 0.0 && side == Pow2(k) as real * res && 0.0 <= distance <= side
    ensures side > 0.0 && 0.0 <= distance / side <= 1.0
    ensures Quadtree.CellOf(distance / side, k) == CellUnder(distance, res, Pow2(k))
  {
    hide Pow2;
    Rescaled(distance, Pow2(k) as real, res, side);
  }

  /**
   * Where the builder and the reader meet: on the skeleton the builder makes, the reader's lookup
   * of any point of the map returns the node of the merged square over the point's grid cell when
   * that node is no deeper than asked for, and nothing otherwise.
   */
  lemma LocateFindsSquare(env: Env, bounds: Quadtree.Area, k: nat, x: real, y: real, maxDepth: nat)
    requires CoversMap(env, bounds) && bounds.Contains(x, y)
    requires env.proxy.width > 0 && Root(env, RootOf(env), k)
    ensures Found(env, RootOf(env), Capped(maxDepth),
                  CellUnder(x - bounds.minX, env.res, RootOf(env).size),
                  CellUnder(y - bounds.minY, env.res, RootOf(env).size),
                  Quadtree.Located(SkeletonNodes(env, RootOf(env), k), x, y, bounds, env.res, maxDepth))
  {
    hide Quadtree.SkeletonSide, Quadtree.Climb, CoversMap, RootOf, SkeletonNodes, CellUnder, Pow2, Quadtree.CellOf, Found;
    MapHasExtent(env, bounds);
    var root, side := RootOf(env), Quadtree.SkeletonSide(bounds, env.res);
    SidesAgree(env, bounds);
    InsideSide(env, bounds, x, y);
    CellInMetres(x - bounds.minX, env.res, k, side);
    CellInMetres(y - bounds.minY, env.res, k, side);
    var u, v := (x - bounds.minX) / side, (y - bounds.minY) / side;
    PointFindsSquare(env, root, k, u, v, Capped(maxDepth));
    LocatedClimbs(SkeletonNodes(env, root, k), x, y, bounds, env.res, maxDepth);
  }

  lemma MapHasExtent(env: Env, bounds: Quadtree.Area)
    requires CoversMap(env, bounds)
    ensures env.res > 0.0 && bounds.Width() > 0.0 && bounds.Height() > 0.0
  {
  }

  lemma LocatedClimbs(nodes: seq<QNode>, x: real, y: real, bounds: Quadtree.Area, res: real, maxDepth: nat)
    requires bounds.Width() > 0.0 && bounds.Height() > 0.0 && Quadtree.SkeletonSide(bounds, res) > 0.0
    requires var side := Quadtree.SkeletonSide(bounds, res);
      0.0 <= (x - bounds.minX) / side <= 1.0 && 0.0 <= (y - bounds.minY) / side <= 1.0
    ensures var side := Quadtree.SkeletonSide(bounds, res);
      Quadtree.Located(nodes, x, y, bounds, res, maxDepth)
      == Quadtree.Climb(nodes, (x - bounds.minX) / side, (y - bounds.minY) / side, Capped(maxDepth))
  {
    hide Quadtree.SkeletonSide, Quadtree.Climb;
    var side := Quadtree.SkeletonSide(bounds, res);
    EmptyClimb((x - bounds.minX) / side, (y - bounds.minY) / side, Capped(maxDepth));
  }

  lemma InsideSide(env: Env, bounds: Quadtree.Area, x: real, y: real)
    requires CoversMap(env, bounds) && bounds.Contains(x, y)
    ensures env.proxy.width > 0
    ensures 0.0 <= x - bounds.minX <= RootOf(env).size as real * env.res
    ensures 0.0 <= y - bounds.minY <= RootOf(env).size as real * env.res
  {
    hide Quadtree.SkeletonSide, RootOf, Quadtree.Ceil;
    SidesAgree(env, bounds);
    Quadtree.CeilBounds(bounds.Width() / env.res);
    Quadtree.CeilBounds(bounds.Height() / env.res);
    Scaled(Quadtree.MAX_SIDE_CELLS as real, env.res, bounds.Width());
    Scaled(Quadtree.MAX_SIDE_CELLS as real, env.res, bounds.Height());
    Quadtree.SideHoldsMap(bounds, env.res);
  }

  lemma {:induction false} EmptyClimb(u: real, v: real, depth: nat)
    requires 0.0 <= u <= 1.0 && 0.0 <= v <= 1.0
    ensures Quadtree.Climb([], u, v, depth) == None
  {
    hide Quadtree.KeyAt;
    if depth > 0 {
      EmptyClimb(u, v, depth - 1);
    }
  }

  lemma DepthOfNode(env: Env, sq: Square)
    requires Mergeable(env, sq)
    ensures KeyDepth(NodeOf(env, sq).morton) == sq.depth
  {
    hide NodeKey, KeyDepth, Decide;
    NodeKeyOf(env, sq);
    KeyRoundTrip(sq.x / sq.size, sq.y / sq.size, sq.depth);
  }
}
