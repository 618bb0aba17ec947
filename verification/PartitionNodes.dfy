/**
 * The skeleton the partition writes: one node for each merged square, no key twice, and the
 * lookup of a point in it.
 */
module PartitionNodes {
  import opened Bytes
  import opened Bits
  import opened NodeKeys
  import opened Records
  import opened Partition
  import Grid

  // --------------------------------------------------------------------- the squares

  /** Why the recursion stopped at a part, and where the part lies. */
  predicate WellPlaced(env: Env, p: Part, side: nat) {
    && Aligned(p.square, side)
    && (if p.merged then Decide(env, p.square) == Merge
        else Decide(env, p.square) in {Off, Small, Deep})
  }

  lemma {:induction false} PartsWellPlaced(env: Env, sq: Square, side: nat, k: nat)
    requires Aligned(sq, side) && sq.size == Pow2(k)
    ensures forall p :: p in Parts(env, sq) ==> WellPlaced(env, p, side)
    decreases k
  {
    hide Pow2, Decide, Aligned, Quarter, InGrid;
    if Decide(env, sq) == Split {
      SplitsInHalf(env, sq, k);
      QuarterAligned(sq, side, k - 1, 0);
      QuarterAligned(sq, side, k - 1, 1);
      QuarterAligned(sq, side, k - 1, 2);
      QuarterAligned(sq, side, k - 1, 3);
      PartsWellPlaced(env, Quarter(sq, 0), side, k - 1);
      PartsWellPlaced(env, Quarter(sq, 1), side, k - 1);
      PartsWellPlaced(env, Quarter(sq, 2), side, k - 1);
      PartsWellPlaced(env, Quarter(sq, 3), side, k - 1);
    } else {
      AlignedInGrid(sq, side);
    }
  }

  /** A merged square is within the size bounds, free of constrained cells, and uniform: no value
      of its cells exceeds the mean over them by more than the threshold. */
  lemma MergedMeans(env: Env, sq: Square)
    requires Decide(env, sq) == Merge
    ensures var cells, o := CellsOf(env, sq), env.options;
      && |cells| > 0
      && o.minCoarse <= sq.size as real * env.res <= o.maxCoarse
      && (forall x: nat, y: nat :: sq.Covers(x, y) && Valued(env, x, y) ==>
            env.proxy.Value(x, y).value - Total(env, cells) / |cells| as real <= o.threshold)
      && (forall x: nat, y: nat :: sq.Covers(x, y) && x < env.proxy.width && y < env.proxy.height
            ==> !env.Blocked(x, y))
  {
    hide SquareStats, Env.Blocked, Proxy.Value, Total, CellsOf;
    SquareDescribed(env, sq);
    SquareSummed(env, sq);
  }

  function Merged(parts: seq<Part>): seq<Square> {
    if parts == [] then []
    else (if parts[0].merged then [parts[0].square] else []) + Merged(parts[1..])
  }

  /** How many of the squares cover a cell. */
  function Covering(squares: seq<Square>, px: nat, py: nat): nat {
    if squares == [] then 0
    else Hit(squares[0].Covers(px, py)) + Covering(squares[1..], px, py)
  }

  lemma {:induction false} MergedFrom(parts: seq<Part>, px: nat, py: nat)
    ensures forall s :: s in Merged(parts) <==> Part(s, true) in parts
    ensures Covering(Merged(parts), px, py) <= Hits(parts, px, py)
  {
    if parts != [] {
      MergedFrom(parts[1..], px, py);
      var rest := Merged(parts[1..]);
      assert parts == [parts[0]] + parts[1..];
      if parts[0].merged {
        var first := parts[0].square;
        assert Merged(parts) == [first] + rest;
        assert ([first] + rest)[1..] == rest;
        assert Covering([first] + rest, px, py) == Hit(first.Covers(px, py)) + Covering(rest, px, py);
      } else {
        assert [] + rest == rest;
      }
    }
  }

  lemma {:induction false} CoveredTwice(squares: seq<Square>, i: nat, j: nat, px: nat, py: nat)
    requires i < j < |squares| && squares[i].Covers(px, py) && squares[j].Covers(px, py)
    ensures Covering(squares, px, py) >= 2
  {
    if i == 0 {
      CoveredOnce(squares[1..], j - 1, px, py);
    } else {
      CoveredTwice(squares[1..], i - 1, j - 1, px, py);
    }
  }

  lemma {:induction false} CoveredOnce(squares: seq<Square>, i: nat, px: nat, py: nat)
    requires i < |squares| && squares[i].Covers(px, py)
    ensures Covering(squares, px, py) >= 1
  {
    if i > 0 {
      CoveredOnce(squares[1..], i - 1, px, py);
    }
  }

  // ------------------------------------------------------------------------- nodes

  predicate FitsKey(sq: Square) {
    sq.size > 0 && Fits(sq.x / sq.size, sq.y / sq.size, sq.depth)
  }

  function KeyOf(sq: Square): nat
    requires FitsKey(sq)
  {
    NodeKey(sq.x / sq.size, sq.y / sq.size, sq.depth)
  }

  lemma DepthFits(size: nat, depth: nat, side: nat)
    requires size > 0 && size * Pow2(depth) == side && side <= Pow2(31)
    ensures depth <= 31
  {
    hide Pow2;
    if depth > 31 {
      PowLess(32, depth);
      PowStep(32);
      AtLeast(size, Pow2(depth));
    }
  }

  lemma AtLeast(size: nat, n: nat)
    requires size > 0
    ensures size * n >= n
  {
    assert size * n == n + (size - 1) * n;
  }

  /** A grid of at most 2^31 cells a side keeps every depth within the keys. */
  lemma AlignedFits(sq: Square, side: nat)
    requires Aligned(sq, side) && side <= Pow2(31)
    ensures FitsKey(sq)
  {
    hide Pow2;
    DepthFits(sq.size, sq.depth, side);
  }

  /** Over one grid a key belongs to one square. */
  lemma KeyIsSquare(a: Square, b: Square, side: nat)
    requires Aligned(a, side) && Aligned(b, side) && FitsKey(a) && FitsKey(b)
    requires KeyOf(a) == KeyOf(b)
    ensures a == b
  {
    hide Pow2, NodeKey, Fits;
    KeysInjective(a.x / a.size, a.y / a.size, a.depth, b.x / b.size, b.y / b.size, b.depth);
    SameFactor(a.size, b.size, Pow2(a.depth));
  }

  lemma SameFactor(a: nat, b: nat, n: nat)
    requires n > 0 && a * n == b * n
    ensures a == b
  {
    if a < b { Grid.Multiple(b, a, n); } else if b < a { Grid.Multiple(a, b, n); }
  }

  function Round(r: real): int {
    if r >= 0.0 then (r + 0.5).Floor else -((0.5 - r).Floor)
  }

  /** The largest `f32` step below one: scales closer to zero count as none. */
  const EPSILON := 1.0 / 8388608.0

  function Quantise(v: real, rules: Rules): u16 {
    if -EPSILON < rules.scale < EPSILON then 0
    else
      var raw := Round((v - rules.bias) / rules.scale);
      if raw < 0 then 0 else if raw > 65535 then 65535 else raw
  }

  const LEAF: nat := 1
  const HAS_AGGR_MAX: nat := 2
  const DRILL_HINT: nat := 4

  predicate Mergeable(env: Env, sq: Square) { FitsKey(sq) && Decide(env, sq) == Merge }

  function NodeOf(env: Env, sq: Square): QNode
    requires Mergeable(env, sq)
  {
    var s := SquareStats(env, sq);
    KeyFitsWord(sq);
    var hint := if s.max.value > env.options.drill then DRILL_HINT else 0;
    QNode(KeyOf(sq), LEAF + HAS_AGGR_MAX + hint, sq.depth, 0,
          Quantise(s.sum / s.count as real, env.rules), Quantise(s.max.value, env.rules))
  }

  lemma KeyFitsWord(sq: Square)
    requires FitsKey(sq)
    ensures KeyOf(sq) < 0x1_0000_0000_0000_0000 && sq.depth < 0x100
  {
    hide Pow2, NodeKey;
    KeyValue(sq.x / sq.size, sq.y / sq.size, sq.depth);
    PowLess(2 * sq.depth, 62);
    assert Pow2(62) == 0x4000_0000_0000_0000 by { Sixty(); }
  }

  lemma Sixty()
    ensures Pow2(62) == 0x4000_0000_0000_0000 && Pow2(31) == 0x8000_0000
  {
    assert Pow2(10) == 1024;
    PowSum(10, 10);
    PowSum(20, 11);
    assert Pow2(11) == 2048;
    PowSum(31, 31);
  }

  predicate AllMergeable(env: Env, squares: seq<Square>) {
    forall i :: 0 <= i < |squares| ==> Mergeable(env, squares[i])
  }

  function Nodes(env: Env, squares: seq<Square>): (nodes: seq<QNode>)
    requires AllMergeable(env, squares)
    ensures |nodes| == |squares|
  {
    seq(|squares|, i requires 0 <= i < |squares| => NodeOf(env, squares[i]))
  }

  // -------------------------------------------------------------------- distinct keys

  /** The whole grid: the least power of two that holds both axes, as one square. */
  predicate Root(env: Env, root: Square, k: nat) {
    root == Square(0, 0, Pow2(k), 0) && k <= 31
  }

  lemma RootAligned(env: Env, root: Square, k: nat)
    requires Root(env, root, k)
    ensures Aligned(root, root.size) && root.size <= Pow2(31)
  {
    PowLess(k, 31);
    assert Pow2(0) == 1;
  }

  function Skeleton(env: Env, root: Square): seq<Square> { Merged(Parts(env, root)) }

  lemma SkeletonMergeable(env: Env, root: Square, k: nat)
    requires Root(env, root, k)
    ensures forall s :: s in Skeleton(env, root) ==> Mergeable(env, s) && Aligned(s, root.size)
  {
    hide Parts, Aligned, Decide, FitsKey;
    RootAligned(env, root, k);
    PartsWellPlaced(env, root, root.size, k);
    MergedFrom(Parts(env, root), 0, 0);
    forall s | s in Skeleton(env, root) ensures Mergeable(env, s) && Aligned(s, root.size) {
      assert WellPlaced(env, Part(s, true), root.size);
      AlignedFits(s, root.size);
    }
  }

  /** Two nodes of the skeleton never share a key. */
  lemma KeysDistinct(env: Env, root: Square, k: nat, i: nat, j: nat)
    requires Root(env, root, k) && i < j < |Skeleton(env, root)|
    ensures FitsKey(Skeleton(env, root)[i]) && FitsKey(Skeleton(env, root)[j])
    ensures KeyOf(Skeleton(env, root)[i]) != KeyOf(Skeleton(env, root)[j])
  {
    hide Parts, Decide, FitsKey, KeyOf, Pow2, Merged, Hits;
    SkeletonMergeable(env, root, k);
    var squares := Skeleton(env, root);
    var a, b := squares[i], squares[j];
    assert a in squares && b in squares;
    if KeyOf(a) == KeyOf(b) {
      KeyIsSquare(a, b, root.size);
      CoveredTwice(squares, i, j, a.x, a.y);
      MergedFrom(Parts(env, root), a.x, a.y);
      RootAligned(env, root, k);
      PartsTile(env, root, root.size, k, a.x, a.y);
    }
  }

  /** Every cell with a value lies in exactly one merged square or in exactly one abandoned for
      its size or depth, and never in two. */
  lemma EveryCellOnce(env: Env, root: Square, k: nat, px: nat, py: nat)
    requires Root(env, root, k) && px < root.size && py < root.size
    ensures Hits(Parts(env, root), px, py) <= 1
    ensures Valued(env, px, py) ==> Hits(Parts(env, root), px, py) == 1
    ensures forall p :: p in Parts(env, root) ==> WellPlaced(env, p, root.size)
  {
    hide Parts, Decide, Pow2, Valued;
    RootAligned(env, root, k);
    PartsTile(env, root, root.size, k, px, py);
    PartsWellPlaced(env, root, root.size, k);
  }
}
