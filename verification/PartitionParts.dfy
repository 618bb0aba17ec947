/**
 * Which squares the partition comes to, told by their cells alone: a square is merged exactly
 * when it is uniform, given up only at the bounds of size and depth, and split exactly otherwise.
 */
module PartitionParts {
  import opened Bytes
  import opened Bits
  import opened Partition
  import opened PartitionNodes

  function Span(env: Env, sq: Square): real { sq.size as real * env.res }

  /** It has a value, spans no more and no less than a node may, no value exceeds the mean of its
      cells by more than the threshold, and no cell of it is constrained in direction. */
  ghost predicate Uniform(env: Env, sq: Square) {
    var cells, o := CellsOf(env, sq), env.options;
    && cells != {} && o.maxCoarse > 0.0
    && o.minCoarse <= Span(env, sq) <= o.maxCoarse
    && (forall x: nat, y: nat :: sq.Covers(x, y) && env.proxy.Value(x, y).Some? ==>
          env.proxy.Value(x, y).value - Total(env, cells) / |cells| as real <= o.threshold)
    && (forall x: nat, y: nat :: sq.Covers(x, y) && x < env.proxy.width && y < env.proxy.height ==>
          !env.Blocked(x, y))
  }

  /** It cannot be cut any further: too small a span for a node, too deep, or a single cell. */
  ghost predicate AtBound(env: Env, sq: Square) {
    Span(env, sq) < env.options.minCoarse || sq.depth >= env.options.maxDepth || sq.size < 2
  }

  /** A square of the recursion that is cut in four. */
  ghost predicate Cut(env: Env, sq: Square) {
    && CellsOf(env, sq) != {} && env.options.maxCoarse > 0.0
    && !Uniform(env, sq) && !AtBound(env, sq)
  }

  /** The recursion gets from one square to another in `n` cuts. */
  ghost predicate Reaches(env: Env, from: Square, to: Square, n: nat)
    decreases n
  {
    if n == 0 then from == to
    else Cut(env, from) && exists q: nat :: q < 4 && Reaches(env, Quarter(from, q), to, n - 1)
  }

  /** The recursion gets from one square to another. */
  ghost predicate Leads(env: Env, from: Square, to: Square) { exists n: nat :: Reaches(env, from, to, n) }

  lemma SomeCells(env: Env, sq: Square)
    ensures CellsOf(env, sq) != {} <==> exists x: nat, y: nat :: sq.Covers(x, y) && Valued(env, x, y)
  {
    if x: nat, y: nat :| sq.Covers(x, y) && Valued(env, x, y) {
      assert (x, y) in CellsOf(env, sq);
    }
    if CellsOf(env, sq) != {} {
      var cell :| cell in CellsOf(env, sq);
    }
  }

  lemma MergedExactly(env: Env, sq: Square)
    requires sq.size > 0
    ensures Decide(env, sq) == Merge <==> Uniform(env, sq)
  {
    SquareDescribed(env, sq);
    SquareSummed(env, sq);
    SomeCells(env, sq);
    hide SquareStats, Env.Blocked, Proxy.Value, Total, CellsOf, Square.Covers;
    var s, cells := SquareStats(env, sq), CellsOf(env, sq);
    if s.max.Some? {
      var mean := s.sum / s.count as real;
      assert (s.max.value - mean <= env.options.threshold)
        <==> forall x: nat, y: nat :: sq.Covers(x, y) && Valued(env, x, y) ==>
               env.proxy.Value(x, y).value - mean <= env.options.threshold;
    }
  }

  /** Every verdict, by the cells. */
  lemma DecidedExactly(env: Env, sq: Square)
    requires sq.size > 0
    ensures Decide(env, sq) == Off <==> env.options.maxCoarse <= 0.0
    ensures Decide(env, sq) == Empty <==> env.options.maxCoarse > 0.0 && CellsOf(env, sq) == {}
    ensures Decide(env, sq) == Merge <==> Uniform(env, sq)
    ensures Decide(env, sq) == Split <==> Cut(env, sq)
    ensures Decide(env, sq) in {Small, Deep} ==> AtBound(env, sq)
  {
    MergedExactly(env, sq);
    VerdictCases(env, sq);
    CountedCells(env, sq);
    hide SquareStats, Uniform, Total, CellsOf, Square.Covers, Decide;
  }

  lemma VerdictCases(env: Env, sq: Square)
    requires sq.size > 0
    ensures var d, s, o := Decide(env, sq), SquareStats(env, sq), env.options;
      && (d == Off <==> o.maxCoarse <= 0.0)
      && (d == Empty <==> o.maxCoarse > 0.0 && (s.count == 0 || s.max.None?))
      && (d == Split <==> d !in {Off, Empty, Merge} && !AtBound(env, sq))
      && (d in {Small, Deep} ==> AtBound(env, sq))
      && (d == Merge ==> Span(env, sq) >= o.minCoarse)
  {
    hide SquareStats;
  }

  lemma CountedCells(env: Env, sq: Square)
    ensures var s := SquareStats(env, sq); (s.count == 0 || s.max.None?) <==> CellsOf(env, sq) == {}
  {
    hide SquareStats, Total, CellsOf;
    SquareDescribed(env, sq);
    SquareSummed(env, sq);
  }

  /** What the recursion leaves of a square it does not cut. */
  ghost predicate Stops(env: Env, sq: Square, merged: bool) {
    && (CellsOf(env, sq) != {} || env.options.maxCoarse <= 0.0)
    && !Cut(env, sq) && (merged <==> Uniform(env, sq))
  }

  lemma StoppedPart(env: Env, sq: Square, side: nat, p: Part)
    requires Aligned(sq, side) && Decide(env, sq) != Split
    ensures p in Parts(env, sq) <==> p.square == sq && Stops(env, sq, p.merged)
  {
    AlignedInGrid(sq, side);
    DecidedExactly(env, sq);
    hide Decide, Uniform, CellsOf, AtBound, InGrid;
  }

  lemma QuarterParts(env: Env, sq: Square, p: Part)
    requires Decide(env, sq) == Split
    ensures p in Parts(env, sq) <==> exists q: nat :: q < 4 && p in Parts(env, Quarter(sq, q))
  {
    hide Decide, Quarter;
    assert p in Parts(env, Quarter(sq, 0)) || p in Parts(env, Quarter(sq, 1))
      || p in Parts(env, Quarter(sq, 2)) || p in Parts(env, Quarter(sq, 3))
      <==> exists q: nat :: q < 4 && p in Parts(env, Quarter(sq, q));
  }

  /**
   * The parts of a square are exactly the squares the cuts lead to and that are not cut
   * themselves: with a value in them, and merged exactly when uniform.
   */
  lemma {:induction false} PartsExactly(env: Env, sq: Square, side: nat, k: nat, p: Part)
    requires Aligned(sq, side) && sq.size == Pow2(k)
    ensures p in Parts(env, sq) <==> Leads(env, sq, p.square) && Stops(env, p.square, p.merged)
    decreases k
  {
    hide Pow2, Decide, Aligned, Quarter, Stops, Parts, Leads, Cut, Uniform;
    DecidedExactly(env, sq);
    if Decide(env, sq) != Split {
      StoppedPart(env, sq, side, p);
      OnlyItself(env, sq, p.square);
    } else {
      SplitsInHalf(env, sq, k);
      QuarterParts(env, sq, p);
      forall q: nat | q < 4
        ensures p in Parts(env, Quarter(sq, q))
           <==> Leads(env, Quarter(sq, q), p.square) && Stops(env, p.square, p.merged)
      {
        QuarterAligned(sq, side, k - 1, q);
        PartsExactly(env, Quarter(sq, q), side, k - 1, p);
      }
      ThroughQuarter(env, sq, p.square);
      if p.square == sq {
        CutNeverStops(env, sq, p.merged);
      }
    }
  }

  lemma CutNeverStops(env: Env, sq: Square, merged: bool)
    requires Cut(env, sq)
    ensures !Stops(env, sq, merged)
  {
  }

  lemma OnlyItself(env: Env, sq: Square, to: Square)
    requires !Cut(env, sq)
    ensures Leads(env, sq, to) <==> sq == to
  {
    hide Cut;
    if sq == to {
      assert Reaches(env, sq, to, 0);
    }
  }

  lemma ThroughQuarter(env: Env, sq: Square, to: Square)
    requires Cut(env, sq)
    ensures Leads(env, sq, to)
       <==> sq == to || exists q: nat :: q < 4 && Leads(env, Quarter(sq, q), to)
  {
    hide Cut, Quarter;
    if Leads(env, sq, to) {
      var n: nat :| Reaches(env, sq, to, n);
      if n > 0 {
        var q: nat :| q < 4 && Reaches(env, Quarter(sq, q), to, n - 1);
        assert Leads(env, Quarter(sq, q), to);
      }
    }
    if sq == to {
      assert Reaches(env, sq, to, 0);
    }
    if q: nat :| q < 4 && Leads(env, Quarter(sq, q), to) {
      var n: nat :| Reaches(env, Quarter(sq, q), to, n);
      assert Reaches(env, sq, to, n + 1);
    }
  }

  /** Every square reached but the first is a quarter of one that was cut, itself reached. */
  lemma {:induction false} ReachedParent(env: Env, from: Square, to: Square, n: nat) returns (parent: Square, q: nat)
    requires Reaches(env, from, to, n) && n > 0
    ensures Reaches(env, from, parent, n - 1) && Cut(env, parent) && q < 4 && to == Quarter(parent, q)
    decreases n
  {
    hide Cut, Quarter;
    var q0: nat :| q0 < 4 && Reaches(env, Quarter(from, q0), to, n - 1);
    if n == 1 {
      parent, q := from, q0;
    } else {
      parent, q := ReachedParent(env, Quarter(from, q0), to, n - 1);
      assert Reaches(env, from, parent, n - 1);
    }
  }

  /** Nothing is given up that could have been merged or cut: a part that is not merged is at a
      bound, or nodes are switched off altogether. */
  lemma GivenUpAtBound(env: Env, root: Square, k: nat, p: Part)
    requires Root(env, root, k) && p in Parts(env, root)
    ensures p.merged <==> Uniform(env, p.square)
    ensures !p.merged ==> AtBound(env, p.square) || env.options.maxCoarse <= 0.0
    ensures p.square != root ==>
      exists parent, q: nat :: q < 4 && p.square == Quarter(parent, q) && p.square.size * 2 == parent.size
        && Cut(env, parent)
  {
    hide Pow2, Parts, Uniform, Quarter, Aligned, Leads;
    RootAligned(env, root, k);
    PartsExactly(env, root, root.size, k, p);
    if p.square != root {
      var parent, q := LedParent(env, root, k, p.square);
    }
  }

  lemma LedParent(env: Env, root: Square, k: nat, to: Square) returns (parent: Square, q: nat)
    requires Root(env, root, k) && Leads(env, root, to) && to != root
    ensures Cut(env, parent) && q < 4 && to == Quarter(parent, q) && to.size * 2 == parent.size
  {
    hide Pow2, Cut, Quarter, Aligned;
    RootAligned(env, root, k);
    var n: nat :| Reaches(env, root, to, n);
    parent, q := ReachedParent(env, root, to, n);
    ReachedSize(env, root, root.size, k, parent, n - 1);
    HalfSize(env, parent, q, k + 1 - n);
  }

  lemma {:induction false} ReachedSize(env: Env, from: Square, side: nat, k: nat, to: Square, n: nat)
    requires Aligned(from, side) && from.size == Pow2(k) && Reaches(env, from, to, n)
    ensures n <= k && to.size == Pow2(k - n) && Aligned(to, side)
    decreases n
  {
    hide Pow2, Aligned, Quarter;
    if n > 0 {
      CutIsEven(env, from, k);
      var q: nat :| q < 4 && Reaches(env, Quarter(from, q), to, n - 1);
      QuarterAligned(from, side, k - 1, q);
      ReachedSize(env, Quarter(from, q), side, k - 1, to, n - 1);
    }
  }

  lemma CutIsEven(env: Env, sq: Square, k: nat)
    requires Cut(env, sq) && sq.size == Pow2(k)
    ensures k > 0
  {
    hide Uniform;
  }

  lemma HalfSize(env: Env, sq: Square, q: nat, k: nat)
    requires Cut(env, sq) && sq.size == Pow2(k)
    ensures Quarter(sq, q).size * 2 == sq.size
  {
    CutIsEven(env, sq, k);
    hide Cut;
  }
}
