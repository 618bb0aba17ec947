/** What the figures of a skeleton node say of the cells under it. */
module PartitionFigures {
  import opened Bytes
  import opened Reals
  import opened Records
  import opened Partition
  import opened PartitionNodes
  import NodeKeys

  function Magnitude(r: real): real { if r < 0.0 then -r else r }

  /** The value a stored figure stands for. */
  function Dequantised(raw: u16, rules: Rules): real { raw as real * rules.scale + rules.bias }

  lemma RoundNear(r: real)
    ensures r >= 0.0 ==> -0.5 < Round(r) as real - r <= 0.5
    ensures r <= 0.0 ==> -0.5 <= Round(r) as real - r < 0.5
  {
  }

  /** The stored figure is the nearest step within the range, the upper one of two equally near,
      and the near end outside of it. */
  lemma QuantiseSteps(v: real, rules: Rules)
    requires Magnitude(rules.scale) >= EPSILON
    ensures var t := (v - rules.bias) / rules.scale;
      && (t <= 0.0 ==> Quantise(v, rules) == 0)
      && (t >= 65535.0 ==> Quantise(v, rules) == 65535)
      && (0.0 <= t <= 65535.0 ==> -0.5 < Quantise(v, rules) as real - t <= 0.5)
  {
    RoundNear((v - rules.bias) / rules.scale);
  }

  lemma HalfStep(d: real, s: real, e: real)
    requires -0.5 <= d <= 0.5 && e == d * s
    ensures Magnitude(e) <= 0.5 * Magnitude(s)
  {
    if s < 0.0 {
      NotNegative(d + 0.5, -s);
      NotNegative(0.5 - d, -s);
    } else {
      NotNegative(d + 0.5, s);
      NotNegative(0.5 - d, s);
    }
  }

  /** The stored figure, its exact place in steps, and both in the units of the value. */
  lemma InUnits(q: real, t: real, s: real, offset: real, bias: real, v: real)
    requires t * s == offset && v == offset + bias
    ensures q * s + bias - v == (q - t) * s
  {
    assert (q - t) * s == q * s - t * s;
  }

  /** Within the range, reading a figure back is off by at most half a step. */
  lemma QuantiseError(v: real, rules: Rules)
    requires Magnitude(rules.scale) >= EPSILON
    requires 0.0 <= (v - rules.bias) / rules.scale <= 65535.0
    ensures Magnitude(Dequantised(Quantise(v, rules), rules) - v) <= 0.5 * Magnitude(rules.scale)
  {
    hide Quantise, Magnitude;
    NotZero(rules.scale);
    QuantiseSteps(v, rules);
    var q, s, t := Quantise(v, rules) as real, rules.scale, (v - rules.bias) / rules.scale;
    Undivided(v - rules.bias, s);
    InUnits(q, t, s, v - rules.bias, rules.bias, v);
    var error := Dequantised(Quantise(v, rules), rules) - v;
    assert error == (q - t) * s;
    HalfStep(q - t, s, error);
  }

  lemma Undivided(n: real, s: real)
    requires s != 0.0
    ensures n / s * s == n
  {
  }

  lemma NotZero(s: real)
    requires Magnitude(s) >= EPSILON
    ensures s != 0.0
  {
  }

  /** A value of one of the square's cells. */
  ghost predicate Holds(env: Env, sq: Square, v: real) {
    exists x: nat, y: nat :: sq.Covers(x, y) && env.proxy.Value(x, y) == Some(v)
  }

  /** The node of a merged square: its key carries its depth, its mean is the mean over the cells,
      its maximum the largest value, and the hint is set when a value lies above the limit. */
  lemma NodeTells(env: Env, sq: Square) returns (largest: real)
    requires Mergeable(env, sq)
    ensures var n, cells := NodeOf(env, sq), CellsOf(env, sq);
      && n.depth == NodeKeys.KeyDepth(n.morton) == sq.depth && n.tileRef == 0
      && cells != {} && n.mean == Quantise(Total(env, cells) / |cells| as real, env.rules)
      && n.max == Quantise(largest, env.rules)
      && n.flags % 2 == 1 && n.flags / 2 % 2 == 1 && n.flags < 8
      && (n.flags / 4 == 1 <==> exists v :: Holds(env, sq, v) && v > env.options.drill)
    ensures Holds(env, sq, largest) && forall v :: Holds(env, sq, v) ==> v <= largest
  {
    SquareDescribed(env, sq);
    SquareSummed(env, sq);
    hide SquareStats, Total, CellsOf, Quantise, Proxy.Value, Square.Covers, Decide, FitsKey, KeyOf;
    MergedHasMax(env, sq);
    NodeDepth(env, sq);
    largest := SquareStats(env, sq).max.value;
    assert NodeOf(env, sq).flags / 4 == 1 <==> largest > env.options.drill;
    forall v | Holds(env, sq, v) ensures v <= largest {
      var x: nat, y: nat :| sq.Covers(x, y) && env.proxy.Value(x, y) == Some(v);
      assert Valued(env, x, y);
    }
    assert |CellsOf(env, sq)| > 0;
    if largest > env.options.drill {
      assert Holds(env, sq, largest);
    }
  }

  lemma MergedHasMax(env: Env, sq: Square)
    requires Decide(env, sq) == Merge
    ensures SquareStats(env, sq).count > 0 && SquareStats(env, sq).max.Some?
  {
    hide SquareStats;
  }

  lemma NodeDepth(env: Env, sq: Square)
    requires Mergeable(env, sq)
    ensures NodeKeys.KeyDepth(NodeOf(env, sq).morton) == sq.depth
  {
    hide NodeKeys.NodeKey, NodeKeys.KeyDepth, Decide, Quantise;
    NodeKeys.KeyRoundTrip(sq.x / sq.size, sq.y / sq.size, sq.depth);
  }
}
