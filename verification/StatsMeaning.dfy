/** What the map statistics are of the raster they were gathered from. */
module StatsMeaning {
  import opened Bytes
  import opened Lod
  import opened LodMeans
  import opened LodCut
  import opened Stats

  /** A sum from the front. */
  function Sum(values: seq<real>): real { if values == [] then 0.0 else values[0] + Sum(values[1..]) }

  lemma {:induction false} SumOn(values: seq<real>, v: real)
    ensures Sum(values + [v]) == Sum(values) + v
  {
    if values == [] {
      assert [] + [v] == [v];
      assert Sum([v][1..]) == 0.0;
    } else {
      assert (values + [v])[1..] == values[1..] + [v];
      SumOn(values[1..], v);
    }
  }

  lemma {:induction false} SumJoin(a: seq<real>, b: seq<real>)
    ensures Sum(a + b) == Sum(a) + Sum(b)
  {
    if a == [] {
      assert a + b == b;
    } else {
      assert (a + b)[1..] == a[1..] + b;
      SumJoin(a[1..], b);
    }
  }

  /** The tally of any values: how many there are, how many are not zero, and their sum. */
  lemma {:induction false} TallyMeans(values: seq<real>)
    ensures var t := TallyOf(values);
      t.count == |values| && t.nonzero == |values| - multiset(values)[0.0] && t.sum == Sum(values)
    decreases |values|
  {
    if values != [] {
      var rest, v := values[..|values| - 1], values[|values| - 1];
      assert values == rest + [v];
      TallyMeans(rest);
      SumOn(rest, v);
    }
  }

  lemma {:induction false} RowSummed(f: Field, x: nat, w: nat, y: nat, c: nat)
    ensures Sum(RowValues(f, x, w, y, c)) == RowSum(f, x, w, y, c)
  {
    if w > 0 {
      RowSummed(f, x, w - 1, y, c);
      SumOn(RowValues(f, x, w - 1, y, c), f(x + w - 1, y, c));
    }
  }

  lemma {:induction false} BlockSummed(f: Field, x: nat, w: nat, y: nat, h: nat, c: nat)
    ensures Sum(BlockValues(f, x, w, y, h, c)) == BlockSum(f, x, w, y, h, c)
  {
    hide RowValues, RowSum;
    if h > 0 {
      BlockSummed(f, x, w, y, h - 1, c);
      RowSummed(f, x, w, y + h - 1, c);
      SumJoin(BlockValues(f, x, w, y, h - 1, c), RowValues(f, x, w, y + h - 1, c));
    }
  }

  lemma {:induction false} InRow(f: Field, w: nat, y: nat, c: nat, v: real)
    ensures v in RowValues(f, 0, w, y, c) <==> exists i: nat :: i < w && f(i, y, c) == v
  {
    if w > 0 {
      InRow(f, w - 1, y, c, v);
      var last := f(w - 1, y, c);
      assert RowValues(f, 0, w, y, c) == RowValues(f, 0, w - 1, y, c) + [last];
    }
  }

  lemma {:induction false} InBlock(f: Field, w: nat, h: nat, c: nat, v: real)
    ensures v in BlockValues(f, 0, w, 0, h, c) <==> exists i: nat, j: nat :: i < w && j < h && f(i, j, c) == v
  {
    hide RowValues;
    if h > 0 {
      InBlock(f, w, h - 1, c, v);
      InRow(f, w, h - 1, c, v);
      var a, b := BlockValues(f, 0, w, 0, h - 1, c), RowValues(f, 0, w, h - 1, c);
      assert BlockValues(f, 0, w, 0, h, c) == a + b;
      assert v in a + b <==> v in a || v in b;
    }
  }

  /**
   * The figures gathered chunk by chunk are those of the raster: its number of samples, their sum,
   * the samples that are not zero, and its least and greatest sample.
   */
  lemma FiguresOfRaster(rs: seq<Record>, r: Raster, n: nat, c: nat)
    requires r.Valid() && n > 0 && IsCut(rs, r, n) && c < r.channels && AllSized(rs, n, r.channels)
    ensures var t, f := TallyOf(Visited(rs, n, r.channels, r.width, r.height, c)), SampleField(r);
      && t.count == r.width * r.height
      && t.sum == BlockSum(f, 0, r.width, 0, r.height, c)
      && (t.count - t.nonzero) as real == BlockSum(Where(f, 0.0), 0, r.width, 0, r.height, c)
      && (t.count > 0 <==> t.min.Some?) && (t.count > 0 <==> t.max.Some?)
      && (t.count > 0 ==>
            && (forall x: nat, y: nat :: x < r.width && y < r.height ==> t.min.value <= Sample(r, x, y, c) <= t.max.value)
            && (exists x: nat, y: nat :: x < r.width && y < r.height && Sample(r, x, y, c) == t.min.value)
            && (exists x: nat, y: nat :: x < r.width && y < r.height && Sample(r, x, y, c) == t.max.value))
  {
    hide IsCut, AllSized, Visited, TallyOf, BlockValues, BlockSum, Sample, Where;
    ChunkedIsFlat(rs, r, n, c);
    FlatFigures(r, c);
    TallyBounds(Flat(r, c));
    BoundsOfRaster(r, c, TallyOf(Flat(r, c)));
  }

  lemma FlatFigures(r: Raster, c: nat)
    requires r.Valid()
    ensures var t, f := TallyOf(Flat(r, c)), SampleField(r);
      && t.count == |Flat(r, c)| == r.width * r.height
      && t.sum == BlockSum(f, 0, r.width, 0, r.height, c)
      && (t.count - t.nonzero) as real == BlockSum(Where(f, 0.0), 0, r.width, 0, r.height, c)
  {
    hide TallyOf, BlockValues, BlockSum, Sample, Where;
    TallyMeans(Flat(r, c));
    BlockSummed(SampleField(r), 0, r.width, 0, r.height, c);
    BlockLength(SampleField(r), 0, r.width, 0, r.height, c);
    BlockCounted(SampleField(r), 0.0, 0, r.width, 0, r.height, c);
  }

  lemma BoundsOfRaster(r: Raster, c: nat, t: Tally)
    requires r.Valid()
    requires var values := BlockValues(SampleField(r), 0, r.width, 0, r.height, c);
      && t.count == |values| && (t.min.Some? <==> values != []) && (t.max.Some? <==> values != [])
      && (forall i :: 0 <= i < |values| ==>
            t.min.Some? && t.max.Some? && t.min.value <= values[i] <= t.max.value)
      && (values != [] ==> t.min.value in values && t.max.value in values)
    ensures t.count > 0 ==>
      && t.min.Some? && t.max.Some?
      && (forall x: nat, y: nat :: x < r.width && y < r.height ==> t.min.value <= Sample(r, x, y, c) <= t.max.value)
      && (exists x: nat, y: nat :: x < r.width && y < r.height && Sample(r, x, y, c) == t.min.value)
      && (exists x: nat, y: nat :: x < r.width && y < r.height && Sample(r, x, y, c) == t.max.value)
  {
    hide BlockValues, Sample;
    var f := SampleField(r);
    var values := BlockValues(f, 0, r.width, 0, r.height, c);
    if t.count > 0 {
      forall x: nat, y: nat | x < r.width && y < r.height ensures t.min.value <= Sample(r, x, y, c) <= t.max.value {
        InBlock(f, r.width, r.height, c, Sample(r, x, y, c));
        assert f(x, y, c) == Sample(r, x, y, c);
        var i :| 0 <= i < |values| && values[i] == Sample(r, x, y, c);
      }
      Attained(r, c, t.min.value);
      Attained(r, c, t.max.value);
    }
  }

  lemma Attained(r: Raster, c: nat, v: real)
    requires r.Valid() && v in BlockValues(SampleField(r), 0, r.width, 0, r.height, c)
    ensures exists x: nat, y: nat :: x < r.width && y < r.height && Sample(r, x, y, c) == v
  {
    hide BlockValues, Sample;
    var f := SampleField(r);
    InBlock(f, r.width, r.height, c, v);
    var i: nat, j: nat :| i < r.width && j < r.height && f(i, j, c) == v;
    assert Sample(r, i, j, c) == v;
  }

  /** On a map the chunks reach only in part, the samples counted are those of the covered part,
      and the coverage is their share of the map. */
  lemma CoverageIsShare(rs: seq<Record>, r: Raster, n: nat, mapW: nat, mapH: nat, c: nat)
    requires r.Valid() && n > 0 && IsCut(rs, r, n) && c < r.channels && AllSized(rs, n, r.channels)
    requires mapW > 0 && mapH > 0
    ensures var t := TallyOf(Visited(rs, n, r.channels, mapW, mapH, c));
      var w, h := Covered(mapW, DivCeil(r.width, n), n), Covered(mapH, DivCeil(r.height, n), n);
      && w <= mapW && h <= mapH && t.count == w * h
      && Coverage(t, mapW * mapH) == (w * h) as real / (mapW * mapH) as real
  {
    var w, h := Covered(mapW, DivCeil(r.width, n), n), Covered(mapH, DivCeil(r.height, n), n);
    assert w <= mapW && h <= mapH;
    hide IsCut, AllSized, Visited, TallyOf, BlockValues, BlockSum, Sample, DivCeil, Covered;
    VisitedIsFlat(rs, r, n, mapW, mapH, c);
    var a, b := Visited(rs, n, r.channels, mapW, mapH, c), BlockValues(SampleField(r), 0, w, 0, h, c);
    TallyOfMultiset(a, b);
    TallyMeans(b);
    BlockLength(SampleField(r), 0, w, 0, h, c);
    Smaller(w, h, mapW, mapH);
    ShareOf(TallyOf(b), w * h, mapW * mapH);
  }

  lemma Smaller(w: nat, h: nat, mapW: nat, mapH: nat)
    requires w <= mapW && h <= mapH && mapW > 0 && mapH > 0
    ensures w * h <= mapW * mapH && mapW * mapH > 0
  {
    assert w * h <= mapW * h <= mapW * mapH;
  }

  lemma ShareOf(t: Tally, part: nat, whole: nat)
    requires t.count == part <= whole && whole > 0
    ensures Coverage(t, whole) == part as real / whole as real
  {
    if part == whole {
      assert part as real / whole as real == 1.0;
    } else {
      assert part as real / whole as real * whole as real == part as real;
    }
  }
}
