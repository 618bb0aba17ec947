/**
 * The whole pyramid: for an even chunk size every level is the box mean of the zero-padded
 * raster; for an odd chunk size no level can be relied on.
 */
module LodPyramid {
  import opened Bytes
  import opened Bits
  import opened MortonCodes
  import opened Lod
  import opened LodBuild
  import opened LodMeans
  import opened LodCut
  import Grid

  // -------------------------------------------------------------------- the pyramid

  /** Each level is made from the one below. */
  ghost predicate Pyramid(levels: seq<seq<Record>>, n: nat, channels: nat) {
    && (forall l :: 0 <= l < |levels| ==> AllSized(levels[l], n, channels))
    && (forall l :: 0 < l < |levels| ==> LevelOf(levels[l], levels[l - 1], n, channels))
  }

  /** `generate_lod`: bit layers get no coarser level, any other layer as many as asked for. */
  method GenerateLod(base: seq<Record>, n: nat, channels: nat, levels: nat, bit: bool)
    returns (all: seq<seq<Record>>)
    requires channels >= 1 && AllSized(base, n, channels)
    ensures all != [] && all[0] == base && Pyramid(all, n, channels)
    ensures |all| == if bit || base == [] then 1 else levels + 1
  {
    hide LevelOf, AllSized;
    all := [base];
    if levels == 0 || bit {
      return;
    }
    var level := 1;
    while level <= levels
      invariant 1 <= level <= levels + 1 && all != [] && all[0] == base
      invariant Pyramid(all, n, channels)
      invariant |all| == level && (all[level - 1] == [] <==> base == [])
      invariant base == [] ==> level == 1
    {
      var sources := all[level - 1];
      if |sources| == 0 {
        break;
      }
      var next := LodLevel(sources, n, channels);
      SizedLevel(next, sources, n, channels);
      all := all + [next];
      level := level + 1;
    }
  }

  lemma SizedLevel(rs: seq<Record>, below: seq<Record>, n: nat, channels: nat)
    requires AllSized(below, n, channels) && LevelOf(rs, below, n, channels)
    ensures AllSized(rs, n, channels)
  {
  }

  /** For an even chunk size, level `l` is level 0 coarsened `l` times. */
  lemma {:induction false} PyramidCoarse(levels: seq<seq<Record>>, n: nat, channels: nat, l: nat,
                                         f: Field, x: nat, y: nat, c: nat)
    requires n > 0 && n % 2 == 0 && c < channels && l < |levels| && Pyramid(levels, n, channels)
    requires forall u: nat, v: nat :: ReadAt(levels[0], n, channels, u, v, c) == f(u, v, c)
    ensures AllSized(levels[l], n, channels)
    ensures ReadAt(levels[l], n, channels, x, y, c) == Coarse(f, l)(x, y, c)
    decreases l
  {
    hide ReadAt, LevelOf, AllSized, Coarse;
    if l == 0 {
      CoarseZero(f, x, y, c);
    } else {
      LevelIsMean(levels[l], levels[l - 1], n, channels, x, y, c);
      PyramidCoarse(levels, n, channels, l - 1, f, 2 * x, 2 * y, c);
      PyramidCoarse(levels, n, channels, l - 1, f, 2 * x + 1, 2 * y, c);
      PyramidCoarse(levels, n, channels, l - 1, f, 2 * x, 2 * y + 1, c);
      PyramidCoarse(levels, n, channels, l - 1, f, 2 * x + 1, 2 * y + 1, c);
      CoarseStep(f, l, x, y, c);
    }
  }

  lemma CoarseZero(f: Field, x: nat, y: nat, c: nat)
    ensures Coarse(f, 0)(x, y, c) == f(x, y, c)
  {
  }

  /** For an even chunk size, every level of the pyramid of a layer, read over the whole grid, is
      the mean of the zero-padded raster over 2^l by 2^l cells. */
  lemma PyramidIsBoxMean(r: Raster, levels: seq<seq<Record>>, n: nat, l: nat, x: nat, y: nat, c: nat)
    requires r.Valid() && n > 0 && n % 2 == 0 && c < r.channels && l < |levels|
    requires Pyramid(levels, n, r.channels)
    requires forall u: nat, v: nat :: ReadAt(levels[0], n, r.channels, u, v, c) == Sample(r, u, v, c)
    ensures var s := Pow2(l);
      AllSized(levels[l], n, r.channels)
      && ReadAt(levels[l], n, r.channels, x, y, c) * (s * s) as real
         == BlockSum(SampleField(r), x * s, s, y * s, s, c)
  {
    hide ReadAt, LevelOf, AllSized, Sample, BlockSum, Pow2, Coarse, Raster.Valid;
    var f := SampleField(r);
    forall u: nat, v: nat ensures ReadAt(levels[0], n, r.channels, u, v, c) == f(u, v, c) {}
    PyramidCoarse(levels, n, r.channels, l, f, x, y, c);
    CoarseIsBoxMean(f, l, x, y, c);
  }

  // ---------------------------------------------------------------------- odd sizes

  /** Every level made with this chunk size is the mean of fours of the one below. */
  ghost predicate AveragesRight(n: nat, channels: nat)
    requires n > 0
  {
    forall rs: seq<Record>, below: seq<Record>, x: nat, y: nat, c: nat ::
      AllSized(below, n, channels) && AllSized(rs, n, channels) && LevelOf(rs, below, n, channels)
      && c < channels
      ==> ReadAt(rs, n, channels, x, y, c) == FourMean(below, n, channels, x, y, c)
  }

  /** The same for the chunks that a raster is cut into. */
  ghost predicate AveragesRasters(n: nat)
    requires n > 0
  {
    forall r: Raster, rs: seq<Record>, below: seq<Record>, x: nat, y: nat, c: nat ::
      r.Valid() && IsCut(below, r, n) && AllSized(below, n, r.channels) && AllSized(rs, n, r.channels)
      && LevelOf(rs, below, n, r.channels) && c < r.channels
      ==> ReadAt(rs, n, r.channels, x, y, c) == FourMean(below, n, r.channels, x, y, c)
  }

  /** The raster that shows it: a single sample that differs from zero, in the last column of
      chunk 0, or in chunk 1 when a chunk is a single cell. */
  function SpoilerRaster(n: nat): Raster
    requires n > 0
  {
    if n == 1 then Raster(2, 1, 1, [0.0, 4.0])
    else Raster(n, n, 1, Set(ZeroChunk(n, n, 1), n - 1, 0, 0, 4.0).data)
  }

  const LONE := Chunk(1, 1, 1, [4.0])

  function Spoiler(n: nat): seq<Record>
    requires n > 0
  {
    if n == 1 then [Record(0, ZeroChunk(1, 1, 1)), Record(1, LONE)]
    else [Record(0, Set(ZeroChunk(n, n, 1), n - 1, 0, 0, 4.0))]
  }

  function Blank(n: nat): seq<Record> { [Record(0, ZeroChunk(n, n, 1))] }

  lemma OneRecord(r: Record, id: nat)
    ensures Last([r], id) == if r.id == id then Some(r.chunk) else None
    ensures HasChild([r], id) <==> Parent(r.id) == id
  {
    hide Parent;
    assert [r][..0] == [];
    assert [r][0] == r;
  }

  lemma TwoRecords(a: Record, b: Record, id: nat)
    ensures Last([a, b], id) == if b.id == id then Some(b.chunk) else if a.id == id then Some(a.chunk) else None
    ensures HasChild([a, b], id) <==> Parent(a.id) == id || Parent(b.id) == id
  {
    hide Parent;
    OneRecord(a, id);
    assert [a, b][..1] == [a];
    assert [a, b][0] == a && [a, b][1] == b;
  }

  lemma CodesBelowTwo()
    ensures Interleave(0, 0) == 0 && Interleave(1, 0) == 1 && Interleave(0, 1) == 2
    ensures Interleave(1, 1) == 3 && Parent(0) == 0 && Parent(1) == 0
    ensures EvenBits(0) == 0 && OddBits(0) == 0 && EvenBits(1) == 1 && OddBits(1) == 0
  {
    assert EvenBits(1) == 1 && OddBits(1) == 0;
  }

  lemma SpoilerSized(n: nat)
    requires n > 0
    ensures AllSized(Spoiler(n), n, 1) && AllSized(Blank(n), n, 1)
  {
    hide Set;
  }

  /** The raster is cut into those records. */
  lemma SpoilerIsCut(n: nat)
    requires n > 0
    ensures SpoilerRaster(n).Valid() && IsCut(Spoiler(n), SpoilerRaster(n), n)
  {
    if n == 1 { PixelsAreCut(); } else { SquareIsCut(n); }
  }

  lemma PixelsAreCut()
    ensures IsCut(Spoiler(1), SpoilerRaster(1), 1)
  {
    hide Interleave, CutSoFar, DivCeil, Partly;
    CodesBelowTwo();
    WholeCells();
    PixelCut();
    var r, first := SpoilerRaster(1), Record(0, ZeroChunk(1, 1, 1));
    NothingCut(r, 1, 2);
    AddOne([], r, 1, 0, 0, 2, first.chunk);
    assert [] + [first] == [first];
    AddOne([first], r, 1, 0, 1, 2, LONE);
    assert [first] + [Record(1, LONE)] == Spoiler(1);
    NextRow(Spoiler(1), r, 1, 0, 2);
  }

  lemma SquareIsCut(n: nat)
    requires n > 1
    ensures SpoilerRaster(n).Valid() && IsCut(Spoiler(n), SpoilerRaster(n), n)
  {
    hide Interleave, CutSoFar, DivCeil, Set, Get;
    CodesBelowTwo();
    OneChunk(n);
    var r, k := SpoilerRaster(n), Set(ZeroChunk(n, n, 1), n - 1, 0, 0, 4.0);
    NothingCut(r, n, 1);
    AddOne([], r, n, 0, 0, 1, k);
    assert [] + [Record(0, k)] == Spoiler(n);
    NextRow(Spoiler(n), r, n, 0, 1);
  }

  lemma OneChunk(n: nat)
    requires n > 0
    ensures DivCeil(n, n) == 1
  {
    Grid.OneQuotient((n + n - 1) / n, (n + n - 1) % n, 1, n - 1, n);
  }

  lemma WholeCells()
    ensures DivCeil(2, 1) == 2 && DivCeil(1, 1) == 1
  {
  }

  lemma PixelCut()
    ensures Partly(ZeroChunk(1, 1, 1), SpoilerRaster(1), 1, 0, 0, 1, 0)
    ensures Partly(LONE, SpoilerRaster(1), 1, 1, 0, 1, 0)
  {
  }

  /** The lone sample is read by no cell of the coarser level. */
  lemma SpoilerUnseen(n: nat, x: nat, y: nat)
    requires n % 2 == 1 && x < n && y < n && AllSized(Spoiler(n), n, 1)
    ensures Cell(Spoiler(n), n, 1, 0, x, y, 0) == 0.0
  {
    hide Interleave, Get, Set;
    CodesBelowTwo();
    if n == 1 {
      assert Spoiler(1)[..1] == [Record(0, ZeroChunk(1, 1, 1))];
      assert [Record(0, ZeroChunk(1, 1, 1))][..0] == [];
      PixelAverage();
    } else {
      assert Spoiler(n)[..0] == [];
      if Writes(0, 0, Half(n), x, y) {
        Untouched(n, 2 * x, 2 * y);
        Untouched(n, 2 * x + 1, 2 * y);
        Untouched(n, 2 * x, 2 * y + 1);
        Untouched(n, 2 * x + 1, 2 * y + 1);
      }
    }
  }

  lemma PixelAverage()
    ensures Average(ZeroChunk(1, 1, 1), 0, 0, 0) == 0.0
  {
  }

  lemma Untouched(n: nat, x: nat, y: nat)
    requires n > 1 && x < n - 1
    ensures Get(Set(ZeroChunk(n, n, 1), n - 1, 0, 0, 4.0), x, y, 0) == 0.0
  {
    hide Get, Set;
    GetSet(ZeroChunk(n, n, 1), n - 1, 0, 0, 4.0, x, y, 0);
    ZeroReads(n, n, 1, x, y, 0);
  }

  lemma SpoilerChildren(n: nat, id: nat)
    requires n > 0
    ensures HasChild(Spoiler(n), id) <==> id == 0
  {
    hide Parent, Interleave, Set, HasChild;
    CodesBelowTwo();
    if n == 1 {
      TwoRecords(Spoiler(1)[0], Spoiler(1)[1], id);
    } else {
      OneRecord(Spoiler(n)[0], id);
    }
  }

  lemma BlankIsLevel(n: nat)
    requires n % 2 == 1 && AllSized(Spoiler(n), n, 1) && AllSized(Blank(n), n, 1)
    ensures LevelOf(Blank(n), Spoiler(n), n, 1)
  {
    hide Parent, Cell, Get, Set, Interleave, Spoiler;
    forall id: nat
      ensures Last(Blank(n), id).Some? <==> HasChild(Spoiler(n), id)
      ensures Last(Blank(n), id).Some? ==> Holds(Last(Blank(n), id).value, Spoiler(n), n, 1, id)
    {
      OneRecord(Blank(n)[0], id);
      SpoilerChildren(n, id);
      if id == 0 {
        var k := ZeroChunk(n, n, 1);
        forall x: nat, y: nat, c: nat | k.Has(x, y, c)
          ensures Get(k, x, y, c) == Cell(Spoiler(n), n, 1, 0, x, y, c)
        {
          ZeroReads(n, n, 1, x, y, c);
          SpoilerUnseen(n, x, y);
        }
      }
    }
  }

  /** An odd chunk size averages the chunks of that raster wrongly. */
  lemma OddFails(n: nat)
    requires n % 2 == 1
    ensures !AveragesRight(n, 1) && !AveragesRasters(n)
  {
    hide Parent, Cell, Interleave, LevelOf, AllSized, IsCut, Spoiler;
    SpoilerSized(n);
    SpoilerIsCut(n);
    BlankIsLevel(n);
    OddReads(n);
    assert SpoilerRaster(n).channels == 1;
    assert ReadAt(Blank(n), n, 1, n / 2, 0, 0) != FourMean(Spoiler(n), n, 1, n / 2, 0, 0);
  }

  lemma OddReads(n: nat)
    requires n % 2 == 1 && AllSized(Spoiler(n), n, 1) && AllSized(Blank(n), n, 1)
    ensures ReadAt(Blank(n), n, 1, n / 2, 0, 0) == 0.0
    ensures FourMean(Spoiler(n), n, 1, n / 2, 0, 0) == 1.0
  {
    hide Parent, Interleave, AllSized, Get, Set, ReadAt, Last, Spoiler, FourMean;
    CodesBelowTwo();
    var x := n / 2;
    OneRecord(Blank(n)[0], 0);
    FirstChunk(x, n);
    FirstChunk(0, n);
    ReadsIn(Blank(n), n, 1, x, 0, 0, 0, 0, x, 0);
    ZeroReads(n, n, 1, x, 0, 0);
    if n == 1 { PixelReads(); } else { LoneReads(n); }
  }

  lemma PixelReads()
    requires AllSized(Spoiler(1), 1, 1)
    ensures FourMean(Spoiler(1), 1, 1, 0, 0, 0) == 1.0
  {
    hide Parent, Interleave, AllSized, Get, ReadAt, Last, ChunkOf, Within;
    CodesBelowTwo();
    var s := Spoiler(1);
    FirstChunk(0, 1);
    SecondChunk(1);
    TwoRecords(s[0], s[1], 0);
    TwoRecords(s[0], s[1], 1);
    TwoRecords(s[0], s[1], 2);
    TwoRecords(s[0], s[1], 3);
    ReadsIn(s, 1, 1, 0, 0, 0, 0, 0, 0, 0);
    ReadsIn(s, 1, 1, 1, 0, 0, 1, 0, 0, 0);
    ReadsIn(s, 1, 1, 0, 1, 0, 0, 1, 0, 0);
    ReadsIn(s, 1, 1, 1, 1, 0, 1, 1, 0, 0);
    LoneSample();
  }

  lemma LoneSample()
    ensures Get(LONE, 0, 0, 0) == 4.0 && Get(ZeroChunk(1, 1, 1), 0, 0, 0) == 0.0
  {
  }

  lemma LoneReads(n: nat)
    requires n % 2 == 1 && n > 1 && AllSized(Spoiler(n), n, 1)
    ensures FourMean(Spoiler(n), n, 1, n / 2, 0, 0) == 1.0
  {
    hide Parent, Interleave, AllSized, Get, Set, ReadAt, Last, ChunkOf, Within;
    CodesBelowTwo();
    var s, r := Spoiler(n), Spoiler(n)[0];
    assert s == [r];
    FirstChunk(n - 1, n);
    FirstChunk(0, n);
    FirstChunk(1, n);
    SecondChunk(n);
    OneRecord(r, 0);
    OneRecord(r, 1);
    OneRecord(r, 2);
    OneRecord(r, 3);
    ReadsIn(s, n, 1, n - 1, 0, 0, 0, 0, n - 1, 0);
    ReadsIn(s, n, 1, n, 0, 0, 1, 0, 0, 0);
    ReadsIn(s, n, 1, n - 1, 1, 0, 0, 0, n - 1, 1);
    ReadsIn(s, n, 1, n, 1, 0, 1, 0, 0, 1);
    GetSet(ZeroChunk(n, n, 1), n - 1, 0, 0, 4.0, n - 1, 0, 0);
    GetSet(ZeroChunk(n, n, 1), n - 1, 0, 0, 4.0, n - 1, 1, 0);
    ZeroReads(n, n, 1, n - 1, 1, 0);
  }

  /** A level can be relied on exactly when the chunk size is even, both for chunks however they
      came about and for those cut from a raster. */
  lemma AveragesExactlyEven(n: nat)
    requires n > 0
    ensures n % 2 == 0 <==> forall channels: nat :: AveragesRight(n, channels)
    ensures n % 2 == 0 <==> AveragesRasters(n)
  {
    hide LevelOf, AllSized, ReadAt, FourMean, IsCut;
    if n % 2 == 0 {
      forall channels: nat ensures AveragesRight(n, channels) {
        forall rs: seq<Record>, below: seq<Record>, x: nat, y: nat, c: nat |
          AllSized(below, n, channels) && AllSized(rs, n, channels)
          && LevelOf(rs, below, n, channels) && c < channels
          ensures ReadAt(rs, n, channels, x, y, c) == FourMean(below, n, channels, x, y, c)
        {
          LevelIsMean(rs, below, n, channels, x, y, c);
        }
      }
      forall r: Raster, rs: seq<Record>, below: seq<Record>, x: nat, y: nat, c: nat |
        r.Valid() && IsCut(below, r, n) && AllSized(below, n, r.channels) && AllSized(rs, n, r.channels)
        && LevelOf(rs, below, n, r.channels) && c < r.channels
        ensures ReadAt(rs, n, r.channels, x, y, c) == FourMean(below, n, r.channels, x, y, c)
      {
        LevelIsMean(rs, below, n, r.channels, x, y, c);
      }
    } else {
      OddFails(n);
    }
  }

  lemma FirstChunk(x: nat, n: nat)
    requires x < n
    ensures ChunkOf(x, n) == 0 && Within(x, n) == x
  {
    Grid.OneQuotient(x / n, x % n, 0, x, n);
  }

  lemma SecondChunk(n: nat)
    requires n > 0
    ensures ChunkOf(n, n) == 1 && Within(n, n) == 0
  {
    Grid.OneQuotient(n / n, n % n, 1, 0, n);
  }
}
