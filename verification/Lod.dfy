/**
 * Cutting a raster into chunks, and averaging a level of chunks into the next.  A field gives a
 * sample for every cell of the unbounded grid; a level of chunks is read as a field, with zero
 * where there is no chunk.  Stored chunks decode to what was packed.
 */
module Lod {
  import opened Bytes
  import opened Bits
  import opened MortonCodes
  import Grid

  type Field = (nat, nat, nat) -> real

  // ------------------------------------------------------------------------- chunks

  datatype Chunk = Chunk(width: nat, height: nat, channels: nat, data: seq<real>) {
    predicate Valid() { channels >= 1 && |data| == width * height * channels }

    predicate Has(x: nat, y: nat, c: nat) { x < width && y < height && c < channels }

    function Index(x: nat, y: nat, c: nat): nat { (y * width + x) * channels + c }
  }

  lemma IndexIn(k: Chunk, x: nat, y: nat, c: nat)
    requires k.Has(x, y, c)
    ensures k.Index(x, y, c) < k.width * k.height * k.channels
  {
    assert y * k.width + x < k.width * k.height by { Grid.Multiple(k.height, y, k.width); }
    Grid.Multiple(k.width * k.height, y * k.width + x, k.channels);
  }

  lemma IndexApart(k: Chunk, x: nat, y: nat, c: nat, x': nat, y': nat, c': nat)
    requires k.Has(x, y, c) && k.Has(x', y', c')
    requires k.Index(x, y, c) == k.Index(x', y', c')
    ensures x == x' && y == y' && c == c'
  {
    Grid.OneQuotient(y * k.width + x, c, y' * k.width + x', c', k.channels);
    Grid.OneQuotient(y, x, y', x', k.width);
  }

  /** Out-of-range coordinates read as zero. */
  function Get(k: Chunk, x: nat, y: nat, c: nat): real
    requires k.Valid()
  {
    if k.Has(x, y, c) then
      IndexIn(k, x, y, c);
      k.data[k.Index(x, y, c)]
    else 0.0
  }

  /** Writes out of range are ignored. */
  function Set(k: Chunk, x: nat, y: nat, c: nat, v: real): (r: Chunk)
    requires k.Valid()
    ensures r.Valid() && r.(data := k.data) == k
  {
    if k.Has(x, y, c) then
      IndexIn(k, x, y, c);
      k.(data := k.data[k.Index(x, y, c) := v])
    else k
  }

  lemma GetSet(k: Chunk, x: nat, y: nat, c: nat, v: real, x': nat, y': nat, c': nat)
    requires k.Valid()
    ensures Get(Set(k, x, y, c, v), x', y', c')
         == if k.Has(x, y, c) && x == x' && y == y' && c == c' then v else Get(k, x', y', c')
  {
    if k.Has(x, y, c) && k.Has(x', y', c') {
      IndexIn(k, x, y, c);
      IndexIn(k, x', y', c');
      if k.Index(x, y, c) == k.Index(x', y', c') {
        IndexApart(k, x, y, c, x', y', c');
      }
    }
  }

  /** Samples are stored line by line, and the channels of a cell together. */
  lemma SampleAtPlace(k: Chunk, cell: nat, c: nat, i: nat)
    requires k.Valid() && cell < k.height * k.width && c < k.channels
    requires i == cell * k.channels + c && i < |k.data|
    ensures k.width > 0
    ensures Get(k, cell % k.width, cell / k.width, c) == k.data[i]
  {
    Grid.Line(cell, k.height, k.width);
  }

  function ZeroChunk(width: nat, height: nat, channels: nat): (k: Chunk)
    requires channels >= 1
    ensures k.Valid() && k.(data := []) == Chunk(width, height, channels, [])
  {
    assert width * height * channels >= 0;
    Chunk(width, height, channels, seq(width * height * channels, i => 0.0))
  }

  lemma ZeroReads(width: nat, height: nat, channels: nat, x: nat, y: nat, c: nat)
    requires channels >= 1
    ensures Get(ZeroChunk(width, height, channels), x, y, c) == 0.0
  {
    var k := ZeroChunk(width, height, channels);
    if k.Has(x, y, c) {
      IndexIn(k, x, y, c);
    }
  }

  // ------------------------------------------------------------------- levels of chunks

  datatype Record = Record(id: nat, chunk: Chunk)

  predicate AllSized(rs: seq<Record>, n: nat, channels: nat) {
    forall i :: 0 <= i < |rs| ==>
      rs[i].chunk.Valid() && rs[i].chunk.width == n && rs[i].chunk.height == n
      && rs[i].chunk.channels == channels
  }

  /** The last chunk written under an id. */
  function Last(rs: seq<Record>, id: nat): Option<Chunk> {
    if rs == [] then None
    else if rs[|rs| - 1].id == id then Some(rs[|rs| - 1].chunk)
    else Last(rs[..|rs| - 1], id)
  }

  lemma {:induction false} LastSized(rs: seq<Record>, n: nat, channels: nat, id: nat)
    requires AllSized(rs, n, channels)
    ensures var k := Last(rs, id); k.Some? ==>
      k.value.Valid() && k.value.width == n && k.value.height == n && k.value.channels == channels
  {
    if rs != [] {
      LastSized(rs[..|rs| - 1], n, channels, id);
    }
  }

  /** The chunk a cell of the whole grid lies in, in one axis. */
  function ChunkOf(x: nat, n: nat): nat
    requires n > 0
  {
    x / n
  }

  /** The cell's place within its chunk, in one axis. */
  function Within(x: nat, n: nat): (r: nat)
    requires n > 0
    ensures r < n
  {
    x % n
  }

  /** A level read at a cell of the whole grid. */
  function ReadAt(rs: seq<Record>, n: nat, channels: nat, x: nat, y: nat, c: nat): real
    requires n > 0 && AllSized(rs, n, channels)
  {
    var id := Interleave(ChunkOf(x, n), ChunkOf(y, n));
    var k := Last(rs, id);
    LastSized(rs, n, channels, id);
    if k.Some? then Get(k.value, Within(x, n), Within(y, n), c) else 0.0
  }

  // --------------------------------------------------------------------- box means

  /** The mean of the four cells a coarser cell covers. */
  function Quarter(f: Field): Field {
    (x: nat, y: nat, c: nat) =>
      (f(2 * x, 2 * y, c) + f(2 * x + 1, 2 * y, c) + f(2 * x, 2 * y + 1, c)
       + f(2 * x + 1, 2 * y + 1, c)) * 0.25
  }

  function Coarse(f: Field, level: nat): Field {
    if level == 0 then f else Quarter(Coarse(f, level - 1))
  }

  function RowSum(f: Field, x: nat, w: nat, y: nat, c: nat): real {
    if w == 0 then 0.0 else RowSum(f, x, w - 1, y, c) + f(x + w - 1, y, c)
  }

  function BlockSum(f: Field, x: nat, w: nat, y: nat, h: nat, c: nat): real {
    if h == 0 then 0.0 else BlockSum(f, x, w, y, h - 1, c) + RowSum(f, x, w, y + h - 1, c)
  }

  lemma {:induction false} RowSplit(f: Field, x: nat, v: nat, w: nat, y: nat, c: nat)
    ensures RowSum(f, x, v + w, y, c) == RowSum(f, x, v, y, c) + RowSum(f, x + v, w, y, c)
  {
    if w > 0 {
      RowSplit(f, x, v, w - 1, y, c);
    }
  }

  lemma {:induction false} BlockSplitX(f: Field, x: nat, v: nat, w: nat, y: nat, h: nat, c: nat)
    ensures BlockSum(f, x, v + w, y, h, c) == BlockSum(f, x, v, y, h, c) + BlockSum(f, x + v, w, y, h, c)
  {
    if h > 0 {
      BlockSplitX(f, x, v, w, y, h - 1, c);
      RowSplit(f, x, v, w, y + h - 1, c);
    }
  }

  lemma {:induction false} BlockSplitY(f: Field, x: nat, w: nat, y: nat, g: nat, h: nat, c: nat)
    ensures BlockSum(f, x, w, y, g + h, c) == BlockSum(f, x, w, y, g, c) + BlockSum(f, x, w, y + g, h, c)
  {
    if h > 0 {
      BlockSplitY(f, x, w, y, g, h - 1, c);
    }
  }

  lemma FourBlocks(f: Field, x: nat, y: nat, s: nat, c: nat)
    ensures BlockSum(f, x, s + s, y, s + s, c)
         == BlockSum(f, x, s, y, s, c) + BlockSum(f, x + s, s, y, s, c)
          + BlockSum(f, x, s, y + s, s, c) + BlockSum(f, x + s, s, y + s, s, c)
  {
    hide BlockSum;
    BlockSplitY(f, x, s + s, y, s, s, c);
    BlockSplitX(f, x, s, s, y, s, c);
    BlockSplitX(f, x, s, s, y + s, s, c);
  }

  /** Averaging by fours, level by level, is averaging over 2^L by 2^L cells at once. */
  lemma {:induction false} CoarseIsBoxMean(f: Field, level: nat, x: nat, y: nat, c: nat)
    ensures var s := Pow2(level);
      Coarse(f, level)(x, y, c) * (s * s) as real == BlockSum(f, x * s, s, y * s, s, c)
    decreases level, 1
  {
    if level == 0 {
      OneCellSum(f, x, y, c);
    } else {
      MeanStep(f, level, x, y, c);
    }
  }

  lemma OneCellSum(f: Field, x: nat, y: nat, c: nat)
    ensures BlockSum(f, x, 1, y, 1, c) == f(x, y, c)
  {
    assert RowSum(f, x, 1, y, c) == RowSum(f, x, 0, y, c) + f(x, y, c);
    assert BlockSum(f, x, 1, y, 1, c) == BlockSum(f, x, 1, y, 0, c) + RowSum(f, x, 1, y, c);
  }

  lemma {:induction false} MeanStep(f: Field, level: nat, x: nat, y: nat, c: nat)
    requires level > 0
    ensures var s := Pow2(level);
      Coarse(f, level)(x, y, c) * (s * s) as real == BlockSum(f, x * s, s, y * s, s, c)
    decreases level, 0
  {
    hide BlockSum, Pow2, Coarse;
    var s, g := Pow2(level - 1), Coarse(f, level - 1);
    PowStep(level);
    CoarseStep(f, level, x, y, c);
    CoarseIsBoxMean(f, level - 1, 2 * x, 2 * y, c);
    CoarseIsBoxMean(f, level - 1, 2 * x + 1, 2 * y, c);
    CoarseIsBoxMean(f, level - 1, 2 * x, 2 * y + 1, c);
    CoarseIsBoxMean(f, level - 1, 2 * x + 1, 2 * y + 1, c);
    Positions(x, s);
    Positions(y, s);
    FourBlocks(f, x * (2 * s), y * (2 * s), s, c);
    FourTimes(g(2 * x, 2 * y, c), g(2 * x + 1, 2 * y, c), g(2 * x, 2 * y + 1, c),
              g(2 * x + 1, 2 * y + 1, c), s);
  }

  lemma CoarseStep(f: Field, level: nat, x: nat, y: nat, c: nat)
    requires level > 0
    ensures var g := Coarse(f, level - 1);
      Coarse(f, level)(x, y, c)
      == (g(2 * x, 2 * y, c) + g(2 * x + 1, 2 * y, c) + g(2 * x, 2 * y + 1, c)
          + g(2 * x + 1, 2 * y + 1, c)) * 0.25
  {
    hide Quarter;
    QuarterAt(Coarse(f, level - 1), x, y, c);
  }

  lemma QuarterAt(g: Field, x: nat, y: nat, c: nat)
    ensures Quarter(g)(x, y, c)
         == (g(2 * x, 2 * y, c) + g(2 * x + 1, 2 * y, c) + g(2 * x, 2 * y + 1, c)
             + g(2 * x + 1, 2 * y + 1, c)) * 0.25
  {
  }

  lemma Positions(x: nat, s: nat)
    ensures (2 * x) * s == x * (2 * s) && (2 * x + 1) * s == x * (2 * s) + s
    ensures s + s == 2 * s
  {
  }

  lemma FourTimes(a: real, b: real, c: real, d: real, s: nat)
    ensures (a + b + c + d) * 0.25 * ((2 * s) * (2 * s)) as real
         == a * (s * s) as real + b * (s * s) as real + c * (s * s) as real + d * (s * s) as real
  {
    var q := (s * s) as real;
    assert ((2 * s) * (2 * s)) as real == 4.0 * q by { assert (2 * s) * (2 * s) == 4 * (s * s); }
    assert (a + b + c + d) * 0.25 * (4.0 * q) == (a + b + c + d) * q;
    assert (a + b + c + d) * q == a * q + b * q + c * q + d * q;
  }
}
