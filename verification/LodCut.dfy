/**
 * `add_layer`: the chunks of a layer hold the raster, each sample where it belongs, and zeros
 * beyond its edges.
 */
module LodCut {
  import opened Bytes
  import opened MortonCodes
  import opened Lod
  import opened LodMeans
  import Grid
  import Records

  /** The samples of a layer as they are handed in. */
  datatype Raster = Raster(width: nat, height: nat, channels: nat, data: seq<real>) {
    predicate Valid() { channels >= 1 && |data| == width * height * channels }
  }

  /** The raster, zero outside its bounds. */
  function Sample(r: Raster, x: nat, y: nat, c: nat): real
    requires r.Valid()
  {
    Get(Chunk(r.width, r.height, r.channels, r.data), x, y, c)
  }

  function SampleField(r: Raster): Field
    requires r.Valid()
  {
    (x: nat, y: nat, c: nat) => Sample(r, x, y, c)
  }

  /** The cell is copied before the loops reach row `v`, column `u`. */
  predicate Copied(y: nat, x: nat, v: nat, u: nat) { y < v || (y == v && x < u) }

  /** The chunk so far: samples where copied, zero elsewhere. */
  ghost predicate Partly(k: Chunk, r: Raster, n: nat, cx: nat, cy: nat, v: nat, u: nat)
    requires r.Valid()
  {
    && k.Valid() && k.width == n && k.height == n && k.channels == r.channels
    && forall x: nat, y: nat, c: nat :: k.Has(x, y, c) ==>
         Get(k, x, y, c) == if Copied(y, x, v, u) then Sample(r, cx * n + x, cy * n + y, c) else 0.0
  }

  lemma IndexStep(k: Chunk, x: nat, y: nat, c: nat)
    ensures k.Index(x, y, c) == k.Index(x, y, 0) + c
  {
  }

  /** All channels of one cell, copied as a slice. */
  function CopyCell(k: Chunk, x: nat, y: nat, from: seq<real>): (r: Chunk)
    requires k.Valid() && x < k.width && y < k.height && |from| == k.channels
    ensures r.Valid() && r.(data := k.data) == k
  {
    IndexIn(k, x, y, k.channels - 1);
    IndexStep(k, x, y, k.channels - 1);
    var at := k.Index(x, y, 0);
    k.(data := k.data[..at] + from + k.data[at + k.channels..])
  }

  lemma GetCopied(k: Chunk, x: nat, y: nat, from: seq<real>, x': nat, y': nat, c': nat)
    requires k.Valid() && x < k.width && y < k.height && |from| == k.channels && k.Has(x', y', c')
    ensures Get(CopyCell(k, x, y, from), x', y', c')
         == if x == x' && y == y' then from[c'] else Get(k, x', y', c')
  {
    var at, i := k.Index(x, y, 0), k.Index(x', y', c');
    IndexIn(k, x, y, k.channels - 1);
    IndexIn(k, x', y', c');
    IndexStep(k, x', y', c');
    if !(x == x' && y == y') && at <= i < at + k.channels {
      IndexStep(k, x, y, i - at);
      IndexApart(k, x, y, i - at, x', y', c');
    }
  }

  /** The slice of the raster a cell is copied from. */
  function CellOf(r: Raster, x: nat, y: nat): (s: seq<real>)
    requires r.Valid() && x < r.width && y < r.height
    ensures |s| == r.channels
  {
    var k := Chunk(r.width, r.height, r.channels, r.data);
    IndexIn(k, x, y, r.channels - 1);
    var at := k.Index(x, y, 0);
    IndexStep(k, x, y, r.channels - 1);
    r.data[at..at + r.channels]
  }

  lemma CellOfSample(r: Raster, x: nat, y: nat, c: nat)
    requires r.Valid() && x < r.width && y < r.height && c < r.channels
    ensures CellOf(r, x, y)[c] == Sample(r, x, y, c)
  {
    var k := Chunk(r.width, r.height, r.channels, r.data);
    IndexIn(k, x, y, c);
    IndexStep(k, x, y, c);
    IndexIn(k, x, y, r.channels - 1);
    IndexStep(k, x, y, r.channels - 1);
  }

  lemma CopyOne(k: Chunk, r: Raster, n: nat, cx: nat, cy: nat, v: nat, u: nat)
    requires r.Valid() && Partly(k, r, n, cx, cy, v, u) && u < n && v < n
    requires cx * n + u < r.width && cy * n + v < r.height
    ensures Partly(CopyCell(k, u, v, CellOf(r, cx * n + u, cy * n + v)), r, n, cx, cy, v, u + 1)
  {
    hide Get, Sample, CopyCell, CellOf, Chunk.Valid, Raster.Valid;
    var from := CellOf(r, cx * n + u, cy * n + v);
    var next := CopyCell(k, u, v, from);
    forall x: nat, y: nat, c: nat | next.Has(x, y, c)
      ensures Get(next, x, y, c)
        == if Copied(y, x, v, u + 1) then Sample(r, cx * n + x, cy * n + y, c) else 0.0
    {
      GetCopied(k, u, v, from, x, y, c);
      CellOfSample(r, cx * n + u, cy * n + v, c);
    }
  }

  /** A row that ends early leaves only cells outside the raster, which are zero anyway. */
  lemma RowDone(k: Chunk, r: Raster, n: nat, cx: nat, cy: nat, v: nat, u: nat)
    requires r.Valid() && Partly(k, r, n, cx, cy, v, u) && (u == n || cx * n + u >= r.width)
    ensures Partly(k, r, n, cx, cy, v + 1, 0)
  {
    hide Get, Chunk.Valid, Raster.Valid;
    forall x: nat, y: nat, c: nat | k.Has(x, y, c) && !Copied(y, x, v, u) && y <= v
      ensures Sample(r, cx * n + x, cy * n + y, c) == 0.0
    {
      OutsideIsZero(r, cx * n + x, cy * n + y, c);
    }
  }

  lemma ChunkDone(k: Chunk, r: Raster, n: nat, cx: nat, cy: nat, v: nat)
    requires r.Valid() && Partly(k, r, n, cx, cy, v, 0) && (v == n || cy * n + v >= r.height)
    ensures Partly(k, r, n, cx, cy, n, 0)
  {
    hide Get, Chunk.Valid, Raster.Valid;
    forall x: nat, y: nat, c: nat | k.Has(x, y, c) && y >= v
      ensures Sample(r, cx * n + x, cy * n + y, c) == 0.0
    {
      OutsideIsZero(r, cx * n + x, cy * n + y, c);
    }
  }

  lemma OutsideIsZero(r: Raster, x: nat, y: nat, c: nat)
    requires r.Valid() && (x >= r.width || y >= r.height)
    ensures Sample(r, x, y, c) == 0.0
  {
  }

  lemma NoneCopied(r: Raster, n: nat, cx: nat, cy: nat)
    requires r.Valid()
    ensures Partly(ZeroChunk(n, n, r.channels), r, n, cx, cy, 0, 0)
  {
    hide Get, Sample;
    var k := ZeroChunk(n, n, r.channels);
    forall x: nat, y: nat, c: nat | k.Has(x, y, c) ensures Get(k, x, y, c) == 0.0 {
      ZeroReads(n, n, r.channels, x, y, c);
    }
  }

  /** The two inner loops of `add_layer`: one chunk of the raster. */
  method CutOne(r: Raster, n: nat, cx: nat, cy: nat) returns (k: Chunk)
    requires r.Valid() && n > 0
    ensures Partly(k, r, n, cx, cy, n, 0)
  {
    hide Get, Sample, CopyCell, CellOf;
    k := ZeroChunk(n, n, r.channels);
    NoneCopied(r, n, cx, cy);
    var y := 0;
    while y < n && cy * n + y < r.height
      invariant 0 <= y <= n && Partly(k, r, n, cx, cy, y, 0)
    {
      var x := 0;
      while x < n && cx * n + x < r.width
        invariant 0 <= x <= n && Partly(k, r, n, cx, cy, y, x)
      {
        CopyOne(k, r, n, cx, cy, y, x);
        k := CopyCell(k, x, y, CellOf(r, cx * n + x, cy * n + y));
        x := x + 1;
      }
      RowDone(k, r, n, cx, cy, y, x);
      y := y + 1;
    }
    ChunkDone(k, r, n, cx, cy, y);
  }

  const MAX_CHUNKS := 65536

  function DivCeil(a: nat, n: nat): nat
    requires n > 0
  {
    (a + n - 1) / n
  }

  lemma PastCeil(a: nat, n: nat, p: nat)
    requires n > 0 && p >= DivCeil(a, n)
    ensures p * n >= a
  {
    var q := (a + n - 1) / n;
    assert q * n >= a by { assert a + n - 1 == q * n + (a + n - 1) % n; }
    if p > q {
      Grid.Multiple(p, q, n);
    }
  }

  /** The chunks the two outer loops have cut before row `cy`, column `cx`. */
  predicate Cut(px: nat, py: nat, cy: nat, cx: nat, dimX: nat) {
    px < dimX && (py < cy || (py == cy && px < cx))
  }

  ghost predicate CutSoFar(rs: seq<Record>, r: Raster, n: nat, cy: nat, cx: nat, dimX: nat)
    requires r.Valid()
  {
    && AllSized(rs, n, r.channels)
    && (forall i, j :: 0 <= i < j < |rs| ==> rs[i].id != rs[j].id)
    && (forall px: nat, py: nat :: CutAt(rs, r, n, cy, cx, dimX, px, py))
  }

  ghost predicate CutAt(rs: seq<Record>, r: Raster, n: nat, cy: nat, cx: nat, dimX: nat, px: nat, py: nat)
    requires r.Valid()
  {
    var k := Last(rs, Interleave(px, py));
    (k.Some? <==> Cut(px, py, cy, cx, dimX)) && (k.Some? ==> Partly(k.value, r, n, px, py, n, 0))
  }

  lemma LastOn(rs: seq<Record>, r: Record, id: nat)
    ensures Last(rs + [r], id) == if r.id == id then Some(r.chunk) else Last(rs, id)
  {
    assert (rs + [r])[..|rs|] == rs;
  }

  lemma {:induction false} LastNone(rs: seq<Record>, id: nat)
    requires Last(rs, id) == None
    ensures forall i :: 0 <= i < |rs| ==> rs[i].id != id
  {
    if rs != [] {
      LastNone(rs[..|rs| - 1], id);
      forall i | 0 <= i < |rs| ensures rs[i].id != id {
        assert i < |rs| - 1 ==> rs[..|rs| - 1][i] == rs[i];
      }
    }
  }

  lemma AddOne(rs: seq<Record>, r: Raster, n: nat, cy: nat, cx: nat, dimX: nat, k: Chunk)
    requires r.Valid() && CutSoFar(rs, r, n, cy, cx, dimX) && cx < dimX
    requires Partly(k, r, n, cx, cy, n, 0)
    ensures CutSoFar(rs + [Record(Interleave(cx, cy), k)], r, n, cy, cx + 1, dimX)
  {
    hide Interleave, Partly, Sample, Get, Last;
    var rec := Record(Interleave(cx, cy), k);
    PartlySized(k, r, n, cx, cy);
    assert CutAt(rs, r, n, cy, cx, dimX, cx, cy);
    LastNone(rs, rec.id);
    var more, next := rs + [rec], cx + 1;
    forall px: nat, py: nat ensures CutAt(more, r, n, cy, next, dimX, px, py) {
      assert CutAt(rs, r, n, cy, cx, dimX, px, py);
      LastOn(rs, rec, Interleave(px, py));
      SameCode(cx, cy, px, py);
    }
  }

  lemma PartlySized(k: Chunk, r: Raster, n: nat, cx: nat, cy: nat)
    requires r.Valid() && Partly(k, r, n, cx, cy, n, 0)
    ensures k.Valid() && k.width == n && k.height == n && k.channels == r.channels
  {
  }

  lemma NextRow(rs: seq<Record>, r: Raster, n: nat, cy: nat, dimX: nat)
    requires r.Valid() && CutSoFar(rs, r, n, cy, dimX, dimX)
    ensures CutSoFar(rs, r, n, cy + 1, 0, dimX)
  {
    hide Interleave, Partly, Last;
    var next := cy + 1;
    forall px: nat, py: nat ensures CutAt(rs, r, n, next, 0, dimX, px, py) {
      assert CutAt(rs, r, n, cy, dimX, dimX, px, py);
    }
  }

  lemma NothingCut(r: Raster, n: nat, dimX: nat)
    requires r.Valid()
    ensures CutSoFar([], r, n, 0, 0, dimX)
  {
    forall px: nat, py: nat ensures CutAt([], r, n, 0, 0, dimX, px, py) {}
  }

  lemma ReadsSample(rs: seq<Record>, r: Raster, n: nat, x: nat, y: nat, c: nat)
    requires r.Valid() && n > 0 && c < r.channels && AllSized(rs, n, r.channels)
    requires CutSoFar(rs, r, n, DivCeil(r.height, n), 0, DivCeil(r.width, n))
    ensures ReadAt(rs, n, r.channels, x, y, c) == Sample(r, x, y, c)
  {
    hide Interleave, Sample, Get, Last, DivCeil, AllSized;
    var dimX, dimY := DivCeil(r.width, n), DivCeil(r.height, n);
    var px, py := ChunkOf(x, n), ChunkOf(y, n);
    assert x == px * n + Within(x, n) && y == py * n + Within(y, n);
    assert CutAt(rs, r, n, dimY, 0, dimX, px, py);
    if !(px < dimX && py < dimY) {
      if px >= dimX { PastCeil(r.width, n, px); } else { PastCeil(r.height, n, py); }
      OutsideIsZero(r, x, y, c);
    }
  }

  /** The records are the chunks of the raster, in any order, each once. */
  ghost predicate IsCut(rs: seq<Record>, r: Raster, n: nat) {
    r.Valid() && n > 0 && CutSoFar(rs, r, n, DivCeil(r.height, n), 0, DivCeil(r.width, n))
  }

  /** What `add_layer` refuses. */
  predicate Accepts(width: nat, height: nat, channels: nat, data: seq<real>, dtype: Records.DType, n: nat) {
    && width > 0 && height > 0 && channels > 0
    && |data| == width * height * channels && (dtype == Records.DTYPE_BIT ==> channels == 1)
    && Records.ChunkShape(n, n, channels, dtype).TotalBytes() <= Records.MAX_RAW_CHUNK_BYTES
    && n > 0
    && DivCeil(width, n) <= MAX_CHUNKS && DivCeil(height, n) <= MAX_CHUNKS
  }

  /** `add_layer`: the chunks of a layer hold every sample of the raster where it belongs, zeros
      elsewhere, and no chunk twice. */
  method AddLayer(width: nat, height: nat, channels: nat, data: seq<real>, dtype: Records.DType, n: nat)
    returns (out: Result<seq<Record>>)
    ensures out.Ok? <==> Accepts(width, height, channels, data, dtype, n)
    ensures out.Err? ==> out.error == Invalid
    ensures out.Ok? ==> var r := Raster(width, height, channels, data);
      && IsCut(out.value, r, n) && AllSized(out.value, n, channels)
      && (forall i, j :: 0 <= i < j < |out.value| ==> out.value[i].id != out.value[j].id)
      && (forall x: nat, y: nat, c: nat :: c < channels ==>
            ReadAt(out.value, n, channels, x, y, c) == Sample(r, x, y, c))
  {
    hide Interleave, Sample, Get, Last, CutSoFar, AllSized, ReadAt, Partly, DivCeil, Records.ChunkShape.TotalBytes;
    if width == 0 || height == 0 || channels == 0 || |data| != width * height * channels
       || (dtype == Records.DTYPE_BIT && channels != 1)
       || Records.ChunkShape(n, n, channels, dtype).TotalBytes() > Records.MAX_RAW_CHUNK_BYTES
    {
      return Err(Invalid);
    }
    var r := Raster(width, height, channels, data);
    if n == 0 {
      return Err(Invalid);
    }
    var dimX, dimY := DivCeil(width, n), DivCeil(height, n);
    if dimX > MAX_CHUNKS || dimY > MAX_CHUNKS {
      return Err(Invalid);
    }
    var rs: seq<Record> := [];
    NothingCut(r, n, dimX);
    var cy := 0;
    while cy < dimY
      invariant 0 <= cy <= dimY && CutSoFar(rs, r, n, cy, 0, dimX)
    {
      var cx := 0;
      while cx < dimX
        invariant 0 <= cx <= dimX && CutSoFar(rs, r, n, cy, cx, dimX)
      {
        var k := CutOne(r, n, cx, cy);
        AddOne(rs, r, n, cy, cx, dimX, k);
        rs := rs + [Record(Interleave(cx, cy), k)];
        cx := cx + 1;
      }
      NextRow(rs, r, n, cy, dimX);
      cy := cy + 1;
    }
    AllCut(rs, r, n);
    return Ok(rs);
  }

  lemma AllCut(rs: seq<Record>, r: Raster, n: nat)
    requires r.Valid() && n > 0
    requires CutSoFar(rs, r, n, DivCeil(r.height, n), 0, DivCeil(r.width, n))
    ensures AllSized(rs, n, r.channels)
    ensures forall i, j :: 0 <= i < j < |rs| ==> rs[i].id != rs[j].id
    ensures forall x: nat, y: nat, c: nat :: c < r.channels ==>
      ReadAt(rs, n, r.channels, x, y, c) == Sample(r, x, y, c)
  {
    hide Interleave, Sample, Get, Last, ReadAt, DivCeil, Partly;
    forall x: nat, y: nat, c: nat | c < r.channels
      ensures ReadAt(rs, n, r.channels, x, y, c) == Sample(r, x, y, c)
    {
      ReadsSample(rs, r, n, x, y, c);
    }
  }
}
