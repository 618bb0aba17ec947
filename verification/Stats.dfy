/**
 * Map statistics from the level-0 chunks.  The part of each chunk that lies inside the map is
 * folded; over all chunks these parts make up the map once, so the fold sees exactly the samples
 * of the flat raster, in another order.
 */
module Stats {
  import opened Bytes
  import opened MortonCodes
  import opened Lod
  import opened LodMeans
  import opened LodCut
  import opened Sorting
  import Grid

  // ------------------------------------------------------------------------- tallies

  /** What the loops accumulate of one channel: how many samples, how many of them not zero,
      their sum, and their bounds. */
  datatype Tally = Tally(count: nat, nonzero: nat, sum: real, min: Option<real>, max: Option<real>)

  const NOTHING := Tally(0, 0, 0.0, None, None)

  function AddValue(t: Tally, v: real): Tally {
    Tally(t.count + 1, t.nonzero + (if v == 0.0 then 0 else 1), t.sum + v,
          Some(if t.min.Some? && t.min.value <= v then t.min.value else v),
          Some(if t.max.Some? && t.max.value >= v then t.max.value else v))
  }

  function TallyOf(values: seq<real>): Tally {
    if values == [] then NOTHING
    else AddValue(TallyOf(values[..|values| - 1]), values[|values| - 1])
  }

  lemma TallyOn(values: seq<real>, v: real)
    ensures TallyOf(values + [v]) == AddValue(TallyOf(values), v)
  {
    assert (values + [v])[..|values|] == values;
  }

  lemma AddSwaps(t: Tally, a: real, b: real)
    ensures AddValue(AddValue(t, a), b) == AddValue(AddValue(t, b), a)
  {
  }

  /** One value can be folded last instead of where it stands. */
  lemma {:induction false} TallyMoved(values: seq<real>, i: nat)
    requires i < |values|
    ensures TallyOf(values) == AddValue(TallyOf(values[..i] + values[i + 1..]), values[i])
    decreases |values|
  {
    hide AddValue, TallyOf;
    var n := |values| - 1;
    var rest, last := values[..n], values[n];
    assert values == rest + [last];
    TallyOn(rest, last);
    if i == n {
      assert values[..i] + values[i + 1..] == rest;
    } else {
      TallyMoved(rest, i);
      var less := rest[..i] + rest[i + 1..];
      assert values[..i] + values[i + 1..] == less + [last];
      TallyOn(less, last);
      AddSwaps(TallyOf(less), values[i], last);
    }
  }

  /** A tally does not depend on the order of the values. */
  lemma {:induction false} TallyOfMultiset(a: seq<real>, b: seq<real>)
    requires multiset(a) == multiset(b)
    ensures TallyOf(a) == TallyOf(b)
    decreases |a|
  {
    hide AddValue, TallyOf;
    if a == [] {
      assert |multiset(b)| == 0;
      assert b == [];
    } else {
      assert a[0] in multiset(b);
      var i :| 0 <= i < |b| && b[i] == a[0];
      TallyMoved(a, 0);
      TallyMoved(b, i);
      TakenOut(a, 0);
      TakenOut(b, i);
      TallyOfMultiset(a[..0] + a[1..], b[..i] + b[i + 1..]);
    }
  }

  lemma TakenOut<T>(s: seq<T>, i: nat)
    requires i < |s|
    ensures multiset(s[..i] + s[i + 1..]) == multiset(s) - multiset{s[i]}
  {
    assert s == s[..i] + [s[i]] + s[i + 1..];
  }

  // ------------------------------------------------------------------ values of a block

  function RowValues(f: Field, x: nat, w: nat, y: nat, c: nat): seq<real> {
    if w == 0 then [] else RowValues(f, x, w - 1, y, c) + [f(x + w - 1, y, c)]
  }

  /** The samples of a block, row by row. */
  function BlockValues(f: Field, x: nat, w: nat, y: nat, h: nat, c: nat): seq<real> {
    if h == 0 then [] else BlockValues(f, x, w, y, h - 1, c) + RowValues(f, x, w, y + h - 1, c)
  }

  /** One where the field has the value, zero elsewhere. */
  function Where(f: Field, v: real): Field {
    (x: nat, y: nat, c: nat) => if f(x, y, c) == v then 1.0 else 0.0
  }

  lemma {:induction false} RowCounted(f: Field, v: real, x: nat, w: nat, y: nat, c: nat)
    ensures multiset(RowValues(f, x, w, y, c))[v] as real == RowSum(Where(f, v), x, w, y, c)
  {
    if w > 0 {
      RowCounted(f, v, x, w - 1, y, c);
    }
  }

  lemma {:induction false} BlockCounted(f: Field, v: real, x: nat, w: nat, y: nat, h: nat, c: nat)
    ensures multiset(BlockValues(f, x, w, y, h, c))[v] as real == BlockSum(Where(f, v), x, w, y, h, c)
  {
    hide RowValues, RowSum, Where;
    if h > 0 {
      BlockCounted(f, v, x, w, y, h - 1, c);
      RowCounted(f, v, x, w, y + h - 1, c);
    }
  }

  // --------------------------------------------------------------- the in-map part

  /** The cells of chunk `i` that lie inside a map of the given size, in one axis. */
  function InMap(size: nat, i: nat, n: nat): nat {
    if size <= i * n then 0 else if size - i * n < n then size - i * n else n
  }

  /** The cells of the first `i` chunks that lie inside the map. */
  function Covered(size: nat, i: nat, n: nat): nat { if size < i * n then size else i * n }

  lemma CoveredOn(size: nat, i: nat, n: nat)
    ensures Covered(size, i + 1, n) == Covered(size, i, n) + InMap(size, i, n)
    ensures InMap(size, i, n) > 0 ==> Covered(size, i, n) == i * n
  {
    assert (i + 1) * n == i * n + n;
  }

  function ColumnsSum(f: Field, mapW: nat, n: nat, cols: nat, y: nat, h: nat, c: nat): real {
    if cols == 0 then 0.0
    else
      ColumnsSum(f, mapW, n, cols - 1, y, h, c)
      + BlockSum(f, (cols - 1) * n, InMap(mapW, cols - 1, n), y, h, c)
  }

  function TilesSum(f: Field, mapW: nat, mapH: nat, n: nat, cols: nat, rows: nat, c: nat): real {
    if rows == 0 then 0.0
    else
      TilesSum(f, mapW, mapH, n, cols, rows - 1, c)
      + ColumnsSum(f, mapW, n, cols, (rows - 1) * n, InMap(mapH, rows - 1, n), c)
  }

  lemma {:induction false} NoWidth(f: Field, x: nat, y: nat, h: nat, c: nat)
    ensures BlockSum(f, x, 0, y, h, c) == 0.0
  {
    if h > 0 {
      NoWidth(f, x, y, h - 1, c);
    }
  }

  /** The in-map parts of a row of chunks make up a strip of the map. */
  lemma {:induction false} ColumnsTile(f: Field, mapW: nat, n: nat, cols: nat, y: nat, h: nat, c: nat)
    ensures ColumnsSum(f, mapW, n, cols, y, h, c) == BlockSum(f, 0, Covered(mapW, cols, n), y, h, c)
  {
    hide BlockSum, InMap, Covered;
    if cols == 0 {
      NoWidth(f, 0, y, h, c);
      assert Covered(mapW, 0, n) == 0 by { CoveredNone(mapW, n); }
    } else {
      ColumnsTile(f, mapW, n, cols - 1, y, h, c);
      CoveredOn(mapW, cols - 1, n);
      var w := InMap(mapW, cols - 1, n);
      BlockSplitX(f, 0, Covered(mapW, cols - 1, n), w, y, h, c);
      if w == 0 {
        NoWidth(f, (cols - 1) * n, y, h, c);
        NoWidth(f, Covered(mapW, cols - 1, n), y, h, c);
      }
    }
  }

  lemma CoveredNone(size: nat, n: nat)
    ensures Covered(size, 0, n) == 0
  {
  }

  /** The in-map parts of all chunks make up the map. */
  lemma {:induction false} TilesMakeMap(f: Field, mapW: nat, mapH: nat, n: nat, cols: nat, rows: nat, c: nat)
    ensures TilesSum(f, mapW, mapH, n, cols, rows, c)
         == BlockSum(f, 0, Covered(mapW, cols, n), 0, Covered(mapH, rows, n), c)
  {
    hide BlockSum, InMap, Covered, ColumnsSum;
    var w := Covered(mapW, cols, n);
    if rows == 0 {
      CoveredNone(mapH, n);
      NoHeight(f, 0, w, 0, c);
    } else {
      TilesMakeMap(f, mapW, mapH, n, cols, rows - 1, c);
      CoveredOn(mapH, rows - 1, n);
      var h := InMap(mapH, rows - 1, n);
      ColumnsTile(f, mapW, n, cols, (rows - 1) * n, h, c);
      BlockSplitY(f, 0, w, 0, Covered(mapH, rows - 1, n), h, c);
      if h == 0 {
        NoHeight(f, 0, w, (rows - 1) * n, c);
        NoHeight(f, 0, w, Covered(mapH, rows - 1, n), c);
      }
    }
  }

  lemma NoHeight(f: Field, x: nat, w: nat, y: nat, c: nat)
    ensures BlockSum(f, x, w, y, 0, c) == 0.0
  {
  }

  // --------------------------------------------------------------- sums over records

  function IdSum(ids: seq<nat>, g: nat -> real): real {
    if ids == [] then 0.0 else IdSum(ids[..|ids| - 1], g) + g(ids[|ids| - 1])
  }

  lemma {:induction false} IdSumJoin(a: seq<nat>, b: seq<nat>, g: nat -> real)
    ensures IdSum(a + b, g) == IdSum(a, g) + IdSum(b, g)
  {
    if b == [] {
      assert a + b == a;
    } else {
      assert (a + b)[..|a + b| - 1] == a + b[..|b| - 1];
      IdSumJoin(a, b[..|b| - 1], g);
    }
  }

  lemma IdMoved(ids: seq<nat>, i: nat, g: nat -> real)
    requires i < |ids|
    ensures IdSum(ids, g) == IdSum(ids[..i] + ids[i + 1..], g) + g(ids[i])
  {
    assert ids[..i + 1][..i] == ids[..i];
    assert ids == ids[..i + 1] + ids[i + 1..];
    IdSumJoin(ids[..i + 1], ids[i + 1..], g);
    IdSumJoin(ids[..i], ids[i + 1..], g);
  }

  lemma {:induction false} IdSumPermutes(a: seq<nat>, b: seq<nat>, g: nat -> real)
    requires multiset(a) == multiset(b)
    ensures IdSum(a, g) == IdSum(b, g)
    decreases |a|
  {
    hide IdSum;
    if a == [] {
      assert |multiset(b)| == 0;
      assert b == [];
    } else {
      assert a[0] in multiset(b);
      var i :| 0 <= i < |b| && b[i] == a[0];
      IdMoved(a, 0, g);
      IdMoved(b, i, g);
      TakenOut(a, 0);
      TakenOut(b, i);
      IdSumPermutes(a[..0] + a[1..], b[..i] + b[i + 1..], g);
    }
  }

  function RowIds(cols: nat, row: nat): seq<nat> {
    if cols == 0 then [] else RowIds(cols - 1, row) + [Interleave(cols - 1, row)]
  }

  function GridIds(cols: nat, rows: nat): seq<nat> {
    if rows == 0 then [] else GridIds(cols, rows - 1) + RowIds(cols, rows - 1)
  }

  lemma {:induction false} RowIdsOf(cols: nat, row: nat)
    ensures NoRepeats(RowIds(cols, row))
    ensures forall px: nat, py: nat ::
      Interleave(px, py) in RowIds(cols, row) <==> px < cols && py == row
  {
    hide Interleave;
    if cols > 0 {
      RowIdsOf(cols - 1, row);
      var rest, last := RowIds(cols - 1, row), Interleave(cols - 1, row);
      forall px: nat, py: nat
        ensures Interleave(px, py) in rest + [last] <==> px < cols && py == row
      {
        SameCode(px, py, cols - 1, row);
      }
    }
  }

  lemma {:induction false} GridIdsOf(cols: nat, rows: nat)
    ensures NoRepeats(GridIds(cols, rows))
    ensures forall px: nat, py: nat ::
      Interleave(px, py) in GridIds(cols, rows) <==> px < cols && py < rows
  {
    hide Interleave, RowIds, NoRepeats;
    if rows == 0 {
      NothingRepeats();
    } else {
      GridIdsOf(cols, rows - 1);
      RowIdsOf(cols, rows - 1);
      var a, b := GridIds(cols, rows - 1), RowIds(cols, rows - 1);
      forall id | id in a ensures id !in b {
        EncodeDecode(id);
      }
      AppendNoRepeats(a, b);
      forall px: nat, py: nat
        ensures Interleave(px, py) in a + b <==> px < cols && py < rows
      {
        var id := Interleave(px, py);
        assert id in a + b <==> id in a || id in b;
      }
    }
  }

  lemma NothingRepeats()
    ensures NoRepeats(GridIds(0, 0)) && forall cols: nat :: GridIds(cols, 0) == []
    ensures NoRepeats<nat>([])
  {
  }

  // ---------------------------------------------------------------------- the loops

  function ChunkField(k: Chunk): Field
    requires k.Valid()
  {
    (x: nat, y: nat, c: nat) => Get(k, x, y, c)
  }

  /** The samples of a chunk's in-map part, row by row. */
  function ChunkValues(r: Record, n: nat, mapW: nat, mapH: nat, c: nat): seq<real>
    requires r.chunk.Valid()
  {
    BlockValues(ChunkField(r.chunk), 0, InMap(mapW, EvenBits(r.id), n),
                0, InMap(mapH, OddBits(r.id), n), c)
  }

  function Visited(rs: seq<Record>, n: nat, channels: nat, mapW: nat, mapH: nat, c: nat): seq<real>
    requires AllSized(rs, n, channels)
  {
    if rs == [] then []
    else
      Visited(rs[..|rs| - 1], n, channels, mapW, mapH, c)
      + ChunkValues(rs[|rs| - 1], n, mapW, mapH, c)
  }

  /** The two loops over the in-map part of one chunk. */
  method FoldChunk(t: Tally, k: Chunk, rows: nat, columns: nat, c: nat, ghost before: seq<real>)
    returns (u: Tally)
    requires k.Valid() && t == TallyOf(before)
    ensures u == TallyOf(before + BlockValues(ChunkField(k), 0, columns, 0, rows, c))
  {
    hide AddValue, TallyOf, Get;
    u := t;
    ghost var f := ChunkField(k);
    assert before + [] == before;
    var y := 0;
    while y < rows
      invariant 0 <= y <= rows && u == TallyOf(before + BlockValues(f, 0, columns, 0, y, c))
    {
      ghost var above := before + BlockValues(f, 0, columns, 0, y, c);
      assert above + [] == above;
      var x := 0;
      while x < columns
        invariant 0 <= x <= columns && u == TallyOf(above + RowValues(f, 0, x, y, c))
      {
        TallyOn(above + RowValues(f, 0, x, y, c), f(x, y, c));
        assert above + RowValues(f, 0, x + 1, y, c)
            == above + RowValues(f, 0, x, y, c) + [f(x, y, c)];
        u := AddValue(u, Get(k, x, y, c));
        x := x + 1;
      }
      assert before + BlockValues(f, 0, columns, 0, y + 1, c)
          == above + RowValues(f, 0, columns, y, c);
      y := y + 1;
    }
  }

  /** A stored chunk and what its payload decodes to, if it does. */
  datatype Stored = Stored(id: nat, chunk: Option<Chunk>)

  /** The chunks that decode, in order. */
  function Decoded(stored: seq<Stored>): seq<Record> {
    if stored == [] then []
    else
      var last := stored[|stored| - 1];
      Decoded(stored[..|stored| - 1])
      + (match last.chunk case None => [] case Some(k) => [Record(last.id, k)])
  }

  lemma DecodedOn(stored: seq<Stored>, i: nat)
    requires i < |stored|
    ensures Decoded(stored[..i + 1])
         == Decoded(stored[..i])
          + (match stored[i].chunk case None => [] case Some(k) => [Record(stored[i].id, k)])
  {
    assert stored[..i + 1][..i] == stored[..i];
  }

  lemma {:induction false} DecodedPrefix(stored: seq<Stored>, i: nat)
    requires i <= |stored|
    ensures Decoded(stored[..i]) <= Decoded(stored)
    decreases |stored| - i
  {
    if i == |stored| {
      assert stored[..i] == stored;
    } else {
      DecodedOn(stored, i);
      DecodedPrefix(stored, i + 1);
    }
  }

  lemma VisitedAdds(rs: seq<Record>, r: Record, n: nat, channels: nat, mapW: nat, mapH: nat, c: nat)
    requires AllSized(rs, n, channels) && AllSized(rs + [r], n, channels) && r.chunk.Valid()
    ensures Visited(rs + [r], n, channels, mapW, mapH, c)
         == Visited(rs, n, channels, mapW, mapH, c) + ChunkValues(r, n, mapW, mapH, c)
  {
    hide ChunkValues;
    assert (rs + [r])[..|rs|] == rs;
  }

  lemma SizedOn(all: seq<Record>, rs: seq<Record>, r: Record, n: nat, channels: nat)
    requires AllSized(all, n, channels) && rs + [r] <= all
    ensures AllSized(rs, n, channels) && AllSized(rs + [r], n, channels)
    ensures r.chunk.Valid() && r.chunk.width == n && r.chunk.height == n && r.chunk.channels == channels
  {
    var more := rs + [r];
    assert forall i :: 0 <= i < |more| ==> more[i] == all[i];
    assert forall i :: 0 <= i < |rs| ==> rs[i] == more[i];
    assert r == more[|rs|];
  }

  /** The statistics of one channel of a layer, from its level-0 chunks; one that does not decode
      is passed over. */
  method FoldRecords(stored: seq<Stored>, n: nat, channels: nat, mapW: nat, mapH: nat, c: nat)
    returns (t: Tally)
    requires AllSized(Decoded(stored), n, channels)
    ensures t == TallyOf(Visited(Decoded(stored), n, channels, mapW, mapH, c))
  {
    hide AddValue, BlockValues, InMap, EvenBits, OddBits, Decoded, AllSized, Visited, TallyOf;
    t := NOTHING;
    ghost var rs: seq<Record> := [];
    NothingStored(n, channels, mapW, mapH, c);
    assert stored[..0] == [];
    var i := 0;
    while i < |stored|
      invariant 0 <= i <= |stored| && rs == Decoded(stored[..i]) && AllSized(rs, n, channels)
      invariant t == TallyOf(Visited(rs, n, channels, mapW, mapH, c))
    {
      var r := stored[i];
      DecodedOn(stored, i);
      DecodedPrefix(stored, i + 1);
      match r.chunk {
        case None =>
          assert rs + [] == rs;
        case Some(k) =>
          ghost var one := Record(r.id, k);
          SizedOn(Decoded(stored), rs, one, n, channels);
          VisitedAdds(rs, one, n, channels, mapW, mapH, c);
          var inMapW, inMapH := InMap(mapW, EvenBits(r.id), n), InMap(mapH, OddBits(r.id), n);
          InMapWithin(mapW, EvenBits(r.id), n);
          InMapWithin(mapH, OddBits(r.id), n);
          var rows := if k.height < inMapH then k.height else inMapH;
          var columns := if inMapW < k.width then inMapW else k.width;
          t := FoldChunk(t, k, rows, columns, c, Visited(rs, n, channels, mapW, mapH, c));
          rs := rs + [one];
      }
      i := i + 1;
    }
    assert stored[..i] == stored;
  }

  lemma NothingStored(n: nat, channels: nat, mapW: nat, mapH: nat, c: nat)
    ensures Decoded([]) == [] && AllSized([], n, channels)
    ensures TallyOf(Visited([], n, channels, mapW, mapH, c)) == NOTHING
  {
  }

  lemma InMapWithin(size: nat, i: nat, n: nat)
    ensures InMap(size, i, n) <= n
  {
  }

  // ------------------------------------------------------------------ chunks as tiles

  function IdsOf(rs: seq<Record>): seq<nat> {
    seq(|rs|, i requires 0 <= i < |rs| => rs[i].id)
  }

  /** How often a value occurs in the in-map part of the chunk with this id, by the raster. */
  function TileCount(f: Field, v: real, n: nat, mapW: nat, mapH: nat, c: nat): nat -> real {
    (id: nat) =>
      BlockSum(Where(f, v), EvenBits(id) * n, InMap(mapW, EvenBits(id), n),
               OddBits(id) * n, InMap(mapH, OddBits(id), n), c)
  }

  lemma {:induction false} LastIs(rs: seq<Record>, i: nat)
    requires i < |rs| && forall j, k :: 0 <= j < k < |rs| ==> rs[j].id != rs[k].id
    ensures Last(rs, rs[i].id) == Some(rs[i].chunk)
  {
    if i < |rs| - 1 {
      LastIs(rs[..|rs| - 1], i);
    }
  }

  /** The two blocks hold the same sample at this place. */
  predicate Agree(f: Field, g: Field, x: nat, x': nat, y: nat, y': nat, c: nat, i: nat, j: nat) {
    f(x + i, y + j, c) == g(x' + i, y' + j, c)
  }

  lemma {:induction false} SameRow(f: Field, g: Field, x: nat, x': nat, w: nat, y: nat, y': nat,
                                   j: nat, c: nat)
    requires forall i: nat :: i < w ==> Agree(f, g, x, x', y, y', c, i, j)
    ensures RowValues(f, x, w, y + j, c) == RowValues(g, x', w, y' + j, c)
  {
    if w > 0 {
      SameRow(f, g, x, x', w - 1, y, y', j, c);
      assert Agree(f, g, x, x', y, y', c, w - 1, j);
    }
  }

  lemma {:induction false} SameBlock(f: Field, g: Field, x: nat, x': nat, w: nat, y: nat, y': nat,
                                     h: nat, c: nat)
    requires forall i: nat, j: nat :: i < w && j < h ==> Agree(f, g, x, x', y, y', c, i, j)
    ensures BlockValues(f, x, w, y, h, c) == BlockValues(g, x', w, y', h, c)
  {
    hide RowValues, Agree;
    if h > 0 {
      SameBlock(f, g, x, x', w, y, y', h - 1, c);
      SameRow(f, g, x, x', w, y, y', h - 1, c);
      assert y + h - 1 == y + (h - 1) && y' + h - 1 == y' + (h - 1);
    }
  }

  /** The in-map part of a chunk of the raster holds the raster's samples. */
  lemma ChunkHoldsTile(rs: seq<Record>, r: Raster, n: nat, i: nat, mapW: nat, mapH: nat, c: nat)
    requires r.Valid() && n > 0 && IsCut(rs, r, n) && i < |rs| && c < r.channels && rs[i].chunk.Valid()
    ensures var px, py := EvenBits(rs[i].id), OddBits(rs[i].id);
      ChunkValues(rs[i], n, mapW, mapH, c)
      == BlockValues(SampleField(r), px * n, InMap(mapW, px, n), py * n, InMap(mapH, py, n), c)
  {
    hide Sample, Get, BlockValues, DivCeil, EvenBits, OddBits, Interleave, InMap;
    var k, px, py := rs[i].chunk, EvenBits(rs[i].id), OddBits(rs[i].id);
    LastIs(rs, i);
    EncodeDecode(rs[i].id);
    assert CutAt(rs, r, n, DivCeil(r.height, n), 0, DivCeil(r.width, n), px, py);
    assert Partly(k, r, n, px, py, n, 0);
    InMapWithin(mapW, px, n);
    InMapWithin(mapH, py, n);
    var f, g, left, top := ChunkField(k), SampleField(r), px * n, py * n;
    forall u: nat, v: nat | u < InMap(mapW, px, n) && v < InMap(mapH, py, n)
      ensures Agree(f, g, 0, left, 0, top, c, u, v)
    {
      assert k.Has(u, v, c);
    }
    SameBlock(f, g, 0, left, InMap(mapW, px, n), 0, top, InMap(mapH, py, n), c);
  }

  lemma TileCounted(rs: seq<Record>, r: Raster, n: nat, i: nat, mapW: nat, mapH: nat, c: nat, v: real)
    requires r.Valid() && n > 0 && IsCut(rs, r, n) && i < |rs| && c < r.channels
    requires rs[i].chunk.Valid()
    ensures multiset(ChunkValues(rs[i], n, mapW, mapH, c))[v] as real
         == TileCount(SampleField(r), v, n, mapW, mapH, c)(rs[i].id)
  {
    hide IsCut, BlockValues, BlockSum, Where, EvenBits, OddBits, InMap, ChunkValues;
    var px, py := EvenBits(rs[i].id), OddBits(rs[i].id);
    ChunkHoldsTile(rs, r, n, i, mapW, mapH, c);
    BlockCounted(SampleField(r), v, px * n, InMap(mapW, px, n), py * n, InMap(mapH, py, n), c);
  }

  lemma VisitedOn(rs: seq<Record>, n: nat, channels: nat, m: nat, mapW: nat, mapH: nat, c: nat, v: real)
    requires m < |rs| && AllSized(rs[..m], n, channels) && AllSized(rs[..m + 1], n, channels)
    requires rs[m].chunk.Valid()
    ensures multiset(Visited(rs[..m + 1], n, channels, mapW, mapH, c))[v]
         == multiset(Visited(rs[..m], n, channels, mapW, mapH, c))[v]
          + multiset(ChunkValues(rs[m], n, mapW, mapH, c))[v]
  {
    hide ChunkValues;
    assert rs[..m + 1][..m] == rs[..m];
  }

  lemma IdSumOn(ids: seq<nat>, m: nat, g: nat -> real)
    requires m < |ids|
    ensures IdSum(ids[..m + 1], g) == IdSum(ids[..m], g) + g(ids[m])
  {
    assert ids[..m + 1][..m] == ids[..m];
  }

  lemma SizedPrefix(rs: seq<Record>, n: nat, channels: nat, m: nat)
    requires AllSized(rs, n, channels) && m <= |rs|
    ensures AllSized(rs[..m], n, channels)
    ensures m < |rs| ==> rs[m].chunk.Valid()
  {
  }

  /** How often the loops see a value, over the first `m` records. */
  lemma {:induction false} VisitedCount(rs: seq<Record>, r: Raster, n: nat, m: nat, mapW: nat, mapH: nat,
                                        c: nat, v: real)
    requires r.Valid() && n > 0 && IsCut(rs, r, n) && c < r.channels && m <= |rs|
    requires AllSized(rs, n, r.channels)
    ensures AllSized(rs[..m], n, r.channels)
    ensures multiset(Visited(rs[..m], n, r.channels, mapW, mapH, c))[v] as real
         == IdSum(IdsOf(rs)[..m], TileCount(SampleField(r), v, n, mapW, mapH, c))
  {
    hide IsCut, ChunkValues, TileCount, Chunk.Valid, AllSized, Visited, IdSum, Raster.Valid;
    SizedPrefix(rs, n, r.channels, m);
    if m == 0 {
      NoneVisited(n, r.channels, mapW, mapH, c, TileCount(SampleField(r), v, n, mapW, mapH, c));
      assert rs[..0] == [] && IdsOf(rs)[..0] == [];
    } else {
      VisitedCount(rs, r, n, m - 1, mapW, mapH, c, v);
      SizedPrefix(rs, n, r.channels, m - 1);
      TileCounted(rs, r, n, m - 1, mapW, mapH, c, v);
      VisitedOn(rs, n, r.channels, m - 1, mapW, mapH, c, v);
      IdSumOn(IdsOf(rs), m - 1, TileCount(SampleField(r), v, n, mapW, mapH, c));
    }
  }

  lemma NoneVisited(n: nat, channels: nat, mapW: nat, mapH: nat, c: nat, g: nat -> real)
    ensures Visited([], n, channels, mapW, mapH, c) == [] && IdSum([], g) == 0.0
  {
  }

  lemma {:induction false} RowIdSum(f: Field, v: real, n: nat, mapW: nat, mapH: nat, cols: nat, row: nat, c: nat)
    ensures IdSum(RowIds(cols, row), TileCount(f, v, n, mapW, mapH, c))
         == ColumnsSum(Where(f, v), mapW, n, cols, row * n, InMap(mapH, row, n), c)
  {
    hide BlockSum, Where, EvenBits, OddBits, Interleave, InMap;
    if cols > 0 {
      RowIdSum(f, v, n, mapW, mapH, cols - 1, row, c);
      DecodeEncode(cols - 1, row);
      var rest, last := RowIds(cols - 1, row), Interleave(cols - 1, row);
      assert (rest + [last])[..|rest|] == rest;
    }
  }

  lemma {:induction false} GridIdSum(f: Field, v: real, n: nat, mapW: nat, mapH: nat, cols: nat, rows: nat, c: nat)
    ensures IdSum(GridIds(cols, rows), TileCount(f, v, n, mapW, mapH, c))
         == TilesSum(Where(f, v), mapW, mapH, n, cols, rows, c)
  {
    hide TileCount, ColumnsSum, InMap, RowIds, Where;
    if rows > 0 {
      GridIdSum(f, v, n, mapW, mapH, cols, rows - 1, c);
      RowIdSum(f, v, n, mapW, mapH, cols, rows - 1, c);
      IdSumJoin(GridIds(cols, rows - 1), RowIds(cols, rows - 1), TileCount(f, v, n, mapW, mapH, c));
    }
  }

  /** The ids of a cut are those of the grid, in some order. */
  lemma IdsAreGrid(rs: seq<Record>, r: Raster, n: nat)
    requires r.Valid() && n > 0 && IsCut(rs, r, n)
    ensures multiset(IdsOf(rs)) == multiset(GridIds(DivCeil(r.width, n), DivCeil(r.height, n)))
  {
    hide DivCeil, Interleave, EvenBits, OddBits, Partly, GridIds;
    var cols, rows := DivCeil(r.width, n), DivCeil(r.height, n);
    var ids := IdsOf(rs);
    GridIdsOf(cols, rows);
    forall id ensures id in ids <==> id in GridIds(cols, rows) {
      EncodeDecode(id);
      var px, py := EvenBits(id), OddBits(id);
      assert CutAt(rs, r, n, rows, 0, cols, px, py);
      if id in ids {
        var i :| 0 <= i < |ids| && ids[i] == id;
        LastIs(rs, i);
      }
      if Last(rs, id).Some? {
        LastListed(rs, id);
      }
    }
    assert NoRepeats(ids);
    SameMembers(ids, GridIds(cols, rows));
  }

  lemma {:induction false} LastListed(rs: seq<Record>, id: nat)
    requires Last(rs, id).Some?
    ensures id in IdsOf(rs)
  {
    var n := |rs| - 1;
    assert IdsOf(rs)[n] == rs[n].id;
    if rs[n].id != id {
      LastListed(rs[..n], id);
      assert IdsOf(rs[..n]) == IdsOf(rs)[..n];
    }
  }

  /** The loops over the chunks see exactly the samples of the raster that lie in the map and in
      the chunks, as often as they occur there. */
  lemma VisitedIsFlat(rs: seq<Record>, r: Raster, n: nat, mapW: nat, mapH: nat, c: nat)
    requires r.Valid() && n > 0 && IsCut(rs, r, n) && c < r.channels && AllSized(rs, n, r.channels)
    ensures multiset(Visited(rs, n, r.channels, mapW, mapH, c))
         == multiset(BlockValues(SampleField(r), 0, Covered(mapW, DivCeil(r.width, n), n),
                                 0, Covered(mapH, DivCeil(r.height, n), n), c))
  {
    hide IsCut, BlockValues, BlockSum, Where, Visited, DivCeil, Covered, TileCount, TilesSum, GridIds;
    var f, cols, rows := SampleField(r), DivCeil(r.width, n), DivCeil(r.height, n);
    var w, h := Covered(mapW, cols, n), Covered(mapH, rows, n);
    var seen := Visited(rs, n, r.channels, mapW, mapH, c);
    forall v ensures multiset(seen)[v] == multiset(BlockValues(f, 0, w, 0, h, c))[v] {
      assert rs[..|rs|] == rs && IdsOf(rs)[..|rs|] == IdsOf(rs);
      VisitedCount(rs, r, n, |rs|, mapW, mapH, c, v);
      IdsAreGrid(rs, r, n);
      IdSumPermutes(IdsOf(rs), GridIds(cols, rows), TileCount(f, v, n, mapW, mapH, c));
      GridIdSum(f, v, n, mapW, mapH, cols, rows, c);
      TilesMakeMap(Where(f, v), mapW, mapH, n, cols, rows, c);
      BlockCounted(f, v, 0, w, 0, h, c);
    }
  }

  lemma AllCovered(size: nat, n: nat)
    requires n > 0
    ensures Covered(size, DivCeil(size, n), n) == size
  {
    hide DivCeil;
    PastCeil(size, n, DivCeil(size, n));
  }

  lemma {:induction false} RowLength(f: Field, x: nat, w: nat, y: nat, c: nat)
    ensures |RowValues(f, x, w, y, c)| == w
  {
    if w > 0 {
      RowLength(f, x, w - 1, y, c);
    }
  }

  lemma {:induction false} BlockLength(f: Field, x: nat, w: nat, y: nat, h: nat, c: nat)
    ensures |BlockValues(f, x, w, y, h, c)| == w * h
  {
    hide RowValues;
    if h > 0 {
      BlockLength(f, x, w, y, h - 1, c);
      RowLength(f, x, w, y + h - 1, c);
    }
  }

  lemma {:induction false} TallyCounts(values: seq<real>)
    ensures TallyOf(values).count == |values|
  {
    if values != [] {
      TallyCounts(values[..|values| - 1]);
    }
  }

  /** The samples of the raster, row by row, with no padding. */
  function Flat(r: Raster, c: nat): seq<real>
    requires r.Valid()
  {
    BlockValues(SampleField(r), 0, r.width, 0, r.height, c)
  }

  /** `coverage`. */
  function Coverage(t: Tally, mapCells: nat): real {
    if mapCells == 0 then 0.0
    else
      var share := t.count as real / mapCells as real;
      if share < 1.0 then share else 1.0
  }

  /** For a layer that fills the map, whatever order its chunks come in, the chunked statistics
      are those of the flat raster without its padding: same count, non-zero count, sum and
      bounds; and the layer covers all of the map. */
  lemma ChunkedIsFlat(rs: seq<Record>, r: Raster, n: nat, c: nat)
    requires r.Valid() && n > 0 && IsCut(rs, r, n) && c < r.channels && AllSized(rs, n, r.channels)
    ensures TallyOf(Visited(rs, n, r.channels, r.width, r.height, c)) == TallyOf(Flat(r, c))
    ensures TallyOf(Flat(r, c)).count == r.width * r.height
    ensures r.width > 0 && r.height > 0 ==> Coverage(TallyOf(Flat(r, c)), r.width * r.height) == 1.0
  {
    hide IsCut, BlockValues, Visited, DivCeil, Covered, TallyOf;
    VisitedIsFlat(rs, r, n, r.width, r.height, c);
    AllCovered(r.width, n);
    AllCovered(r.height, n);
    TallyOfMultiset(Visited(rs, n, r.channels, r.width, r.height, c), Flat(r, c));
    TallyCounts(Flat(r, c));
    BlockLength(SampleField(r), 0, r.width, 0, r.height, c);
    if r.width > 0 && r.height > 0 {
      Grid.Multiple(r.width, 0, r.height);
      WholeShare(r.width * r.height);
    }
  }

  lemma WholeShare(m: nat)
    requires m > 0
    ensures m as real / m as real == 1.0
  {
  }

  /** What the bounds of a tally mean. */
  lemma {:induction false} TallyBounds(values: seq<real>)
    ensures var t := TallyOf(values);
      && (t.min.Some? <==> values != []) && (t.max.Some? <==> values != [])
      && (forall i :: 0 <= i < |values| ==>
            t.min.Some? && t.max.Some? && t.min.value <= values[i] <= t.max.value)
      && (values != [] ==> t.min.value in values && t.max.value in values)
      && (t.nonzero == 0 <==> forall i :: 0 <= i < |values| ==> values[i] == 0.0)
  {
    if values != [] {
      var rest := values[..|values| - 1];
      TallyBounds(rest);
      assert values == rest + [values[|values| - 1]];
    }
  }
}
