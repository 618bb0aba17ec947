/**
 * One level of the pyramid against the one below: for an even chunk size every cell of the
 * coarser level, read over the whole grid, is the mean of the four cells it covers.
 */
module LodMeans {
  import opened MortonCodes
  import opened Lod
  import opened LodBuild
  import Grid

  // ------------------------------------------------------------ one level, even size

  /** The child that writes a cell of the parent. */
  function ChildId(px: nat, py: nat, qx: nat, qy: nat): nat {
    Interleave(2 * px + qx, 2 * py + qy)
  }

  lemma SameCode(a: nat, b: nat, x: nat, y: nat)
    ensures Interleave(a, b) == Interleave(x, y) <==> a == x && b == y
  {
    hide Interleave, EvenBits, OddBits;
    DecodeEncode(a, b);
    DecodeEncode(x, y);
  }

  lemma Halving(e: nat, p: nat, q: nat)
    requires q < 2
    ensures e / 2 == p && e % 2 == q <==> e == 2 * p + q
  {
  }

  /** Within a parent of even size exactly one child writes each cell. */
  lemma OneWriter(id: nat, px: nat, py: nat, x: nat, y: nat, n: nat)
    requires n > 0 && n % 2 == 0 && x < n && y < n
    ensures x / Half(n) < 2 && y / Half(n) < 2
    ensures Parent(id) == Interleave(px, py)
         && Writes(BaseX(id, n), BaseY(id, n), Half(n), x, y)
       <==> id == ChildId(px, py, x / Half(n), y / Half(n))
    ensures id == ChildId(px, py, x / Half(n), y / Half(n)) ==>
       x - BaseX(id, n) == x % Half(n) && y - BaseY(id, n) == y % Half(n)
  {
    hide Interleave, EvenBits, OddBits;
    var h := Half(n);
    InHalf(x, h);
    InHalf(y, h);
    var ex, oy := EvenBits(id), OddBits(id);
    SameCode(ex / 2, oy / 2, px, py);
    EncodeDecode(id);
    SameCode(ex, oy, 2 * px + x / h, 2 * py + y / h);
    Halving(ex, px, x / h);
    Halving(oy, py, y / h);
    BaseOf(ex, h, x);
    BaseOf(oy, h, y);
  }

  lemma InHalf(x: nat, h: nat)
    requires h > 0 && x < 2 * h
    ensures x / h < 2 && x % h == x - (if x / h == 1 then h else 0)
    ensures x / h == 1 <==> x >= h
  {
    if x >= h {
      Grid.OneQuotient(x / h, x % h, 1, x - h, h);
    } else {
      Grid.OneQuotient(x / h, x % h, 0, x, h);
    }
  }

  lemma BaseOf(e: nat, h: nat, x: nat)
    requires h > 0 && x < 2 * h
    ensures e % 2 * h <= x < e % 2 * h + h <==> e % 2 == x / h
    ensures e % 2 == x / h ==> x - e % 2 * h == x % h
  {
    InHalf(x, h);
    if e % 2 == 0 {
      assert e % 2 * h == 0;
    } else {
      assert e % 2 == 1 && e % 2 * h == h;
    }
  }

  /** The cell of the parent is the average of four cells of that child's last record. */
  lemma {:induction false} CellIsLast(rs: seq<Record>, n: nat, channels: nat, px: nat, py: nat,
                                      x: nat, y: nat, c: nat)
    requires n > 0 && n % 2 == 0 && x < n && y < n && AllSized(rs, n, channels)
    ensures var k := Last(rs, ChildId(px, py, x / Half(n), y / Half(n)));
      && (k.Some? ==> k.value.Valid())
      && Cell(rs, n, channels, Interleave(px, py), x, y, c)
         == if k.Some? then Average(k.value, x % Half(n), y % Half(n), c) else 0.0
  {
    hide Interleave, Average, Parent, BaseX, BaseY, ChildId;
    LastSized(rs, n, channels, ChildId(px, py, x / Half(n), y / Half(n)));
    if rs != [] {
      OneWriter(rs[|rs| - 1].id, px, py, x, y, n);
      CellIsLast(rs[..|rs| - 1], n, channels, px, py, x, y, c);
    }
  }

  lemma ReadIsCell(rs: seq<Record>, below: seq<Record>, n: nat, channels: nat, x: nat, y: nat, c: nat)
    requires n > 0 && AllSized(below, n, channels) && AllSized(rs, n, channels) && c < channels
    requires LevelOf(rs, below, n, channels)
    ensures ReadAt(rs, n, channels, x, y, c)
         == Cell(below, n, channels, Interleave(ChunkOf(x, n), ChunkOf(y, n)),
                 Within(x, n), Within(y, n), c)
  {
    hide Interleave, Cell, Get, HasChild, ChunkOf, Within;
    var id := Interleave(ChunkOf(x, n), ChunkOf(y, n));
    var k := Last(rs, id);
    assert k.Some? <==> HasChild(below, id);
    if k.Some? {
      assert Holds(k.value, below, n, channels, id);
    } else {
      NoChildNoCell(below, n, channels, id, Within(x, n), Within(y, n), c);
    }
  }

  /** A cell's place: its chunk, the half of the chunk, and the place in the half. */
  predicate Placed(x: nat, n: nat, h: nat, p: nat, q: nat, u: nat) {
    h > 0 && n == 2 * h && u < h && q < 2 && x == p * n + (q * h + u)
  }

  lemma Divided(x: nat, n: nat) returns (p: nat, r: nat)
    requires n > 0
    ensures x == p * n + r && r < n
  {
    p, r := x / n, x % n;
  }

  lemma PlaceOf(x: nat, n: nat, h: nat) returns (p: nat, q: nat, u: nat)
    requires h > 0 && n == 2 * h
    ensures Placed(x, n, h, p, q, u)
  {
    var r;
    p, r := Divided(x, n);
    q, u := if r >= h then 1 else 0, if r >= h then r - h else r;
  }

  lemma PlaceIn(x: nat, n: nat, h: nat, p: nat, q: nat, u: nat)
    requires Placed(x, n, h, p, q, u)
    ensures n > 0 && ChunkOf(x, n) == p && Within(x, n) == q * h + u < n
    ensures (q * h + u) / h == q && (q * h + u) % h == u
  {
    assert q * h + u < n by { assert q == 0 || q == 1; }
    Grid.OneQuotient(x / n, x % n, p, q * h + u, n);
    Grid.OneQuotient((q * h + u) / h, (q * h + u) % h, q, u, h);
  }

  /** Where the four finer cells under a cell lie. */
  lemma FinerCell(x: nat, n: nat, h: nat, p: nat, q: nat, u: nat, a: nat)
    requires Placed(x, n, h, p, q, u) && a < 2
    ensures n > 0 && ChunkOf(2 * x + a, n) == 2 * p + q && Within(2 * x + a, n) == 2 * u + a
  {
    assert 2 * x + a == (2 * p + q) * n + (2 * u + a) by {
      assert (2 * p + q) * n == 2 * (p * n) + q * n;
      assert q * n == 2 * (q * h);
    }
    Grid.OneQuotient((2 * x + a) / n, (2 * x + a) % n, 2 * p + q, 2 * u + a, n);
  }

  lemma ReadsIn(rs: seq<Record>, n: nat, channels: nat, x: nat, y: nat, c: nat,
                px: nat, py: nat, rx: nat, ry: nat)
    requires n > 0 && AllSized(rs, n, channels)
    requires ChunkOf(x, n) == px && Within(x, n) == rx && ChunkOf(y, n) == py && Within(y, n) == ry
    ensures var k := Last(rs, Interleave(px, py));
      && (k.Some? ==> k.value.Valid())
      && ReadAt(rs, n, channels, x, y, c) == if k.Some? then Get(k.value, rx, ry, c) else 0.0
  {
    hide Interleave, Get, ChunkOf, Within;
    LastSized(rs, n, channels, Interleave(px, py));
  }

  function FourMean(rs: seq<Record>, n: nat, channels: nat, x: nat, y: nat, c: nat): real
    requires n > 0 && AllSized(rs, n, channels)
  {
    (ReadAt(rs, n, channels, 2 * x, 2 * y, c) + ReadAt(rs, n, channels, 2 * x + 1, 2 * y, c)
     + ReadAt(rs, n, channels, 2 * x, 2 * y + 1, c)
     + ReadAt(rs, n, channels, 2 * x + 1, 2 * y + 1, c)) * 0.25
  }

  /** The four finer cells are read from one chunk. */
  lemma FinerReads(rs: seq<Record>, n: nat, h: nat, channels: nat, x: nat, y: nat, c: nat,
                   px: nat, qx: nat, u: nat, py: nat, qy: nat, v: nat)
    requires n > 0 && Placed(x, n, h, px, qx, u) && Placed(y, n, h, py, qy, v)
    requires AllSized(rs, n, channels)
    ensures var k := Last(rs, ChildId(px, py, qx, qy));
      && (k.Some? ==> k.value.Valid())
      && FourMean(rs, n, channels, x, y, c) == if k.Some? then Average(k.value, u, v, c) else 0.0
  {
    hide Interleave, Get, ReadAt, Last, AllSized, ChunkOf, Within;
    var cx, cy := 2 * px + qx, 2 * py + qy;
    FinerCell(x, n, h, px, qx, u, 0);
    FinerCell(x, n, h, px, qx, u, 1);
    FinerCell(y, n, h, py, qy, v, 0);
    FinerCell(y, n, h, py, qy, v, 1);
    ReadsIn(rs, n, channels, 2 * x, 2 * y, c, cx, cy, 2 * u, 2 * v);
    ReadsIn(rs, n, channels, 2 * x + 1, 2 * y, c, cx, cy, 2 * u + 1, 2 * v);
    ReadsIn(rs, n, channels, 2 * x, 2 * y + 1, c, cx, cy, 2 * u, 2 * v + 1);
    ReadsIn(rs, n, channels, 2 * x + 1, 2 * y + 1, c, cx, cy, 2 * u + 1, 2 * v + 1);
  }

  lemma CellRead(rs: seq<Record>, n: nat, h: nat, channels: nat, c: nat,
                 px: nat, qx: nat, u: nat, py: nat, qy: nat, v: nat, x: nat, y: nat)
    requires n > 0 && Placed(x, n, h, px, qx, u) && Placed(y, n, h, py, qy, v)
    requires AllSized(rs, n, channels)
    ensures var k := Last(rs, ChildId(px, py, qx, qy));
      && (k.Some? ==> k.value.Valid())
      && Cell(rs, n, channels, Interleave(ChunkOf(x, n), ChunkOf(y, n)), Within(x, n), Within(y, n), c)
         == if k.Some? then Average(k.value, u, v, c) else 0.0
  {
    hide Interleave, Get, Last, Average, Cell, ChildId, AllSized, ChunkOf, Within;
    PlaceIn(x, n, h, px, qx, u);
    PlaceIn(y, n, h, py, qy, v);
    HalfOfEven(n, h);
    CellIsLast(rs, n, channels, px, py, qx * h + u, qy * h + v, c);
  }

  lemma HalfOfEven(n: nat, h: nat)
    requires h > 0 && n == 2 * h
    ensures Half(n) == h && n % 2 == 0
  {
  }

  /** For an even chunk size, a level is the mean of fours of the level below. */
  lemma LevelIsMean(rs: seq<Record>, below: seq<Record>, n: nat, channels: nat, x: nat, y: nat, c: nat)
    requires n > 0 && n % 2 == 0 && c < channels
    requires AllSized(below, n, channels) && AllSized(rs, n, channels)
    requires LevelOf(rs, below, n, channels)
    ensures ReadAt(rs, n, channels, x, y, c) == FourMean(below, n, channels, x, y, c)
  {
    hide Interleave, Get, ReadAt, Cell, ChildId, Last, AllSized, Average, LevelOf, FourMean, Placed,
         ChunkOf, Within;
    var h := n / 2;
    ReadIsCell(rs, below, n, channels, x, y, c);
    var px, qx, u := PlaceOf(x, n, h);
    var py, qy, v := PlaceOf(y, n, h);
    FinerReads(below, n, h, channels, x, y, c, px, qx, u, py, qy, v);
    CellRead(below, n, h, channels, c, px, qx, u, py, qy, v, x, y);
  }
}
