/**
 * A mask of `columns` by `rows` cells stored line by line, its 4-neighbourhood, and paths of
 * neighbouring cells.
 */
module Grid {

  predicate Distinct<T(==)>(xs: seq<T>) {
    forall i, j :: 0 <= i < j < |xs| ==> xs[i] != xs[j]
  }

  function Members<T>(xs: seq<T>): set<T> { set x | x in xs }

  lemma SomeMember(s: set<int>)
    requires s != {}
    ensures exists k :: k in s
  {
    if forall k :: k !in s {
      assert false;
    }
  }

  lemma Multiple(p: int, q: int, w: int)
    requires w >= 1 && p > q
    ensures p * w >= q * w + w
  {
    var d := p - q - 1;
    assert p * w == (q + 1 + d) * w == q * w + w + d * w;
  }

  /** Division is unique: only one multiple of `w` lies less than `w` below a number. */
  lemma OneQuotient(p: int, x: int, q: int, r: int, w: int)
    requires w >= 1 && 0 <= x < w && 0 <= r < w && p * w + x == q * w + r
    ensures p == q && x == r
  {
    if p > q {
      Multiple(p, q, w);
    } else if p < q {
      Multiple(q, p, w);
    }
  }

  /** A place in lines of one width: which line, and where in it. */
  lemma Line(i: nat, lines: nat, width: nat)
    requires i < lines * width
    ensures width > 0 && i / width < lines && i / width * width + i % width == i
  {
    assert width > 0;
    if i / width >= lines {
      Multiple(i / width + 1, lines, width);
    }
  }

  predicate InMask(at: int, columns: int, rows: int) { 0 <= at < columns * rows }

  function ColumnOf(at: int, columns: int): int
    requires columns > 0
  {
    at % columns
  }

  function LineOf(at: int, columns: int): int
    requires columns > 0
  {
    at / columns
  }

  function CellAt(x: int, y: int, columns: int): int { y * columns + x }

  predicate InBounds(x: int, y: int, columns: int, rows: int) {
    0 <= x < columns && 0 <= y < rows
  }

  lemma CellCoordinates(at: int, columns: int, rows: int)
    requires columns > 0 && InMask(at, columns, rows)
    ensures InBounds(ColumnOf(at, columns), LineOf(at, columns), columns, rows)
    ensures CellAt(ColumnOf(at, columns), LineOf(at, columns), columns) == at
  {
    if at / columns >= rows {
      assert false;
    }
  }

  lemma CoordinatesOf(x: int, y: int, columns: int, rows: int)
    requires InBounds(x, y, columns, rows)
    ensures InMask(CellAt(x, y, columns), columns, rows)
    ensures ColumnOf(CellAt(x, y, columns), columns) == x
    ensures LineOf(CellAt(x, y, columns), columns) == y
  {
    var at := CellAt(x, y, columns);
    assert at / columns * columns + at % columns == at;
    OneQuotient(y, x, at / columns, at % columns, columns);
    Multiple(rows, y, columns);
    assert y * columns >= 0;
  }

  // ------------------------------------------------------------------- neighbours

  /** The cells share a side. */
  predicate Beside(a: int, b: int, columns: int)
    requires columns > 0
  {
    var dx := ColumnOf(a, columns) - ColumnOf(b, columns);
    var dy := LineOf(a, columns) - LineOf(b, columns);
    (dx == 0 && (dy == 1 || dy == -1)) || (dy == 0 && (dx == 1 || dx == -1))
  }

  /** The four neighbours of a cell, one for each direction that stays in the mask. */
  lemma FourNeighbours(a: int, b: int, columns: int, rows: int)
    requires columns > 0 && InMask(a, columns, rows)
    ensures var x, y := ColumnOf(a, columns), LineOf(a, columns);
            ((InMask(b, columns, rows) && Beside(a, b, columns)) <==>
             (|| (InBounds(x + 1, y, columns, rows) && b == CellAt(x + 1, y, columns))
              || (InBounds(x - 1, y, columns, rows) && b == CellAt(x - 1, y, columns))
              || (InBounds(x, y + 1, columns, rows) && b == CellAt(x, y + 1, columns))
              || (InBounds(x, y - 1, columns, rows) && b == CellAt(x, y - 1, columns))))
  {
    hide ColumnOf, LineOf, InMask, CellAt;
    var x, y := ColumnOf(a, columns), LineOf(a, columns);
    CellCoordinates(a, columns, rows);
    if InMask(b, columns, rows) {
      CellCoordinates(b, columns, rows);
    }
    if InBounds(x + 1, y, columns, rows) { CoordinatesOf(x + 1, y, columns, rows); }
    if InBounds(x - 1, y, columns, rows) { CoordinatesOf(x - 1, y, columns, rows); }
    if InBounds(x, y + 1, columns, rows) { CoordinatesOf(x, y + 1, columns, rows); }
    if InBounds(x, y - 1, columns, rows) { CoordinatesOf(x, y - 1, columns, rows); }
  }

  /** The same four, as offsets in the stored mask. */
  lemma Offsets(a: int, columns: int)
    requires columns > 0
    ensures var x, y := ColumnOf(a, columns), LineOf(a, columns);
            && CellAt(x + 1, y, columns) == a + 1 && CellAt(x - 1, y, columns) == a - 1
            && CellAt(x, y + 1, columns) == a + columns
            && CellAt(x, y - 1, columns) == a - columns
  {
    assert CellAt(ColumnOf(a, columns), LineOf(a, columns), columns) == a;
  }

  // ------------------------------------------------------------------------- paths

  /** A mask: its cells and the width of its lines. */
  datatype Mask = Mask(cells: seq<bool>, columns: int, rows: int) {
    predicate Valid() { columns > 0 && |cells| == columns * rows }

    /** The cell is in the mask and holds the given value. */
    predicate Is(at: int, value: bool) { 0 <= at < |cells| && cells[at] == value }
  }

  /** Cells of one value, each beside the next. */
  predicate Path(m: Mask, value: bool, path: seq<int>)
    requires m.Valid()
  {
    && path != []
    && (forall i :: 0 <= i < |path| ==> m.Is(path[i], value))
    && (forall i :: 0 < i < |path| ==> Beside(path[i - 1], path[i], m.columns))
  }

  ghost predicate Joins(m: Mask, value: bool, path: seq<int>, a: int, b: int)
    requires m.Valid()
  {
    Path(m, value, path) && path[0] == a && path[|path| - 1] == b
  }

  /** A path over cells of the given value joins the two cells. */
  ghost predicate Connected(m: Mask, value: bool, a: int, b: int)
    requires m.Valid()
  {
    exists path :: Joins(m, value, path, a, b)
  }

  /** The cells of the given value beside a cell of the set are in the set too. */
  ghost predicate Closed(m: Mask, value: bool, s: set<int>)
    requires m.Valid()
  {
    forall a, b :: a in s && m.Is(b, value) && Beside(a, b, m.columns) ==> b in s
  }

  lemma ConnectedSelf(m: Mask, value: bool, a: int)
    requires m.Valid() && m.Is(a, value)
    ensures Connected(m, value, a, a)
  {
    assert Joins(m, value, [a], a, a);
  }

  lemma ConnectedOn(m: Mask, value: bool, a: int, b: int, c: int)
    requires m.Valid() && Connected(m, value, a, b) && m.Is(c, value) && Beside(b, c, m.columns)
    ensures Connected(m, value, a, c)
  {
    hide Beside;
    var path :| Joins(m, value, path, a, b);
    assert Joins(m, value, path + [c], a, c);
  }

  lemma Reverse(m: Mask, value: bool, path: seq<int>, a: int, b: int)
    requires m.Valid() && Joins(m, value, path, a, b)
    ensures Connected(m, value, b, a)
  {
    hide Beside;
    var n := |path|;
    var back := seq(n, i requires 0 <= i < n => path[n - 1 - i]);
    forall i | 0 < i < n ensures Beside(back[i - 1], back[i], m.columns) {
      assert Beside(path[n - 1 - i], path[n - i], m.columns);
      BesideSymmetric(path[n - 1 - i], path[n - i], m.columns);
    }
    assert Joins(m, value, back, b, a);
  }

  lemma BesideSymmetric(a: int, b: int, columns: int)
    requires columns > 0
    ensures Beside(a, b, columns) <==> Beside(b, a, columns)
  {
  }

  lemma ConnectedThrough(m: Mask, value: bool, a: int, b: int, c: int)
    requires m.Valid() && Connected(m, value, a, b) && Connected(m, value, b, c)
    ensures Connected(m, value, a, c)
  {
    hide Beside;
    var p :| Joins(m, value, p, a, b);
    var q :| Joins(m, value, q, b, c);
    assert Joins(m, value, p + q[1..], a, c);
  }

  lemma ConnectedBack(m: Mask, value: bool, a: int, b: int)
    requires m.Valid() && Connected(m, value, a, b)
    ensures Connected(m, value, b, a)
  {
    hide Joins;
    var path :| Joins(m, value, path, a, b);
    Reverse(m, value, path, a, b);
  }

  /** A path that starts in a closed set stays in it. */
  lemma {:induction false} StaysIn(m: Mask, value: bool, s: set<int>, path: seq<int>, n: nat)
    requires m.Valid() && Closed(m, value, s) && Path(m, value, path) && path[0] in s
    requires n < |path|
    ensures path[n] in s
  {
    hide Beside;
    if n > 0 {
      StaysIn(m, value, s, path, n - 1);
    }
  }

  lemma ConnectedStaysIn(m: Mask, value: bool, s: set<int>, a: int, b: int)
    requires m.Valid() && Closed(m, value, s) && a in s && Connected(m, value, a, b)
    ensures b in s
  {
    hide Closed;
    var path :| Joins(m, value, path, a, b);
    StaysIn(m, value, s, path, |path| - 1);
  }
}
