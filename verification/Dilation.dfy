/**
 * Growing a mask: each pass sets the eight neighbours of every set cell, and after `n` passes the
 * set cells are exactly those within `n` columns and `n` lines of a cell set at the start.
 */
module Dilation {
  import opened Grid

  predicate On(m: Mask, x: int, y: int) {
    InBounds(x, y, m.columns, m.rows)
    && 0 <= CellAt(x, y, m.columns) < |m.cells| && m.cells[CellAt(x, y, m.columns)]
  }

  predicate Within(x: int, y: int, u: int, v: int, n: nat) {
    x - n <= u <= x + n && y - n <= v <= y + n
  }

  /** Some set cell is at most `n` columns and `n` lines away. */
  ghost predicate Near(m: Mask, x: int, y: int, n: nat) {
    exists u: int, v: int :: On(m, u, v) && Within(x, y, u, v, n)
  }

  /** The mask `now` is `was` grown by `n`. */
  ghost predicate Grown(was: Mask, now: Mask, n: nat) {
    && now.columns == was.columns && now.rows == was.rows && |now.cells| == |was.cells|
    && forall x: int, y: int :: InBounds(x, y, was.columns, was.rows) ==> (On(now, x, y) <==> Near(was, x, y, n))
  }

  /** One step towards a number, if not there yet. */
  function Toward(x: int, u: int): int { if u < x then x - 1 else if u > x then x + 1 else x }

  /** A cell near at `n + 1` has a neighbour that is near at `n`. */
  lemma NearStep(m: Mask, x: int, y: int, n: nat)
    requires InBounds(x, y, m.columns, m.rows)
    ensures Near(m, x, y, n + 1)
       <==> exists u: int, v: int :: InBounds(u, v, m.columns, m.rows) && Within(x, y, u, v, 1) && Near(m, u, v, n)
  {
    if Near(m, x, y, n + 1) {
      var u: int, v: int :| On(m, u, v) && Within(x, y, u, v, n + 1);
      var a, b := Toward(x, u), Toward(y, v);
      assert Within(a, b, u, v, n);
      assert InBounds(a, b, m.columns, m.rows) && Within(x, y, a, b, 1) && Near(m, a, b, n);
    }
    if a: int, b: int :| InBounds(a, b, m.columns, m.rows) && Within(x, y, a, b, 1) && Near(m, a, b, n) {
      var u: int, v: int :| On(m, u, v) && Within(a, b, u, v, n);
      assert Within(x, y, u, v, n + 1);
    }
  }

  /** Growing by `n` and then by one is growing by `n + 1`. */
  lemma GrownOn(was: Mask, mid: Mask, now: Mask, n: nat)
    requires Grown(was, mid, n) && Grown(mid, now, 1)
    ensures Grown(was, now, n + 1)
  {
    forall x: int, y: int | InBounds(x, y, was.columns, was.rows)
      ensures On(now, x, y) <==> Near(was, x, y, n + 1)
    {
      NearStep(was, x, y, n);
      assert On(now, x, y) <==> Near(mid, x, y, 1);
      if Near(mid, x, y, 1) {
        var u: int, v: int :| On(mid, u, v) && Within(x, y, u, v, 1);
        assert Near(was, u, v, n);
      }
      if u: int, v: int :| InBounds(u, v, was.columns, was.rows) && Within(x, y, u, v, 1) && Near(was, u, v, n) {
        assert On(mid, u, v);
      }
    }
  }

  lemma GrownNone(m: Mask)
    ensures Grown(m, m, 0)
  {
    forall x: int, y: int | InBounds(x, y, m.columns, m.rows) ensures On(m, x, y) <==> Near(m, x, y, 0) {
      if On(m, x, y) { assert Within(x, y, x, y, 0); }
    }
  }

  /** The two inner loops: is a cell or one of its eight neighbours set? */
  method Spread(field: array<bool>, column: int, row: int, columns: int, rows: int) returns (spread: bool)
    requires columns > 0 && field.Length == columns * rows && InBounds(column, row, columns, rows)
    ensures spread <==> Near(Mask(field[..], columns, rows), column, row, 1)
  {
    ghost var m := Mask(field[..], columns, rows);
    spread := false;
    var dy := -1;
    while dy <= 1 && !spread
      invariant -1 <= dy <= 2
      invariant spread ==> Near(m, column, row, 1)
      invariant !spread ==> forall u: int, v: int :: Within(column, row, u, v, 1) && v < row + dy ==> !On(m, u, v)
    {
      var dx := -1;
      while dx <= 1 && !spread
        invariant -1 <= dx <= 2
        invariant spread ==> Near(m, column, row, 1)
        invariant !spread ==> forall u: int, v: int ::
          Within(column, row, u, v, 1) && (v < row + dy || (v == row + dy && u < column + dx)) ==> !On(m, u, v)
      {
        var x, y := column + dx, row + dy;
        if InBounds(x, y, columns, rows) {
          CoordinatesOf(x, y, columns, rows);
          spread := field[CellAt(x, y, columns)];
          assert Within(column, row, x, y, 1) && (spread <==> On(m, x, y));
        }
        dx := dx + 1;
      }
      dy := dy + 1;
    }
  }

  /** `dilate`. */
  method Dilate(field: array<bool>, columns: int, rows: int) returns (out: array<bool>)
    requires columns > 0 && rows >= 0 && field.Length == columns * rows
    ensures fresh(out) && out.Length == field.Length
    ensures Grown(Mask(field[..], columns, rows), Mask(out[..], columns, rows), 1)
  {
    ghost var m := Mask(field[..], columns, rows);
    out := new bool[field.Length];
    for row := 0 to rows
      invariant fresh(out) && field[..] == m.cells
      invariant forall x: int, y: int :: InBounds(x, y, columns, row) ==> (On(Mask(out[..], columns, rows), x, y) <==> Near(m, x, y, 1))
    {
      for column := 0 to columns
        invariant fresh(out) && field[..] == m.cells
        invariant forall x: int, y: int :: InBounds(x, y, columns, rows) && (y < row || (y == row && x < column)) ==>
          (On(Mask(out[..], columns, rows), x, y) <==> Near(m, x, y, 1))
      {
        CoordinatesOf(column, row, columns, rows);
        var spread := Spread(field, column, row, columns, rows);
        ghost var was := out[..];
        out[CellAt(column, row, columns)] := spread;
        OneWritten(was, out[..], column, row, spread, columns, rows);
      }
    }
  }

  /** Writing one cell of a mask leaves the others. */
  lemma OneWritten(was: seq<bool>, now: seq<bool>, column: int, row: int, value: bool, columns: int, rows: int)
    requires columns > 0 && InBounds(column, row, columns, rows) && |was| == columns * rows
    requires 0 <= CellAt(column, row, columns) < |was| && now == was[CellAt(column, row, columns) := value]
    ensures forall x: int, y: int :: InBounds(x, y, columns, rows) ==>
      (On(Mask(now, columns, rows), x, y)
       <==> if x == column && y == row then value else On(Mask(was, columns, rows), x, y))
  {
    forall x: int, y: int | InBounds(x, y, columns, rows) && CellAt(x, y, columns) == CellAt(column, row, columns)
      ensures x == column && y == row
    {
      OneQuotient(y, x, row, column, columns);
    }
  }

  /** The passes, one after another. */
  method Grow(inside: array<bool>, columns: int, rows: int, growth: nat) returns (grown: array<bool>)
    requires columns > 0 && rows >= 0 && inside.Length == columns * rows && growth > 0
    ensures fresh(grown) && grown.Length == inside.Length
    ensures Grown(Mask(inside[..], columns, rows), Mask(grown[..], columns, rows), growth)
  {
    hide Grown;
    ghost var was := Mask(inside[..], columns, rows);
    GrownNone(was);
    grown := inside;
    for pass := 0 to growth
      invariant grown.Length == inside.Length && inside[..] == was.cells && (pass > 0 ==> fresh(grown))
      invariant Grown(was, Mask(grown[..], columns, rows), pass)
    {
      ghost var mid := Mask(grown[..], columns, rows);
      grown := Dilate(grown, columns, rows);
      GrownOn(was, mid, Mask(grown[..], columns, rows), pass);
    }
  }
}
