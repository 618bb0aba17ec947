/**
 * The two floods over a building mask: `fillHoles` marks what an empty path reaches from the
 * border and fills the rest, and the component flood gathers the connected built cells.
 */
module Flood {
  import opened Grid

  const MIN_COMPONENT_CELLS := 9

  // ------------------------------------------------------------------------- holes

  predicate OnBorder(at: int, columns: int, rows: int)
    requires columns > 0
  {
    var x, y := ColumnOf(at, columns), LineOf(at, columns);
    x == 0 || x == columns - 1 || y == 0 || y == rows - 1
  }

  /** A place off the mask is next to the cell, by a side or by a corner. */
  ghost predicate FacesOut(x: int, y: int, columns: int, rows: int) {
    exists x', y' :: !InBounds(x', y', columns, rows) && -1 <= x' - x <= 1 && -1 <= y' - y <= 1
  }

  lemma BorderFacesOut(at: int, columns: int, rows: int)
    requires columns > 0 && InMask(at, columns, rows)
    ensures OnBorder(at, columns, rows) <==> FacesOut(at % columns, at / columns, columns, rows)
  {
    CellCoordinates(at, columns, rows);
    var x, y := at % columns, at / columns;
    assert InBounds(x, y, columns, rows);
    if OnBorder(at, columns, rows) {
      var x' := if x == 0 then -1 else if x == columns - 1 then columns else x;
      var y' := if y == 0 then -1 else if y == rows - 1 then rows else y;
      assert !InBounds(x', y', columns, rows);
    }
  }

  /** An empty path of neighbouring cells leads from the border to the cell. */
  ghost predicate Outside(m: Mask, at: int)
    requires m.Valid()
  {
    exists b :: m.Is(b, false) && OnBorder(b, m.columns, m.rows) && Connected(m, false, b, at)
  }

  /** The cells the flood has marked so far. */
  function Marked(outside: seq<bool>): set<int> { set i | 0 <= i < |outside| && outside[i] }

  function Unmarked(outside: seq<bool>): set<int> {
    set i | 0 <= i < |outside| && !outside[i]
  }

  lemma MarkOne(outside: seq<bool>, at: int)
    requires 0 <= at < |outside| && !outside[at]
    ensures Marked(outside[at := true]) == Marked(outside) + {at}
    ensures |Unmarked(outside[at := true])| < |Unmarked(outside)|
  {
    assert Unmarked(outside[at := true]) == Unmarked(outside) - {at};
  }

  /** Every empty cell the flood has to go to next is marked or waiting. */
  ghost predicate Covered(m: Mask, s: set<int>, stack: seq<int>)
    requires m.Valid()
  {
    && (forall b :: m.Is(b, false) && OnBorder(b, m.columns, m.rows) ==> b in s || b in stack)
    && (forall a, b :: a in s && m.Is(b, false) && Beside(a, b, m.columns) ==> b in s || b in stack)
  }

  /** What waits on the stack is outside, if it is an empty cell at all. */
  ghost predicate Sound(m: Mask, s: set<int>, stack: seq<int>)
    requires m.Valid()
  {
    && (forall a :: a in s ==> m.Is(a, false) && Outside(m, a))
    && (forall a :: a in stack && m.Is(a, false) ==> Outside(m, a))
  }

  lemma BorderOutside(m: Mask, b: int)
    requires m.Valid() && m.Is(b, false) && OnBorder(b, m.columns, m.rows)
    ensures Outside(m, b)
  {
    hide OnBorder, Connected;
    ConnectedSelf(m, false, b);
  }

  lemma OutsideOn(m: Mask, a: int, b: int)
    requires m.Valid() && Outside(m, a) && m.Is(b, false) && Beside(a, b, m.columns)
    ensures Outside(m, b)
  {
    hide OnBorder, Beside, Connected;
    var c :| m.Is(c, false) && OnBorder(c, m.columns, m.rows) && Connected(m, false, c, a);
    ConnectedOn(m, false, c, a, b);
  }

  lemma AllReached(m: Mask, s: set<int>, at: int)
    requires m.Valid() && Covered(m, s, []) && Outside(m, at)
    ensures at in s
  {
    hide OnBorder, Beside, Connected, Mask.Is;
    var b :| m.Is(b, false) && OnBorder(b, m.columns, m.rows) && Connected(m, false, b, at);
    assert Closed(m, false, s);
    ConnectedStaysIn(m, false, s, b, at);
  }

  lemma BorderCell(x: int, y: int, columns: int, rows: int)
    requires InBounds(x, y, columns, rows)
    ensures OnBorder(CellAt(x, y, columns), columns, rows)
       <==> x == 0 || x == columns - 1 || y == 0 || y == rows - 1
  {
    CoordinatesOf(x, y, columns, rows);
  }

  lemma NoCells(at: int, columns: int, rows: int)
    requires rows <= 0 && columns >= 0
    ensures !InMask(at, columns, rows)
  {
    if columns * rows > 0 {
      assert false;
    }
  }

  /** The cells of the first and last lines and columns, in the order they are pushed. */
  method BorderStack(columns: int, rows: int) returns (stack: seq<int>)
    requires columns > 0 && rows >= 0
    ensures forall b :: InMask(b, columns, rows) ==>
              (b in stack <==> OnBorder(b, columns, rows))
  {
    hide OnBorder, InMask, CellAt;
    var lastColumn, lastLine := columns - 1, rows - 1;
    stack := [];
    var column := 0;
    while column < columns
      invariant 0 <= column <= columns
      invariant forall b :: b in stack && InMask(b, columns, rows) ==> OnBorder(b, columns, rows)
      invariant forall x :: 0 <= x < column ==>
                  CellAt(x, 0, columns) in stack && CellAt(x, lastLine, columns) in stack
    {
      LineEnds(column, columns, rows);
      stack := stack + [CellAt(column, 0, columns), CellAt(column, lastLine, columns)];
      column := column + 1;
    }
    var row := 0;
    while row < rows
      invariant 0 <= row <= rows
      invariant forall b :: b in stack && InMask(b, columns, rows) ==> OnBorder(b, columns, rows)
      invariant forall x :: 0 <= x < columns ==>
                  CellAt(x, 0, columns) in stack && CellAt(x, lastLine, columns) in stack
      invariant forall y :: 0 <= y < row ==>
                  CellAt(0, y, columns) in stack && CellAt(lastColumn, y, columns) in stack
    {
      BorderCell(0, row, columns, rows);
      BorderCell(lastColumn, row, columns, rows);
      stack := stack + [CellAt(0, row, columns), CellAt(lastColumn, row, columns)];
      row := row + 1;
    }
    forall b | InMask(b, columns, rows) && OnBorder(b, columns, rows)
      ensures b in stack
    {
      CellCoordinates(b, columns, rows);
      BorderCell(ColumnOf(b, columns), LineOf(b, columns), columns, rows);
    }
  }

  lemma LineEnds(column: int, columns: int, rows: int)
    requires 0 <= column < columns && rows >= 0
    ensures InMask(CellAt(column, 0, columns), columns, rows)
        ==> OnBorder(CellAt(column, 0, columns), columns, rows)
    ensures InMask(CellAt(column, rows - 1, columns), columns, rows)
        ==> OnBorder(CellAt(column, rows - 1, columns), columns, rows)
  {
    hide OnBorder, InMask, CellAt;
    if rows == 0 {
      NoCells(CellAt(column, 0, columns), columns, rows);
      NoCells(CellAt(column, rows - 1, columns), columns, rows);
    } else {
      BorderCell(column, 0, columns, rows);
      BorderCell(column, rows - 1, columns, rows);
    }
  }

  // One step of the flood: the popped cell is skipped or marked and its neighbours pushed.

  lemma Skip(m: Mask, s: set<int>, stack: seq<int>, at: int)
    requires m.Valid() && (at in s || !m.Is(at, false))
    requires Covered(m, s, stack + [at]) && Sound(m, s, stack + [at])
    ensures Covered(m, s, stack) && Sound(m, s, stack)
  {
    hide OnBorder, Beside, Outside, Mask.Is;
  }

  lemma Spread(m: Mask, s: set<int>, stack: seq<int>, at: int, pushed: seq<int>)
    requires m.Valid() && m.Is(at, false)
    requires Covered(m, s, stack + [at]) && Sound(m, s, stack + [at])
    requires forall b :: b in pushed <==> 0 <= b < |m.cells| && Beside(at, b, m.columns)
    ensures Covered(m, s + {at}, stack + pushed) && Sound(m, s + {at}, stack + pushed)
  {
    hide OnBorder, Beside, Outside;
    assert Outside(m, at);
    forall b | b in pushed && m.Is(b, false) ensures Outside(m, b) {
      OutsideOn(m, at, b);
    }
  }

  /** The neighbours in the order they are pushed. */
  method Neighbours(at: int, columns: int, rows: int) returns (pushed: seq<int>)
    requires columns > 0 && InMask(at, columns, rows)
    ensures forall b :: b in pushed <==> InMask(b, columns, rows) && Beside(at, b, columns)
  {
    hide ColumnOf, LineOf, InMask, CellAt, Beside;
    var x, y := ColumnOf(at, columns), LineOf(at, columns);
    CellCoordinates(at, columns, rows);
    Offsets(at, columns);
    forall b
      ensures (InMask(b, columns, rows) && Beside(at, b, columns)) <==>
              (|| (b == at - 1 && x > 0) || (b == at + 1 && x < columns - 1)
               || (b == at - columns && y > 0) || (b == at + columns && y < rows - 1))
    {
      FourNeighbours(at, b, columns, rows);
    }
    pushed := [];
    if x > 0 { pushed := pushed + [at - 1]; }
    if x < columns - 1 { pushed := pushed + [at + 1]; }
    if y > 0 { pushed := pushed + [at - columns]; }
    if y < rows - 1 { pushed := pushed + [at + columns]; }
  }

  lemma StartCovered(m: Mask, stack: seq<int>)
    requires m.Valid()
    requires forall b :: InMask(b, m.columns, m.rows) ==>
               (b in stack <==> OnBorder(b, m.columns, m.rows))
    ensures Covered(m, {}, stack) && Sound(m, {}, stack)
  {
    hide OnBorder, Beside, Outside;
    forall b | b in stack && m.Is(b, false) ensures Outside(m, b) {
      BorderOutside(m, b);
    }
  }

  lemma AllFound(m: Mask, s: set<int>)
    requires m.Valid() && Covered(m, s, []) && Sound(m, s, [])
    ensures forall at :: at in s <==> m.Is(at, false) && Outside(m, at)
  {
    hide Covered, Outside, Mask.Is;
    forall at | Outside(m, at) ensures at in s {
      AllReached(m, s, at);
    }
  }

  /** A cell stays empty exactly when an empty path led from the border to it. */
  method FillHoles(field: array<bool>, columns: int, rows: int)
    requires columns > 0 && field.Length == columns * rows
    modifies field
    ensures var m := Mask(old(field[..]), columns, rows);
            forall at :: 0 <= at < field.Length ==>
              (field[at] <==> !(m.Is(at, false) && Outside(m, at)))
  {
    hide OnBorder, Beside, Outside, Covered, Sound, Marked, Unmarked;
    ghost var m := Mask(field[..], columns, rows);
    var outside := new bool[field.Length](_ => false);
    var stack := BorderStack(columns, rows);
    StartCovered(m, stack);
    NothingMarked(outside[..]);
    while stack != []
      invariant field[..] == m.cells
      invariant Covered(m, Marked(outside[..]), stack) && Sound(m, Marked(outside[..]), stack)
      decreases |Unmarked(outside[..])|, |stack|
    {
      var at := stack[|stack| - 1];
      ghost var s, marks := Marked(outside[..]), outside[..];
      assert stack == stack[..|stack| - 1] + [at];
      stack := stack[..|stack| - 1];
      if at < 0 || at >= field.Length || outside[at] || field[at] {
        InMarked(marks, at);
        Skip(m, s, stack, at);
      } else {
        outside[at] := true;
        MarkOne(marks, at);
        assert outside[..] == marks[at := true];
        var pushed := Neighbours(at, columns, rows);
        Spread(m, s, stack, at, pushed);
        stack := stack + pushed;
      }
    }
    FillUnmarked(field, outside, m);
  }

  lemma NothingMarked(outside: seq<bool>)
    requires forall i :: 0 <= i < |outside| ==> !outside[i]
    ensures Marked(outside) == {}
  {
  }

  lemma InMarked(outside: seq<bool>, at: int)
    ensures at in Marked(outside) <==> 0 <= at < |outside| && outside[at]
  {
  }

  /** The last loop: what is empty and was not reached is filled. */
  method FillUnmarked(field: array<bool>, outside: array<bool>, ghost m: Mask)
    requires field.Length == outside.Length && field != outside
    requires m.Valid() && m.cells == field[..]
    requires Covered(m, Marked(outside[..]), []) && Sound(m, Marked(outside[..]), [])
    modifies field
    ensures forall at :: 0 <= at < field.Length ==>
              (field[at] <==> !(m.Is(at, false) && Outside(m, at)))
  {
    hide Outside, Covered, Sound;
    AllFound(m, Marked(outside[..]));
    var at := 0;
    while at < field.Length
      invariant 0 <= at <= field.Length
      invariant forall i :: 0 <= i < at ==> (field[i] <==> !(m.Is(i, false) && Outside(m, i)))
      invariant forall i :: at <= i < field.Length ==> field[i] == m.cells[i]
    {
      assert outside[at] <==> at in Marked(outside[..]);
      if !field[at] && !outside[at] {
        field[at] := true;
      }
      at := at + 1;
    }
  }
}
