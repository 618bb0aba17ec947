/**
 * The component flood over the grown mask.  A cell's label only says that it was reached: an
 * id is used again when the component it was given to turns out too small to keep.
 */
module Components {
  import opened Grid
  import opened Flood

  /** A maximal set of connected built cells. */
  ghost predicate Maximal(m: Mask, s: set<int>)
    requires m.Valid()
  {
    && s != {}
    && (forall a :: a in s ==> m.Is(a, true))
    && (forall a, b :: a in s && b in s ==> Connected(m, true, a, b))
    && Closed(m, true, s)
  }

  /** Two maximal sets are the same or have no cell in common. */
  lemma MaximalOnce(m: Mask, s: set<int>, t: set<int>, a: int)
    requires m.Valid() && Maximal(m, s) && Maximal(m, t) && a in s && a in t
    ensures s == t
  {
    hide Closed, Connected;
    forall b | b in s ensures b in t { ConnectedStaysIn(m, true, t, a, b); }
    forall b | b in t ensures b in s { ConnectedStaysIn(m, true, s, a, b); }
  }

  /** The cells that carry a labels. */
  function Labelled(labels: seq<int>): set<int> { set i | 0 <= i < |labels| && labels[i] != -1 }

  function Unlabelled(labels: seq<int>): set<int> { set i | 0 <= i < |labels| && labels[i] == -1 }

  lemma LabelOne(labels: seq<int>, at: int, id: int)
    requires 0 <= at < |labels| && labels[at] == -1 && id != -1
    ensures Labelled(labels[at := id]) == Labelled(labels) + {at}
    ensures Unlabelled(labels[at := id]) == Unlabelled(labels) - {at}
  {
  }

  // -------------------------------------------------------------- one component

  /** The flood of one component: the cells taken from the stack and those waiting on it are
      new, built and joined to the start; what lies beside a taken cell has a labels. */
  ghost predicate Flooding(m: Mask, before: set<int>, labelled: set<int>, start: int,
                           cells: seq<int>, stack: seq<int>)
    requires m.Valid()
  {
    && Closed(m, true, before) && before !! Members(cells + stack)
    && labelled == before + Members(cells + stack)
    && Distinct(cells + stack)
    && start in cells + stack
    && (forall a :: a in cells + stack ==> m.Is(a, true) && Connected(m, true, start, a))
  }

  /** The built neighbours of the taken cells have labels. */
  ghost predicate Surrounded(m: Mask, labelled: set<int>, cells: seq<int>)
    requires m.Valid()
  {
    forall a, b :: a in cells && m.Is(b, true) && Beside(a, b, m.columns) ==> b in labelled
  }

  lemma TakeOne(m: Mask, before: set<int>, labelled: set<int>, start: int,
                cells: seq<int>, stack: seq<int>, at: int)
    requires m.Valid() && Flooding(m, before, labelled, start, cells, stack + [at])
    ensures Flooding(m, before, labelled, start, cells + [at], stack)
    ensures m.Is(at, true)
  {
    hide Closed, Connected;
    Rotated(cells, stack, at);
    assert at in cells + (stack + [at]);
  }

  lemma Rotated(cells: seq<int>, stack: seq<int>, at: int)
    requires Distinct(cells + (stack + [at]))
    ensures Distinct((cells + [at]) + stack)
    ensures Members((cells + [at]) + stack) == Members(cells + (stack + [at]))
    ensures forall a :: a in (cells + [at]) + stack <==> a in cells + (stack + [at])
  {
    var was, now := cells + (stack + [at]), (cells + [at]) + stack;
    forall i, j | 0 <= i < j < |now| ensures now[i] != now[j] {
      assert now[i] == was[if i < |cells| then i else if i == |cells| then |was| - 1 else i - 1];
      assert now[j] == was[if j < |cells| then j else if j == |cells| then |was| - 1 else j - 1];
    }
    forall a ensures a in now <==> a in was {
      assert a in now <==> a in cells || a == at || a in stack;
      assert a in was <==> a in cells || a in stack || a == at;
    }
  }

  lemma PushOne(m: Mask, before: set<int>, labelled: set<int>, start: int,
                cells: seq<int>, stack: seq<int>, at: int, next: int)
    requires m.Valid() && Flooding(m, before, labelled, start, cells, stack)
    requires at in cells && m.Is(next, true) && Beside(at, next, m.columns) && next !in labelled
    ensures Flooding(m, before, labelled + {next}, start, cells, stack + [next])
  {
    hide Closed, Connected, Beside;
    var was, now := cells + stack, cells + (stack + [next]);
    assert now == was + [next];
    assert at in was;
    assert next !in was by { assert next !in Members(was); }
    ConnectedOn(m, true, start, at, next);
    assert Members(now) == Members(was) + {next};
  }

  lemma NotBeside(m: Mask, s: set<int>, a: int, b: int)
    requires m.Valid() && Closed(m, true, s) && m.Is(a, true) && a !in s
    requires Beside(a, b, m.columns)
    ensures b !in s
  {
    BesideSymmetric(a, b, m.columns);
  }

  /** When the stack is empty, the taken cells are a maximal connected set. */
  lemma FloodIsMaximal(m: Mask, before: set<int>, labelled: set<int>, start: int, cells: seq<int>)
    requires m.Valid() && Flooding(m, before, labelled, start, cells, [])
    requires Surrounded(m, labelled, cells)
    ensures Maximal(m, Members(cells)) && Distinct(cells) && start in cells
    ensures before !! Members(cells) && labelled == before + Members(cells)
    ensures Closed(m, true, labelled)
  {
    hide Connected, Beside;
    assert cells + [] == cells;
    var s := Members(cells);
    assert start in s;
    forall a, b | a in s && b in s ensures Connected(m, true, a, b) {
      ConnectedBack(m, true, start, a);
      ConnectedThrough(m, true, a, start, b);
    }
    forall a, b | a in s && m.Is(b, true) && Beside(a, b, m.columns) ensures b in s {
      NotBeside(m, before, a, b);
    }
  }

  /** The cell at these coordinates, if built, has a label. */
  predicate Seen(m: Mask, labelled: set<int>, x: int, y: int)
    requires m.Valid()
  {
    InBounds(x, y, m.columns, m.rows) && m.Is(CellAt(x, y, m.columns), true)
    ==> CellAt(x, y, m.columns) in labelled
  }

  /** One direction of the flood: the neighbour, if it is in the mask, built and new, gets the
      label and goes on the stack. */
  method Offer(grown: array<bool>, labels: array<int>, id: nat, nx: int, ny: int, ghost at: int,
               ghost cells: seq<int>, stack: seq<int>, columns: int, rows: int,
               ghost before: set<int>, ghost start: int)
    returns (pushed: seq<int>)
    requires columns > 0 && grown.Length == columns * rows == labels.Length
    requires at in cells
    requires InBounds(nx, ny, columns, rows) ==> Beside(at, CellAt(nx, ny, columns), columns)
    requires Flooding(Mask(grown[..], columns, rows), before, Labelled(labels[..]), start, cells, stack)
    modifies labels
    ensures Flooding(Mask(grown[..], columns, rows), before, Labelled(labels[..]), start, cells, pushed)
    ensures Labelled(labels[..]) >= old(Labelled(labels[..]))
    ensures Seen(Mask(grown[..], columns, rows), Labelled(labels[..]), nx, ny)
    ensures Progress(old(labels[..]), labels[..], stack, pushed)
  {
    hide Flooding, Beside;
    pushed := stack;
    if nx < 0 || ny < 0 || nx >= columns || ny >= rows {
      return;
    }
    var next := ny * columns + nx;
    CoordinatesOf(nx, ny, columns, rows);
    if grown[next] && labels[next] == -1 {
      ghost var was := labels[..];
      PushOne(Mask(grown[..], columns, rows), before, Labelled(was), start, cells, stack, at, next);
      LabelOne(was, next, id);
      labels[next] := id;
      assert labels[..] == was[next := id];
      pushed := stack + [next];
    }
  }

  /** What bounds the flood: a cell is pushed only when it gets its first label. */
  ghost predicate Progress(was: seq<int>, now: seq<int>, stack: seq<int>, pushed: seq<int>) {
    (now == was && pushed == stack) || |Unlabelled(now)| < |Unlabelled(was)|
  }

  lemma AllFourSeen(m: Mask, labelled: set<int>, at: int)
    requires m.Valid() && m.Is(at, true)
    requires Seen(m, labelled, ColumnOf(at, m.columns) + 1, LineOf(at, m.columns))
    requires Seen(m, labelled, ColumnOf(at, m.columns) - 1, LineOf(at, m.columns))
    requires Seen(m, labelled, ColumnOf(at, m.columns), LineOf(at, m.columns) + 1)
    requires Seen(m, labelled, ColumnOf(at, m.columns), LineOf(at, m.columns) - 1)
    ensures Surrounded(m, labelled, [at])
  {
    hide CellAt, ColumnOf, LineOf, Beside;
    forall b | m.Is(b, true) && Beside(at, b, m.columns) ensures b in labelled {
      FourNeighbours(at, b, m.columns, m.rows);
    }
  }

  lemma InBoundsBeside(at: int, columns: int, rows: int)
    requires columns > 0 && InMask(at, columns, rows)
    ensures var x, y := ColumnOf(at, columns), LineOf(at, columns);
      && (InBounds(x + 1, y, columns, rows) ==> Beside(at, CellAt(x + 1, y, columns), columns))
      && (InBounds(x - 1, y, columns, rows) ==> Beside(at, CellAt(x - 1, y, columns), columns))
      && (InBounds(x, y + 1, columns, rows) ==> Beside(at, CellAt(x, y + 1, columns), columns))
      && (InBounds(x, y - 1, columns, rows) ==> Beside(at, CellAt(x, y - 1, columns), columns))
  {
    hide CellAt, ColumnOf, LineOf, Beside;
    var x, y := ColumnOf(at, columns), LineOf(at, columns);
    FourNeighbours(at, CellAt(x + 1, y, columns), columns, rows);
    FourNeighbours(at, CellAt(x - 1, y, columns), columns, rows);
    FourNeighbours(at, CellAt(x, y + 1, columns), columns, rows);
    FourNeighbours(at, CellAt(x, y - 1, columns), columns, rows);
  }

  /** The four directions, in the source's order. */
  method OfferAll(grown: array<bool>, labels: array<int>, id: nat, at: int,
                  ghost cells: seq<int>, stack: seq<int>, columns: int, rows: int,
                  ghost before: set<int>, ghost start: int)
    returns (pushed: seq<int>)
    requires columns > 0 && grown.Length == columns * rows == labels.Length
    requires at in cells && 0 <= at < grown.Length && grown[at]
    requires Flooding(Mask(grown[..], columns, rows), before, Labelled(labels[..]), start, cells, stack)
    modifies labels
    ensures Flooding(Mask(grown[..], columns, rows), before, Labelled(labels[..]), start, cells, pushed)
    ensures Labelled(labels[..]) >= old(Labelled(labels[..]))
    ensures Surrounded(Mask(grown[..], columns, rows), Labelled(labels[..]), [at])
    ensures Progress(old(labels[..]), labels[..], stack, pushed)
  {
    hide Flooding, Beside, Labelled, Unlabelled, ColumnOf, LineOf, CellAt, Surrounded;
    var x, y := ColumnOf(at, columns), LineOf(at, columns);
    InBoundsBeside(at, columns, rows);
    pushed := Offer(grown, labels, id, x + 1, y, at, cells, stack, columns, rows, before, start);
    pushed := Offer(grown, labels, id, x - 1, y, at, cells, pushed, columns, rows, before, start);
    pushed := Offer(grown, labels, id, x, y + 1, at, cells, pushed, columns, rows, before, start);
    pushed := Offer(grown, labels, id, x, y - 1, at, cells, pushed, columns, rows, before, start);
    AllFourSeen(Mask(grown[..], columns, rows), Labelled(labels[..]), at);
  }

  lemma SurroundedOn(m: Mask, less: set<int>, more: set<int>, cells: seq<int>, at: int)
    requires m.Valid() && less <= more
    requires Surrounded(m, less, cells) && Surrounded(m, more, [at])
    ensures Surrounded(m, more, cells + [at])
  {
    assert at in [at];
  }

  lemma StartFlood(m: Mask, before: set<int>, start: int)
    requires m.Valid() && Closed(m, true, before) && m.Is(start, true) && start !in before
    ensures Flooding(m, before, before + {start}, start, [], [start])
  {
    hide Closed, Connected;
    ConnectedSelf(m, true, start);
    assert [] + [start] == [start];
  }

  /** Floods one component from an unlabelled built cell. */
  method FloodFrom(grown: array<bool>, labels: array<int>, id: nat, start: int,
                   columns: int, rows: int)
    returns (cells: seq<int>)
    requires columns > 0 && grown.Length == columns * rows == labels.Length
    requires 0 <= start < grown.Length && grown[start] && labels[start] == -1
    requires Closed(Mask(grown[..], columns, rows), true, Labelled(labels[..]))
    modifies labels
    ensures Maximal(Mask(grown[..], columns, rows), Members(cells)) && Distinct(cells)
    ensures old(Labelled(labels[..])) !! Members(cells) && start in cells
    ensures Labelled(labels[..]) == old(Labelled(labels[..])) + Members(cells)
    ensures Closed(Mask(grown[..], columns, rows), true, Labelled(labels[..]))
  {
    hide Closed, Flooding, Surrounded, Maximal, Labelled, Unlabelled, Distinct;
    ghost var m, was := Mask(grown[..], columns, rows), labels[..];
    ghost var before := Labelled(was);
    LabelOne(was, start, id);
    assert start !in before by { InLabelled(was, start); }
    StartFlood(m, before, start);
    cells := [];
    var stack := [start];
    labels[start] := id;
    assert labels[..] == was[start := id];
    assert Surrounded(m, Labelled(labels[..]), []) by { NoneSurrounded(m, Labelled(labels[..])); }
    while stack != []
      invariant Flooding(m, before, Labelled(labels[..]), start, cells, stack)
      invariant Surrounded(m, Labelled(labels[..]), cells)
      decreases |Unlabelled(labels[..])|, |stack|
    {
      var current := stack[|stack| - 1];
      ghost var labelled := Labelled(labels[..]);
      assert stack == stack[..|stack| - 1] + [current];
      stack := stack[..|stack| - 1];
      TakeOne(m, before, labelled, start, cells, stack, current);
      stack := OfferAll(grown, labels, id, current, cells + [current], stack, columns, rows,
                        before, start);
      SurroundedOn(m, labelled, Labelled(labels[..]), cells, current);
      cells := cells + [current];
    }
    FloodIsMaximal(m, before, Labelled(labels[..]), start, cells);
  }

  lemma InLabelled(labels: seq<int>, at: int)
    ensures at in Labelled(labels) <==> 0 <= at < |labels| && labels[at] != -1
  {
  }

  lemma NoneSurrounded(m: Mask, labelled: set<int>)
    requires m.Valid()
    ensures Surrounded(m, labelled, [])
  {
  }

  // ------------------------------------------------------------- all the components

  lemma {:induction false} MemberCount(xs: seq<int>)
    requires Distinct(xs)
    ensures |Members(xs)| == |xs|
  {
    if xs != [] {
      var rest, last := xs[..|xs| - 1], xs[|xs| - 1];
      assert xs == rest + [last];
      MemberCount(rest);
      assert Members(xs) == Members(rest) + {last};
    }
  }

  /** A kept component: a maximal connected set of at least nine cells, each listed once. */
  ghost predicate Kept(m: Mask, c: seq<int>)
    requires m.Valid()
  {
    Maximal(m, Members(c)) && Distinct(c) && |c| >= MIN_COMPONENT_CELLS
  }

  ghost predicate Listed(components: seq<seq<int>>, s: set<int>) {
    exists i :: 0 <= i < |components| && Members(components[i]) == s
  }

  ghost predicate Apart(components: seq<seq<int>>) {
    forall i, j :: 0 <= i < j < |components| ==> Members(components[i]) !! Members(components[j])
  }

  /** The components gathered so far are those of the labelled cells. */
  ghost predicate Gathered(m: Mask, labelled: set<int>, components: seq<seq<int>>)
    requires m.Valid()
  {
    && (forall i :: 0 <= i < |components| ==>
          Kept(m, components[i]) && Members(components[i]) <= labelled)
    && Apart(components)
    && (forall s :: Maximal(m, s) && s <= labelled && |s| >= MIN_COMPONENT_CELLS
          ==> Listed(components, s))
  }

  /** A maximal set is the new one or lies among the cells labelled before. */
  lemma NewOrOld(m: Mask, labelled: set<int>, new_: set<int>, s: set<int>)
    requires m.Valid() && Maximal(m, s) && Maximal(m, new_) && s <= labelled + new_
    ensures s == new_ || s <= labelled
  {
    hide Maximal;
    if s * new_ == {} {
      forall a | a in s ensures a in labelled {
        assert a !in s * new_;
      }
    } else {
      SomeMember(s * new_);
      var a :| a in s * new_;
      MaximalOnce(m, s, new_, a);
    }
  }

  lemma GatherOne(m: Mask, labelled: set<int>, components: seq<seq<int>>, cells: seq<int>)
    requires m.Valid() && Gathered(m, labelled, components)
    requires Maximal(m, Members(cells)) && Distinct(cells) && labelled !! Members(cells)
    ensures Gathered(m, labelled + Members(cells),
              if |cells| >= MIN_COMPONENT_CELLS then components + [cells] else components)
  {
    hide Maximal, Distinct, Members;
    MemberCount(cells);
    var more := if |cells| >= MIN_COMPONENT_CELLS then components + [cells] else components;
    forall s | Maximal(m, s) && s <= labelled + Members(cells) && |s| >= MIN_COMPONENT_CELLS
      ensures Listed(more, s)
    {
      NewOrOld(m, labelled, Members(cells), s);
      if s == Members(cells) {
        assert Members(more[|more| - 1]) == s;
      } else {
        var i :| 0 <= i < |components| && Members(components[i]) == s;
        assert Members(more[i]) == s;
      }
    }
  }

  lemma NothingGathered(m: Mask)
    requires m.Valid()
    ensures Gathered(m, {}, []) && Closed(m, true, {})
  {
  }

  lemma AllGathered(m: Mask, labelled: set<int>, components: seq<seq<int>>)
    requires m.Valid() && Gathered(m, labelled, components)
    requires forall a :: m.Is(a, true) ==> a in labelled
    ensures forall s :: Maximal(m, s) ==>
              (Listed(components, s) <==> |s| >= MIN_COMPONENT_CELLS)
  {
    forall s | Maximal(m, s)
      ensures Listed(components, s) <==> |s| >= MIN_COMPONENT_CELLS
    {
      forall a | a in s ensures a in labelled {
        assert m.Is(a, true);
      }
      if i :| 0 <= i < |components| && Members(components[i]) == s {
        MemberCount(components[i]);
      }
    }
  }

  /** The components of the mask: exactly the maximal connected sets of built cells with at
      least nine cells, no two with a cell in common. */
  method FindComponents(grown: array<bool>, columns: int, rows: int)
    returns (components: seq<seq<int>>)
    requires columns > 0 && grown.Length == columns * rows
    ensures var m := Mask(grown[..], columns, rows);
      && (forall i :: 0 <= i < |components| ==> Kept(m, components[i]))
      && Apart(components)
      && (forall s :: Maximal(m, s) ==> (Listed(components, s) <==> |s| >= MIN_COMPONENT_CELLS))
  {
    hide Closed, Maximal, Labelled, Members, Distinct, Kept, Apart;
    ghost var m := Mask(grown[..], columns, rows);
    var labels := new int[grown.Length](_ => -1);
    components := [];
    NothingGathered(m);
    NothingLabelled(labels[..]);
    var at := 0;
    while at < grown.Length
      invariant 0 <= at <= grown.Length
      invariant Gathered(m, Labelled(labels[..]), components)
      invariant Closed(m, true, Labelled(labels[..]))
      invariant forall a :: 0 <= a < at && grown[a] ==> a in Labelled(labels[..])
    {
      InLabelled(labels[..], at);
      if grown[at] && labels[at] == -1 {
        ghost var labelled := Labelled(labels[..]);
        var cells := FloodFrom(grown, labels, |components|, at, columns, rows);
        GatherOne(m, labelled, components, cells);
        InMembers(cells, at);
        if |cells| >= MIN_COMPONENT_CELLS {
          components := components + [cells];
        }
      }
      at := at + 1;
    }
    AllGathered(m, Labelled(labels[..]), components);
  }

  lemma InMembers(xs: seq<int>, a: int)
    ensures a in Members(xs) <==> a in xs
  {
  }

  lemma NothingLabelled(labels: seq<int>)
    requires forall i :: 0 <= i < |labels| ==> labels[i] == -1
    ensures Labelled(labels) == {}
  {
  }
}
