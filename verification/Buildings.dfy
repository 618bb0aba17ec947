/**
 * From a grown mask to the outlines of its buildings: holes filled, components found, and the
 * boundary of each cut into rings.
 */
module Buildings {
  import opened Grid
  import Dilation
  import Flood
  import Components
  import Rings
  import Area = RingArea
  import Trace = RingTrace

  /** What the flood keeps is what the ring tracer asks for. */
  lemma KeptIsComponent(m: Mask, c: seq<int>)
    requires m.Valid() && Components.Kept(m, c)
    ensures Trace.Component(c, m.columns, m.rows)
  {
    hide Closed, Connected;
    forall i | 0 <= i < |c| ensures InMask(c[i], m.columns, m.rows) {
      assert c[i] in Members(c);
      assert m.Is(c[i], true);
    }
  }

  /** The rings outline the component: they use each side between it and the rest of the mask
      once, and enclose as many cells as it has. */
  ghost predicate Outlines(rings: seq<seq<Rings.Point>>, c: seq<int>, columns: int)
    requires columns > 0
  {
    && multiset(Rings.AllEdges(rings, columns + 1)) == multiset(Trace.BoundaryOf(c, columns))
    && Area.Areas(rings) == 2 * |c|
    && (forall r :: r in rings ==> |r| >= 3)
  }

  /** The mask in which every empty cell that no path reaches from the border is built. */
  ghost predicate Filled(was: Mask, now: Mask)
    requires was.Valid() && now.Valid()
  {
    && now.columns == was.columns && |now.cells| == |was.cells|
    && forall at :: 0 <= at < |now.cells| ==>
         (now.cells[at] <==> !(was.Is(at, false) && Flood.Outside(was, at)))
  }

  method Fill(grown: array<bool>, columns: int, rows: int)
    requires columns > 0 && grown.Length == columns * rows
    modifies grown
    ensures Filled(Mask(old(grown[..]), columns, rows), Mask(grown[..], columns, rows))
  {
    hide Flood.Outside;
    ghost var was := Mask(grown[..], columns, rows);
    Flood.FillHoles(grown, columns, rows);
    forall at | 0 <= at < grown.Length
      ensures grown[..][at] <==> !(was.Is(at, false) && Flood.Outside(was, at))
    {
      assert grown[..][at] == grown[at];
    }
  }

  method OutlineAll(components: seq<seq<int>>, columns: int, rows: int, ghost m: Mask)
    returns (outlines: seq<seq<seq<Rings.Point>>>)
    requires m.Valid() && m.columns == columns && m.rows == rows
    requires forall i :: 0 <= i < |components| ==> Components.Kept(m, components[i])
    ensures |outlines| == |components|
    ensures forall i :: 0 <= i < |components| ==> Outlines(outlines[i], components[i], columns)
  {
    hide Components.Kept, Trace.Component, Trace.BoundaryOf, Rings.AllEdges, Area.Areas;
    outlines := [];
    while |outlines| < |components|
      invariant |outlines| <= |components|
      invariant forall i :: 0 <= i < |outlines| ==> Outlines(outlines[i], components[i], columns)
    {
      var cells := components[|outlines|];
      KeptIsComponent(m, cells);
      var rings := Trace.ComponentRings(cells, columns, rows);
      outlines := outlines + [rings];
    }
  }

  /** The buildings of a grown mask: its holes filled, its components of at least nine cells,
      and their outlines. */
  method Footprints(grown: array<bool>, columns: int, rows: int)
    returns (components: seq<seq<int>>, outlines: seq<seq<seq<Rings.Point>>>)
    requires columns > 0 && grown.Length == columns * rows
    modifies grown
    ensures Filled(Mask(old(grown[..]), columns, rows), Mask(grown[..], columns, rows))
    ensures forall s :: Components.Maximal(Mask(grown[..], columns, rows), s) ==>
              (Components.Listed(components, s) <==> |s| >= 9)
    ensures Components.Apart(components) && |outlines| == |components|
    ensures forall i :: 0 <= i < |components| ==>
              Components.Kept(Mask(grown[..], columns, rows), components[i])
              && Outlines(outlines[i], components[i], columns)
  {
    hide Components.Kept, Components.Maximal, Components.Apart, Components.Listed, Filled, Outlines;
    Fill(grown, columns, rows);
    components := Components.FindComponents(grown, columns, rows);
    outlines := OutlineAll(components, columns, rows, Mask(grown[..], columns, rows));
  }

  /** The whole way from the building cells of a chunk: grown, filled, split and outlined. */
  method FromMask(inside: array<bool>, columns: int, rows: int, growth: nat)
    returns (grown: array<bool>, components: seq<seq<int>>, outlines: seq<seq<seq<Rings.Point>>>,
             ghost mid: Mask)
    requires columns > 0 && rows >= 0 && inside.Length == columns * rows && growth > 0
    ensures fresh(grown) && grown.Length == inside.Length && inside[..] == old(inside[..])
    ensures mid.Valid() && Dilation.Grown(Mask(inside[..], columns, rows), mid, growth)
    ensures Filled(mid, Mask(grown[..], columns, rows))
    ensures forall s :: Components.Maximal(Mask(grown[..], columns, rows), s) ==>
              (Components.Listed(components, s) <==> |s| >= 9)
    ensures Components.Apart(components) && |outlines| == |components|
    ensures forall i :: 0 <= i < |components| ==>
              Components.Kept(Mask(grown[..], columns, rows), components[i])
              && Outlines(outlines[i], components[i], columns)
  {
    hide Components.Kept, Components.Maximal, Components.Apart, Components.Listed, Filled, Outlines, Dilation.Grown;
    grown := Dilation.Grow(inside, columns, rows, growth);
    mid := Mask(grown[..], columns, rows);
    components, outlines := Footprints(grown, columns, rows);
  }
}
