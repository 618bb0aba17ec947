/**
 * `add_layer` cuts a raster into chunks and `generate_lod` averages one level into the next.
 * Read over the whole grid, each level is the box mean of the one below exactly when the chunk
 * size is even.
 */
module LodBuild {
  import opened Bytes
  import opened MortonCodes
  import opened Lod
  import opened Sorting
  import Grid

  // ------------------------------------------------------------------ one level down

  function Half(n: nat): nat { if n / 2 < 1 then 1 else n / 2 }

  function Average(k: Chunk, x: nat, y: nat, c: nat): real
    requires k.Valid()
  {
    (Get(k, 2 * x, 2 * y, c) + Get(k, 2 * x + 1, 2 * y, c) + Get(k, 2 * x, 2 * y + 1, c)
     + Get(k, 2 * x + 1, 2 * y + 1, c)) * 0.25
  }

  /** The quarter of the parent a child writes. */
  predicate Writes(baseX: nat, baseY: nat, half: nat, x: nat, y: nat) {
    baseX <= x < baseX + half && baseY <= y < baseY + half
  }

  /** The cell is written before the loops reach row `v`, column `u`, channel `w`. */
  predicate Before(y: nat, x: nat, c: nat, v: nat, u: nat, w: nat) {
    y < v || (y == v && (x < u || (x == u && c < w)))
  }

  /** The three loops over a child chunk. */
  method FillQuarter(entry: Chunk, chunk: Chunk, baseX: nat, baseY: nat, half: nat)
    returns (out: Chunk)
    requires entry.Valid() && chunk.Valid()
    ensures out.Valid() && out.(data := entry.data) == entry
    ensures forall x: nat, y: nat, c: nat :: entry.Has(x, y, c) ==>
      Get(out, x, y, c) == if Writes(baseX, baseY, half, x, y)
                           then Average(chunk, x - baseX, y - baseY, c) else Get(entry, x, y, c)
  {
    hide Get, Set, Average, Chunk.Valid;
    out := entry;
    var v := 0;
    while v < half
      invariant 0 <= v <= half && out.Valid() && out.(data := entry.data) == entry
      invariant Filled(entry, chunk, out, baseX, baseY, half, v, 0, 0)
    {
      var u := 0;
      while u < half
        invariant 0 <= u <= half && out.Valid() && out.(data := entry.data) == entry
        invariant Filled(entry, chunk, out, baseX, baseY, half, v, u, 0)
      {
        var w := 0;
        while w < entry.channels
          invariant 0 <= w <= entry.channels && out.Valid() && out.(data := entry.data) == entry
          invariant Filled(entry, chunk, out, baseX, baseY, half, v, u, w)
        {
          FillOne(entry, chunk, out, baseX, baseY, half, v, u, w);
          out := Set(out, baseX + u, baseY + v, w, Average(chunk, u, v, w));
          w := w + 1;
        }
        FillOn(entry, chunk, out, baseX, baseY, half, v, u, w);
        u := u + 1;
      }
      FillRow(entry, chunk, out, baseX, baseY, half, v);
      v := v + 1;
    }
    forall x: nat, y: nat, c: nat | entry.Has(x, y, c)
      ensures Get(out, x, y, c) == if Writes(baseX, baseY, half, x, y)
        then Average(chunk, x - baseX, y - baseY, c) else Get(entry, x, y, c)
    {
      FilledAt(entry, chunk, out, baseX, baseY, half, v, 0, 0, x, y, c);
    }
  }

  ghost predicate Filled(entry: Chunk, chunk: Chunk, out: Chunk, baseX: nat, baseY: nat, half: nat,
                         v: nat, u: nat, w: nat)
    requires entry.Valid() && chunk.Valid() && out.Valid()
  {
    forall x: nat, y: nat, c: nat :: entry.Has(x, y, c) ==>
      Get(out, x, y, c)
      == if Writes(baseX, baseY, half, x, y) && Before(y - baseY, x - baseX, c, v, u, w)
         then Average(chunk, x - baseX, y - baseY, c) else Get(entry, x, y, c)
  }

  lemma FilledAt(entry: Chunk, chunk: Chunk, out: Chunk, baseX: nat, baseY: nat, half: nat,
                 v: nat, u: nat, w: nat, x: nat, y: nat, c: nat)
    requires entry.Valid() && chunk.Valid() && out.Valid()
    requires Filled(entry, chunk, out, baseX, baseY, half, v, u, w) && entry.Has(x, y, c)
    ensures Get(out, x, y, c)
      == if Writes(baseX, baseY, half, x, y) && Before(y - baseY, x - baseX, c, v, u, w)
         then Average(chunk, x - baseX, y - baseY, c) else Get(entry, x, y, c)
  {
  }

  lemma FillOne(entry: Chunk, chunk: Chunk, out: Chunk, baseX: nat, baseY: nat, half: nat,
                v: nat, u: nat, w: nat)
    requires entry.Valid() && chunk.Valid() && out.Valid() && out.(data := entry.data) == entry
    requires v < half && u < half && w < entry.channels
    requires Filled(entry, chunk, out, baseX, baseY, half, v, u, w)
    ensures Filled(entry, chunk, Set(out, baseX + u, baseY + v, w, Average(chunk, u, v, w)),
                   baseX, baseY, half, v, u, w + 1)
  {
    hide Get, Set, Average, Chunk.Valid;
    var a := Average(chunk, u, v, w);
    var next := Set(out, baseX + u, baseY + v, w, a);
    forall x: nat, y: nat, c: nat | entry.Has(x, y, c)
      ensures Get(next, x, y, c)
        == if Writes(baseX, baseY, half, x, y) && Before(y - baseY, x - baseX, c, v, u, w + 1)
           then Average(chunk, x - baseX, y - baseY, c) else Get(entry, x, y, c)
    {
      GetSet(out, baseX + u, baseY + v, w, a, x, y, c);
      FilledAt(entry, chunk, out, baseX, baseY, half, v, u, w, x, y, c);
    }
  }

  lemma FillOn(entry: Chunk, chunk: Chunk, out: Chunk, baseX: nat, baseY: nat, half: nat,
               v: nat, u: nat, w: nat)
    requires entry.Valid() && chunk.Valid() && out.Valid() && w == entry.channels
    requires Filled(entry, chunk, out, baseX, baseY, half, v, u, w)
    ensures Filled(entry, chunk, out, baseX, baseY, half, v, u + 1, 0)
  {
    hide Get, Average, Chunk.Valid;
  }

  lemma FillRow(entry: Chunk, chunk: Chunk, out: Chunk, baseX: nat, baseY: nat, half: nat, v: nat)
    requires entry.Valid() && chunk.Valid() && out.Valid()
    requires Filled(entry, chunk, out, baseX, baseY, half, v, half, 0)
    ensures Filled(entry, chunk, out, baseX, baseY, half, v + 1, 0, 0)
  {
    hide Get, Average, Chunk.Valid;
  }

  // ------------------------------------------------------------------ a level's cells

  function Parent(id: nat): nat { Interleave(EvenBits(id) / 2, OddBits(id) / 2) }

  function BaseX(id: nat, n: nat): nat { EvenBits(id) % 2 * Half(n) }

  function BaseY(id: nat, n: nat): nat { OddBits(id) % 2 * Half(n) }

  /** The sources of a level are written one after the other: the last that writes a cell of the
      parent gives it, and a cell none writes stays zero. */
  function Cell(rs: seq<Record>, n: nat, channels: nat, id: nat, x: nat, y: nat, c: nat): real
    requires AllSized(rs, n, channels)
  {
    if rs == [] then 0.0
    else
      var r := rs[|rs| - 1];
      if Parent(r.id) == id && Writes(BaseX(r.id, n), BaseY(r.id, n), Half(n), x, y)
      then Average(r.chunk, x - BaseX(r.id, n), y - BaseY(r.id, n), c)
      else Cell(rs[..|rs| - 1], n, channels, id, x, y, c)
  }

  predicate HasChild(rs: seq<Record>, id: nat) {
    exists i :: 0 <= i < |rs| && Parent(rs[i].id) == id
  }

  /** The coarser chunk under an id holds the cells of the level. */
  ghost predicate Holds(k: Chunk, rs: seq<Record>, n: nat, channels: nat, id: nat)
    requires AllSized(rs, n, channels)
  {
    && k.Valid() && k.width == n && k.height == n && k.channels == channels
    && forall x: nat, y: nat, c: nat :: k.Has(x, y, c) ==>
         Get(k, x, y, c) == Cell(rs, n, channels, id, x, y, c)
  }

  /** The map of the coarser chunks after some of the sources. */
  ghost predicate Collected(coarser: map<nat, Chunk>, rs: seq<Record>, n: nat, channels: nat)
    requires AllSized(rs, n, channels)
  {
    forall id: nat :: (id in coarser <==> HasChild(rs, id))
      && (id in coarser ==> Holds(coarser[id], rs, n, channels, id))
  }

  lemma CellOn(rs: seq<Record>, r: Record, n: nat, channels: nat, id: nat, x: nat, y: nat, c: nat)
    requires AllSized(rs + [r], n, channels) && AllSized(rs, n, channels)
    ensures r.chunk.Valid()
    ensures Cell(rs + [r], n, channels, id, x, y, c)
      == if Parent(r.id) == id && Writes(BaseX(r.id, n), BaseY(r.id, n), Half(n), x, y)
         then Average(r.chunk, x - BaseX(r.id, n), y - BaseY(r.id, n), c)
         else Cell(rs, n, channels, id, x, y, c)
  {
    var all := rs + [r];
    assert all[|all| - 1] == r && all[..|all| - 1] == rs;
  }

  lemma NoChildNoCell(rs: seq<Record>, n: nat, channels: nat, id: nat, x: nat, y: nat, c: nat)
    requires AllSized(rs, n, channels) && !HasChild(rs, id)
    ensures Cell(rs, n, channels, id, x, y, c) == 0.0
  {
    hide Parent, Average;
    if rs != [] {
      HasChildOn(rs[..|rs| - 1], rs[|rs| - 1], id);
      assert rs == rs[..|rs| - 1] + [rs[|rs| - 1]];
      NoChildNoCell(rs[..|rs| - 1], n, channels, id, x, y, c);
    }
  }

  /** The loop over the sources. */
  method Average4(sources: seq<Record>, n: nat, channels: nat) returns (coarser: map<nat, Chunk>)
    requires channels >= 1 && AllSized(sources, n, channels)
    ensures Collected(coarser, sources, n, channels)
  {
    hide Parent, Cell, Writes, Holds, HasChild, BaseX, BaseY, Average, Get;
    coarser := map[];
    var i := 0;
    assert sources[..0] == [];
    assert Collected(coarser, [], n, channels) by { NothingCollected(n, channels); }
    while i < |sources|
      invariant 0 <= i <= |sources|
      invariant AllSized(sources[..i], n, channels)
      invariant Collected(coarser, sources[..i], n, channels)
    {
      var r := sources[i];
      var id := Parent(r.id);
      var entry := if id in coarser then coarser[id] else ZeroChunk(n, n, channels);
      assert Holds(entry, sources[..i], n, channels, id) by {
        EntryHolds(coarser, sources[..i], n, channels, id);
      }
      EntrySized(entry, sources[..i], n, channels, id);
      var half := Half(n);
      var filled := FillQuarter(entry, r.chunk, BaseX(r.id, n), BaseY(r.id, n), half);
      assert sources[..i + 1] == sources[..i] + [r];
      CollectOne(coarser, sources[..i], r, n, channels, entry, filled);
      coarser := coarser[id := filled];
      i := i + 1;
    }
    assert sources[..i] == sources;
  }

  lemma NothingCollected(n: nat, channels: nat)
    ensures Collected(map[], [], n, channels)
  {
  }

  lemma EntrySized(k: Chunk, rs: seq<Record>, n: nat, channels: nat, id: nat)
    requires AllSized(rs, n, channels) && Holds(k, rs, n, channels, id)
    ensures k.Valid() && k.width == n && k.height == n && k.channels == channels
  {
  }

  lemma EntryHolds(coarser: map<nat, Chunk>, rs: seq<Record>, n: nat, channels: nat, id: nat)
    requires channels >= 1 && AllSized(rs, n, channels) && Collected(coarser, rs, n, channels)
    ensures Holds(if id in coarser then coarser[id] else ZeroChunk(n, n, channels), rs, n, channels, id)
  {
    hide Parent, Cell, Get;
    if id !in coarser {
      var k := ZeroChunk(n, n, channels);
      forall x: nat, y: nat, c: nat | k.Has(x, y, c)
        ensures Get(k, x, y, c) == Cell(rs, n, channels, id, x, y, c)
      {
        ZeroReads(n, n, channels, x, y, c);
        NoChildNoCell(rs, n, channels, id, x, y, c);
      }
    }
  }

  lemma CollectOne(coarser: map<nat, Chunk>, rs: seq<Record>, r: Record, n: nat, channels: nat,
                   entry: Chunk, filled: Chunk)
    requires AllSized(rs, n, channels) && AllSized(rs + [r], n, channels)
    requires Collected(coarser, rs, n, channels) && r.chunk.Valid()
    requires Holds(entry, rs, n, channels, Parent(r.id))
    requires filled.Valid() && filled.(data := entry.data) == entry
    requires forall x: nat, y: nat, c: nat :: entry.Has(x, y, c) ==>
      Get(filled, x, y, c)
      == if Writes(BaseX(r.id, n), BaseY(r.id, n), Half(n), x, y)
         then Average(r.chunk, x - BaseX(r.id, n), y - BaseY(r.id, n), c) else Get(entry, x, y, c)
    ensures Collected(coarser[Parent(r.id) := filled], rs + [r], n, channels)
  {
    hide Parent, Cell, Get, Average, BaseX, BaseY, Half;
    var id := Parent(r.id);
    var all, more := rs + [r], coarser[id := filled];
    forall other: nat
      ensures other in more <==> HasChild(all, other)
      ensures other in more ==> Holds(more[other], all, n, channels, other)
    {
      HasChildOn(rs, r, other);
      forall x: nat, y: nat, c: nat
        ensures Cell(all, n, channels, other, x, y, c)
          == if id == other && Writes(BaseX(r.id, n), BaseY(r.id, n), Half(n), x, y)
             then Average(r.chunk, x - BaseX(r.id, n), y - BaseY(r.id, n), c)
             else Cell(rs, n, channels, other, x, y, c)
      {
        CellOn(rs, r, n, channels, other, x, y, c);
      }
    }
  }

  lemma HasChildOn(rs: seq<Record>, r: Record, id: nat)
    ensures HasChild(rs + [r], id) <==> HasChild(rs, id) || Parent(r.id) == id
  {
    hide Parent;
    var all := rs + [r];
    if HasChild(rs, id) {
      var i :| 0 <= i < |rs| && Parent(rs[i].id) == id;
      assert all[i] == rs[i];
    }
    assert all[|rs|] == r;
    if HasChild(all, id) {
      var i :| 0 <= i < |all| && Parent(all[i].id) == id;
      assert i < |rs| ==> all[i] == rs[i];
    }
  }

  // ------------------------------------------------------------------- whole levels

  function Id(id: nat): nat { id }

  function Listed(ids: seq<nat>, coarser: map<nat, Chunk>): seq<Record>
    requires forall i :: 0 <= i < |ids| ==> ids[i] in coarser
  {
    seq(|ids|, i requires 0 <= i < |ids| => Record(ids[i], coarser[ids[i]]))
  }

  lemma {:induction false} LastListed(ids: seq<nat>, coarser: map<nat, Chunk>, id: nat)
    requires forall i :: 0 <= i < |ids| ==> ids[i] in coarser
    ensures Last(Listed(ids, coarser), id) == if id in ids then Some(coarser[id]) else None
  {
    if ids != [] {
      var rest := ids[..|ids| - 1];
      assert ids == rest + [ids[|ids| - 1]];
      LastListed(rest, coarser, id);
      assert Listed(ids, coarser)[..|ids| - 1] == Listed(rest, coarser);
    }
  }

  /** The records of a level are those of the coarser chunks of the level below, each once. */
  ghost predicate LevelOf(rs: seq<Record>, below: seq<Record>, n: nat, channels: nat)
    requires AllSized(below, n, channels)
  {
    && AllSized(rs, n, channels)
    && (forall i, j :: 0 <= i < j < |rs| ==> rs[i].id < rs[j].id)
    && (forall id: nat :: (Last(rs, id).Some? <==> HasChild(below, id))
          && (Last(rs, id).Some? ==> Holds(Last(rs, id).value, below, n, channels, id)))
  }

  method Keys(coarser: map<nat, Chunk>) returns (ids: seq<nat>)
    ensures forall id :: id in ids <==> id in coarser
    ensures NoRepeats(ids)
  {
    var left := coarser.Keys;
    ids := [];
    while left != {}
      invariant forall id :: id in coarser <==> id in ids || id in left
      invariant forall id :: id in ids ==> id !in left
      invariant NoRepeats(ids)
    {
      Grid.SomeMember(left);
      var id :| id in left;
      ids := ids + [id];
      left := left - {id};
    }
  }

  lemma SortedOnce(ids: seq<nat>, sorted: seq<nat>)
    requires NoRepeats(ids) && sorted == SortBy(ids, Id)
    ensures forall i, j :: 0 <= i < j < |sorted| ==> sorted[i] < sorted[j]
    ensures forall id :: id in sorted <==> id in ids
  {
    hide SortBy;
    SortByCorrect(ids, Id);
    RepeatsAreCounted(ids);
    RepeatsAreCounted(sorted);
    forall i, j | 0 <= i < j < |sorted| ensures sorted[i] < sorted[j] {
      assert Id(sorted[i]) <= Id(sorted[j]);
    }
    assert forall id :: id in sorted <==> id in multiset(sorted);
  }

  /** One turn of `generate_lod`. */
  method LodLevel(sources: seq<Record>, n: nat, channels: nat) returns (out: seq<Record>)
    requires channels >= 1 && AllSized(sources, n, channels)
    ensures LevelOf(out, sources, n, channels)
    ensures sources != [] ==> out != []
  {
    hide Parent, Cell, SortBy, Holds, HasChild, LevelOf, Collected;
    var coarser := Average4(sources, n, channels);
    var keys := Keys(coarser);
    var ids := SortBy(keys, Id);
    SortedOnce(keys, ids);
    out := [];
    while |out| < |ids|
      invariant |out| <= |ids|
      invariant out == Listed(ids[..|out|], coarser)
    {
      out := out + [Record(ids[|out|], coarser[ids[|out|]])];
    }
    assert ids[..|out|] == ids;
    ListedLevel(ids, coarser, sources, n, channels);
  }

  /** The collected chunks, listed in the order of their ids, are the level. */
  lemma ListedLevel(ids: seq<nat>, coarser: map<nat, Chunk>, sources: seq<Record>, n: nat, channels: nat)
    requires AllSized(sources, n, channels) && Collected(coarser, sources, n, channels)
    requires forall i, j :: 0 <= i < j < |ids| ==> ids[i] < ids[j]
    requires forall id :: id in ids <==> id in coarser
    ensures LevelOf(Listed(ids, coarser), sources, n, channels)
    ensures sources != [] ==> Listed(ids, coarser) != []
  {
    hide Parent, Cell;
    var out := Listed(ids, coarser);
    forall i | 0 <= i < |out| ensures
      out[i].chunk.Valid() && out[i].chunk.width == n && out[i].chunk.height == n
      && out[i].chunk.channels == channels
    {
      assert ids[i] in coarser;
      assert Holds(coarser[ids[i]], sources, n, channels, ids[i]);
    }
    hide Holds, HasChild, Listed;
    forall id: nat
      ensures Last(out, id).Some? <==> HasChild(sources, id)
      ensures Last(out, id).Some? ==> Holds(Last(out, id).value, sources, n, channels, id)
    {
      LastListed(ids, coarser, id);
    }
    if sources != [] {
      FirstHasParent(sources);
      assert Parent(sources[0].id) in coarser;
    }
  }

  lemma FirstHasParent(sources: seq<Record>)
    requires sources != []
    ensures HasChild(sources, Parent(sources[0].id))
  {
    hide Parent;
  }
}
