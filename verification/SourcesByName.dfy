/**
 * Which cached layers an edit makes stale, layer by layer, with the layers given by their
 * numbers in the file.  What is checked against what is said here as a table of pairs; the lists
 * that the reader walks are shown to hold exactly the registered layers of that table.
 */
module SourcesByName {
  import opened Bytes
  import opened Records
  import opened Fingerprint
  import Directory

  /** The layers that must carry a fingerprint. */
  lemma DerivedByNumber(id: LayerId)
    ensures IsDerived(id)
        <==> id in {0x0002, 0x0003, 0x3001, 0x3002, 0x3003} || id / 0x1000 == 4
  {
  }

  /** Resistance features are numbered from 0x1000 to 0x10ff. */
  predicate Resistance(s: LayerId) { s / 0x100 == 0x10 }

  /** Layer `s` is read when layer `id` is computed. */
  predicate DependsOn(id: LayerId, s: LayerId) {
    || (id, s) in {(0x0002, 0x0001), (0x0003, 0x2001)}
    || (id, s) in {(0x3001, 0x0001), (0x3001, 0x2001), (0x3001, 0x2002)}
    || (id, s) in {(0x3002, 0x3001), (0x3002, 0x2001), (0x4001, 0x2001)}
    || (id in {0x3001, 0x4001} && Resistance(s))
  }

  lemma IdsAreRegistered(layers: seq<LayerDesc>, id: LayerId)
    ensures id in Ids(layers) <==> DescOf(layers, id).Some?
  {
    if layers != [] {
      IdsAreRegistered(layers[1..], id);
      assert layers == [layers[0]] + layers[1..];
    }
  }

  lemma ListedByTable(ids: seq<LayerId>, id: LayerId, s: LayerId)
    requires s in ids
    ensures s in SourcesOf(ids, id) <==> DependsOn(id, s)
  {
    assert IsFeature(s) <==> Resistance(s);
    var features := Features(ids);
    assert s in features <==> Resistance(s);
    if id == 0x3001 {
      assert SourcesOf(ids, id) == features + [0x0001, 0x2001, 0x2002];
    } else if id == 0x4001 {
      assert SourcesOf(ids, id) == features + [0x2001];
    }
  }

  /** The list walked by the reader holds exactly the registered layers of the table. */
  lemma SourcesAreTable(layers: seq<LayerDesc>, id: LayerId, s: LayerId)
    ensures s in SourcesIn(layers, id) <==> DescOf(layers, s).Some? && DependsOn(id, s)
  {
    hide SourcesOf, DependsOn, DescOf;
    IdsAreRegistered(layers, s);
    if s in Ids(layers) {
      ListedByTable(Ids(layers), id, s);
    }
  }

  /** The two states of a file are compared under strings on which the hash does not collide. */
  ghost predicate Comparable(
    P: Primitives, layers: seq<LayerDesc>, before: seq<ChunkRecord>, after: seq<ChunkRecord>,
    entries: seq<DerivedEntry>, id: LayerId)
  {
    && DistinctIds(layers)
    && Directory.Strict(before) && Directory.Strict(after)
    && Verifies(P, layers, before, Some(entries), id)
    && (IsDerived(id) ==>
         CollisionFree(P, HashedStrings(P, layers, before, id, EntryOf(entries, id).value)
                           + HashedStrings(P, layers, after, id, EntryOf(entries, id).value)))
  }

  ghost predicate Edited(before: seq<ChunkRecord>, after: seq<ChunkRecord>, s: LayerId) {
    Content(before, s) != Content(after, s)
  }

  /** A served layer is refused after an edit exactly when a registered layer it reads was edited. */
  lemma StaleByTable(
    P: Primitives, layers: seq<LayerDesc>, before: seq<ChunkRecord>, after: seq<ChunkRecord>,
    entries: seq<DerivedEntry>, id: LayerId)
    requires IsDerived(id) && Comparable(P, layers, before, after, entries, id)
    ensures !Verifies(P, layers, after, Some(entries), id)
        <==> exists s :: DependsOn(id, s) && DescOf(layers, s).Some? && Edited(before, after, s)
  {
    hide Verifies, Content, HashedStrings, CollisionFree, DependsOn, SourcesIn;
    StaleExactly(P, layers, before, after, entries, id);
    forall s ensures s in SourcesIn(layers, id) <==> DescOf(layers, s).Some? && DependsOn(id, s) {
      SourcesAreTable(layers, id, s);
    }
  }

  /** Slope follows the elevation and the distance field follows the forbidden cells. */
  lemma TerrainGoesStale(
    P: Primitives, layers: seq<LayerDesc>, before: seq<ChunkRecord>, after: seq<ChunkRecord>,
    entries: seq<DerivedEntry>, id: LayerId, source: LayerId)
    requires (id, source) in {(0x0002, 0x0001), (0x0003, 0x2001)}
    requires DescOf(layers, source).Some? && Comparable(P, layers, before, after, entries, id)
    ensures Verifies(P, layers, after, Some(entries), id) <==> !Edited(before, after, source)
  {
    hide Verifies, Edited, Comparable, DescOf;
    StaleByTable(P, layers, before, after, entries, id);
  }

  /** A cost cache goes stale on the forbidden cells or any resistance feature, and on nothing else. */
  lemma CostCacheGoesStale(
    P: Primitives, layers: seq<LayerDesc>, before: seq<ChunkRecord>, after: seq<ChunkRecord>, entries: seq<DerivedEntry>)
    requires Comparable(P, layers, before, after, entries, 0x4001)
    ensures !Verifies(P, layers, after, Some(entries), 0x4001)
        <==> exists s :: (s == 0x2001 || Resistance(s)) && DescOf(layers, s).Some? && Edited(before, after, s)
  {
    hide Verifies, Edited, Comparable, DescOf;
    StaleByTable(P, layers, before, after, entries, 0x4001);
    forall s: LayerId ensures DependsOn(0x4001, s) <==> s == 0x2001 || Resistance(s) {
    }
  }

  /** A derived layer without a list of its own is served whatever is edited. */
  lemma UnlistedNeverStale(
    P: Primitives, layers: seq<LayerDesc>, before: seq<ChunkRecord>, after: seq<ChunkRecord>,
    entries: Option<seq<DerivedEntry>>, id: LayerId)
    requires id == 0x3003 || (id / 0x1000 == 4 && id != 0x4001)
    ensures Verifies(P, layers, before, entries, id) <==> Verifies(P, layers, after, entries, id)
  {
    assert SourcesIn(layers, id) == [];
  }
}
