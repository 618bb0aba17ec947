/** Fingerprints recorded by the builder, and why a fresh build reads back as up to date. */
module Builder {
  import opened Bytes
  import opened Records
  import opened Sorting
  import opened Fingerprint
  import Directory

  /** Walks the chunk list backwards and keeps the first record met for each (level, chunk). */
  function LastRecords(records: seq<ChunkRecord>, layer: LayerId, seen: set<(u8, u32)>): (s: seq<ChunkRecord>)
    ensures forall r :: r in s ==> r in records && r.key.layer == layer
    decreases |records|
  {
    if records == [] then []
    else
      var r := records[|records| - 1];
      var rest := records[..|records| - 1];
      if r.key.layer == layer && (r.key.level, r.key.chunk) !in seen
      then [r] + LastRecords(rest, layer, seen + {(r.key.level, r.key.chunk)})
      else LastRecords(rest, layer, seen)
  }

  /** The directory the writer ends up with after storing the records in order. */
  function Stored(records: seq<ChunkRecord>): seq<ChunkRecord> {
    if records == [] then []
    else Directory.Upsert(Stored(records[..|records| - 1]), records[|records| - 1])
  }

  function LastFor(records: seq<ChunkRecord>, key: Key): Option<ChunkRecord> {
    if records == [] then None
    else if records[|records| - 1].key == key then Some(records[|records| - 1])
    else LastFor(records[..|records| - 1], key)
  }

  lemma {:induction false} StoredIsLast(records: seq<ChunkRecord>)
    ensures Directory.Strict(Stored(records))
    ensures forall key :: Directory.Find(Stored(records), key) == LastFor(records, key)
  {
    if records != [] {
      StoredIsLast(records[..|records| - 1]);
      Directory.UpsertIsMapUpdate(Stored(records[..|records| - 1]), records[|records| - 1]);
    }
  }

  /** The backward walk keeps exactly the last record of every unseen address of the layer. */
  lemma {:induction false} LastRecordsExact(records: seq<ChunkRecord>, layer: LayerId, seen: set<(u8, u32)>)
    ensures forall r :: r in LastRecords(records, layer, seen) <==>
        r.key.layer == layer && (r.key.level, r.key.chunk) !in seen && LastFor(records, r.key) == Some(r)
    ensures KeysApart(LastRecords(records, layer, seen))
    decreases |records|
  {
    if records != [] {
      var r := records[|records| - 1];
      var rest := records[..|records| - 1];
      if r.key.layer == layer && (r.key.level, r.key.chunk) !in seen {
        var more := seen + {(r.key.level, r.key.chunk)};
        LastRecordsExact(rest, layer, more);
        var t := LastRecords(rest, layer, more);
        assert forall k :: 0 <= k < |t| ==> t[k] in t && t[k].key != r.key;
        assert LastRecords(records, layer, seen) == [r] + t;
      } else {
        LastRecordsExact(rest, layer, seen);
      }
    }
  }

  /** Builder and writer records describe the same stored bytes; offsets differ. */
  ghost predicate SameChunks(a: seq<ChunkRecord>, b: seq<ChunkRecord>) {
    && |a| == |b|
    && forall k :: 0 <= k < |a| ==> a[k].key == b[k].key && a[k].crc == b[k].crc && a[k].flags == b[k].flags == 0
  }

  lemma {:induction false} SameLast(a: seq<ChunkRecord>, b: seq<ChunkRecord>, key: Key)
    requires SameChunks(a, b)
    ensures LastFor(a, key).Some? <==> LastFor(b, key).Some?
    ensures LastFor(a, key).Some? ==>
        var x, y := LastFor(a, key).value, LastFor(b, key).value;
        x.key == y.key == key && x.crc == y.crc && !x.Tombstone() && !y.Tombstone()
  {
    if a != [] {
      var n := |a| - 1;
      assert a[n].key == b[n].key;
      if a[n].key != key {
        SameLast(a[..n], b[..n], key);
      }
    }
  }

  lemma FoundMember(d: seq<ChunkRecord>, r: ChunkRecord)
    requires Directory.Strict(d)
    ensures r in d <==> Directory.Find(d, r.key) == Some(r)
  {
    if r in d {
      var i :| 0 <= i < |d| && d[i] == r;
      Directory.FindAt(d, i);
    }
  }

  /** The builder's fingerprint string of a layer is the one the reader computes. */
  lemma SameLayerString(pending: seq<ChunkRecord>, written: seq<ChunkRecord>, desc: LayerDesc, id: LayerId)
    requires SameChunks(pending, written)
    ensures LayerString(desc, LastRecords(pending, id, {}))
         == LayerString(desc, Directory.Selected(Stored(written), OfLayer(id)))
  {
    var a := LastRecords(pending, id, {});
    var d := Stored(written);
    var b := Directory.Selected(d, OfLayer(id));
    LastRecordsExact(pending, id, {});
    StoredIsLast(written);
    SelectedDistinct(d, id);
    KeysDiffer(b);
    forall t ensures t in Live(a) <==> t in Live(b) {
      if t in Live(a) {
        var r :| r in a && TripleOf(r) == t;
        SameLast(pending, written, r.key);
        var w := LastFor(written, r.key).value;
        FoundMember(d, w);
        assert w in b && TripleOf(w) == t;
      }
      if t in Live(b) {
        var w :| w in b && TripleOf(w) == t;
        FoundMember(d, w);
        SameLast(pending, written, w.key);
        var r := LastFor(pending, w.key).value;
        assert r in a && TripleOf(r) == t;
      }
    }
    SameContentSameString(desc, a, b, id);
  }

  /** Source fingerprints in the order the builder lists them; absent layers are left out. */
  function BuilderHashes(P: Primitives, layers: seq<LayerDesc>, pending: seq<ChunkRecord>, ids: seq<LayerId>): (fps: seq<u64>)
    requires forall id :: id in ids ==> DescOf(layers, id).Some?
    ensures |fps| == |ids|
    ensures forall k :: 0 <= k < |ids| ==>
        fps[k] == P.hash64(LayerString(DescOf(layers, ids[k]).value, LastRecords(pending, ids[k], {})))
  {
    if ids == [] then []
    else [P.hash64(LayerString(DescOf(layers, ids[0]).value, LastRecords(pending, ids[0], {})))]
         + BuilderHashes(P, layers, pending, ids[1..])
  }

  datatype BuildParams = BuildParams(hash: u64, algo: u16, seeds: seq<u64>)

  /** One entry per derived layer present in the build, in registration order. */
  function Entries(
    P: Primitives, all: seq<LayerDesc>, todo: seq<LayerDesc>, pending: seq<ChunkRecord>, params: LayerId -> BuildParams)
    : seq<DerivedEntry>
  {
    if todo == [] then []
    else
      var id := todo[0].id;
      var rest := Entries(P, all, todo[1..], pending, params);
      if !IsDerived(id) then rest
      else
        var fps := BuilderHashes(P, all, pending, SourcesIn(all, id));
        [DerivedEntry(id, DerivedFingerprint(P, fps, params(id).hash, params(id).algo),
                      params(id).hash, params(id).algo, params(id).seeds)] + rest
  }

  lemma {:induction false} EntryRecorded(
    P: Primitives, all: seq<LayerDesc>, todo: seq<LayerDesc>, pending: seq<ChunkRecord>, params: LayerId -> BuildParams,
    id: LayerId)
    requires IsDerived(id) && DescOf(todo, id).Some?
    ensures EntryOf(Entries(P, all, todo, pending, params), id)
         == Some(DerivedEntry(id,
              DerivedFingerprint(P, BuilderHashes(P, all, pending, SourcesIn(all, id)), params(id).hash, params(id).algo),
              params(id).hash, params(id).algo, params(id).seeds))
  {
    if todo[0].id != id {
      EntryRecorded(P, all, todo[1..], pending, params, id);
    }
  }

  /** Two registries hold the same descriptors, in any order. */
  ghost predicate SameLayers(a: seq<LayerDesc>, b: seq<LayerDesc>) {
    && DistinctIds(a) && DistinctIds(b)
    && forall id :: DescOf(a, id) == DescOf(b, id)
  }

  lemma {:induction false} FeaturesDistinct(ids: seq<LayerId>)
    requires NoRepeats(ids)
    ensures NoRepeats(Features(ids))
  {
    if ids != [] { FeaturesDistinct(ids[1..]); }
  }

  lemma SourcesDistinct(ids: seq<LayerId>, id: LayerId)
    requires NoRepeats(ids)
    ensures NoRepeats(SourcesOf(ids, id))
  {
    FeaturesDistinct(ids);
    AppendNoRepeats(Features(ids), [ELEVATION, HARD_FORBIDDEN, DIRECTION]);
    AppendNoRepeats(Features(ids), [HARD_FORBIDDEN]);
  }

  lemma {:induction false} RegisteredDistinct(layers: seq<LayerDesc>, ids: seq<LayerId>)
    requires NoRepeats(ids)
    ensures NoRepeats(Registered(layers, ids))
  {
    if ids != [] { RegisteredDistinct(layers, ids[1..]); }
  }

  lemma IdKnown(layers: seq<LayerDesc>, id: LayerId)
    ensures id in Ids(layers) <==> DescOf(layers, id).Some?
  {
    if DescOf(layers, id).Some? {
      var k :| 0 <= k < |layers| && layers[k] == DescOf(layers, id).value;
      assert Ids(layers)[k] == id;
    }
  }

  /** Registration order does not change which sources a layer has. */
  lemma SameSources(a: seq<LayerDesc>, b: seq<LayerDesc>, id: LayerId)
    requires SameLayers(a, b)
    ensures multiset(SourcesIn(a, id)) == multiset(SourcesIn(b, id))
  {
    assert NoRepeats(Ids(a)) && NoRepeats(Ids(b));
    SourcesDistinct(Ids(a), id);
    SourcesDistinct(Ids(b), id);
    RegisteredDistinct(a, SourcesOf(Ids(a), id));
    RegisteredDistinct(b, SourcesOf(Ids(b), id));
    forall x ensures x in Ids(a) <==> x in Ids(b) {
      IdKnown(a, x);
      IdKnown(b, x);
    }
    SameMembers(SourcesIn(a, id), SourcesIn(b, id));
  }

  function LayerIdRank(id: LayerId): nat { id }

  /** Hash of one registered source, as the reader computes it. */
  function ReaderHash(P: Primitives, layers: seq<LayerDesc>, d: seq<ChunkRecord>, id: LayerId): u64 {
    if DescOf(layers, id).Some? then P.hash64(SourceString(layers, d, id)) else 0
  }

  /** Hashing a permuted source list permutes the hashes. */
  lemma PermutedHashes(P: Primitives, a: seq<LayerDesc>, b: seq<LayerDesc>,
    pending: seq<ChunkRecord>, written: seq<ChunkRecord>, x: seq<LayerId>, y: seq<LayerId>)
    requires SameChunks(pending, written)
    requires forall id :: DescOf(a, id) == DescOf(b, id)
    requires forall id :: id in x ==> DescOf(a, id).Some?
    requires forall id :: id in y ==> DescOf(b, id).Some?
    requires multiset(x) == multiset(y)
    ensures multiset(BuilderHashes(P, a, pending, x)) == multiset(SourceHashes(P, b, Stored(written), y))
  {
    var d := Stored(written);
    var f := (id: LayerId) => ReaderHash(P, b, d, id);
    forall k | 0 <= k < |x| ensures BuilderHashes(P, a, pending, x)[k] == f(x[k]) {
      SameLayerString(pending, written, DescOf(a, x[k]).value, x[k]);
    }
    assert BuilderHashes(P, a, pending, x) == MapSeq(f, x);
    assert SourceHashes(P, b, d, y) == MapSeq(f, y);
    PermutedMap(f, x, y, LayerIdRank);
  }

  /**
   * A freshly built map verifies: for any chunk list (repeated addresses included), any set of
   * registered layers listed in any order by the reader, and any hash, every derived layer
   * registered in the build is found up to date.
   */
  lemma FreshBuildVerifies(
    P: Primitives, layers: seq<LayerDesc>, reread: seq<LayerDesc>, pending: seq<ChunkRecord>, written: seq<ChunkRecord>,
    params: LayerId -> BuildParams, id: LayerId)
    requires SameLayers(layers, reread)
    requires SameChunks(pending, written)
    requires DescOf(layers, id).Some?
    ensures Verifies(P, reread, Stored(written), Some(Entries(P, layers, layers, pending, params)), id)
  {
    if IsDerived(id) {
      EntryRecorded(P, layers, layers, pending, params, id);
      SameSources(layers, reread, id);
      var a := BuilderHashes(P, layers, pending, SourcesIn(layers, id));
      var b := SourceHashes(P, reread, Stored(written), SourcesIn(reread, id));
      PermutedHashes(P, layers, reread, pending, written, SourcesIn(layers, id), SourcesIn(reread, id));
      SortForgetsOrder(a, b, Identity);
    }
  }
}
