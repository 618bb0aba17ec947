/**
 * Fingerprints of derived layers: when a cached layer is served and when it is refused.
 *
 * A global injectivity hypothesis on a 64-bit hash would be unsatisfiable, so the exactness
 * results ask only that the hash does not collide on the handful of strings being compared.
 */
module Fingerprint {
  import opened Bytes
  import opened Layout
  import opened Records
  import opened Sorting
  import Directory

  /** The content a chunk contributes: where it sits and the checksum of its stored bytes. */
  datatype Triple = Triple(level: u8, chunk: u32, crc: u32)

  function TripleRank(t: Triple): nat {
    t.level * 0x1_0000_0000_0000_0000 + t.chunk * 0x1_0000_0000 + t.crc
  }

  function TripleBytes(t: Triple): (s: seq<byte>)
    ensures |s| == 9
  {
    LE(t.level, 1) + LE(t.chunk, 4) + LE(t.crc, 4)
  }

  function TripleOf(r: ChunkRecord): Triple { Triple(r.key.level, r.key.chunk, r.crc) }

  function Live(records: seq<ChunkRecord>): (s: seq<Triple>)
    ensures forall t :: t in s <==> exists r :: r in records && !r.Tombstone() && TripleOf(r) == t
  {
    if records == [] then []
    else (if records[0].Tombstone() then [] else [TripleOf(records[0])]) + Live(records[1..])
  }

  /** The bytes hashed for one layer: its descriptor, then its chunks in sorted order. */
  function LayerString(desc: LayerDesc, records: seq<ChunkRecord>): seq<byte> {
    DescBytes(desc) + Flatten(SortBy(Live(records), TripleRank), TripleBytes)
  }

  function Identity(v: u64): nat { v }
  function WordBytes(v: u64): (s: seq<byte>) ensures |s| == 8 { LE(v, 8) }

  function CombinedString(fps: seq<u64>): seq<byte> {
    Flatten(SortBy(fps, Identity), WordBytes)
  }

  function DerivedString(sources: u64, params: u64, algo: u16): seq<byte> {
    LE(sources, 8) + LE(params, 8) + LE(algo, 2)
  }

  function DerivedFingerprint(P: Primitives, fps: seq<u64>, params: u64, algo: u16): u64 {
    P.hash64(DerivedString(P.hash64(CombinedString(fps)), params, algo))
  }

  function Features(ids: seq<LayerId>): (s: seq<LayerId>)
    ensures forall id :: id in s <==> id in ids && IsFeature(id)
  {
    if ids == [] then [] else (if IsFeature(ids[0]) then [ids[0]] else []) + Features(ids[1..])
  }

  /** Direct sources of a derived layer; the same table serves the builder and the reader. */
  function SourcesOf(ids: seq<LayerId>, id: LayerId): seq<LayerId> {
    if id == SLOPE then [ELEVATION]
    else if id == EDT then [HARD_FORBIDDEN]
    else if id == PRM_GRAPH then Features(ids) + [ELEVATION, HARD_FORBIDDEN, DIRECTION]
    else if id == KPATH_LIBRARY then [PRM_GRAPH, HARD_FORBIDDEN]
    else if id == COST_CACHE then Features(ids) + [HARD_FORBIDDEN]
    else []
  }

  function Ids(layers: seq<LayerDesc>): (ids: seq<LayerId>)
    ensures |ids| == |layers|
    ensures forall k :: 0 <= k < |layers| ==> ids[k] == layers[k].id
  {
    if layers == [] then [] else [layers[0].id] + Ids(layers[1..])
  }

  function OfLayer(layer: LayerId): ChunkRecord -> bool { (r: ChunkRecord) => r.key.layer == layer }

  /** Sources that are registered, in table order; an absent source contributes nothing. */
  function Registered(layers: seq<LayerDesc>, ids: seq<LayerId>): (s: seq<LayerId>)
    ensures forall id :: id in s <==> id in ids && DescOf(layers, id).Some?
  {
    if ids == [] then []
    else (if DescOf(layers, ids[0]).Some? then [ids[0]] else []) + Registered(layers, ids[1..])
  }

  function SourceString(layers: seq<LayerDesc>, d: seq<ChunkRecord>, id: LayerId): seq<byte>
    requires DescOf(layers, id).Some?
  {
    LayerString(DescOf(layers, id).value, Directory.Selected(d, OfLayer(id)))
  }

  function SourceHashes(P: Primitives, layers: seq<LayerDesc>, d: seq<ChunkRecord>, ids: seq<LayerId>): (fps: seq<u64>)
    requires forall id :: id in ids ==> DescOf(layers, id).Some?
    ensures |fps| == |ids|
    ensures forall k :: 0 <= k < |ids| ==> fps[k] == P.hash64(SourceString(layers, d, ids[k]))
  {
    if ids == [] then []
    else [P.hash64(SourceString(layers, d, ids[0]))] + SourceHashes(P, layers, d, ids[1..])
  }

  /** Registered direct sources of a derived layer. */
  function SourcesIn(layers: seq<LayerDesc>, id: LayerId): (s: seq<LayerId>)
    ensures forall x :: x in s ==> DescOf(layers, x).Some?
  {
    Registered(layers, SourcesOf(Ids(layers), id))
  }

  function EntryOf(entries: seq<DerivedEntry>, id: LayerId): Option<DerivedEntry> {
    if entries == [] then None else if entries[0].layer == id then Some(entries[0]) else EntryOf(entries[1..], id)
  }

  /** The check made when a map is opened: is a layer usable? */
  predicate Verifies(
    P: Primitives, layers: seq<LayerDesc>, d: seq<ChunkRecord>, entries: Option<seq<DerivedEntry>>, id: LayerId)
  {
    DescOf(layers, id).Some? &&
    (IsDerived(id) ==>
      entries.Some? &&
      var entry := EntryOf(entries.value, id);
      entry.Some? &&
      entry.value.fingerprint
        == DerivedFingerprint(P, SourceHashes(P, layers, d, SourcesIn(layers, id)), entry.value.paramsHash, entry.value.algo))
  }

  /** What a layer currently holds, as a set: order and byte positions do not enter. */
  function Content(d: seq<ChunkRecord>, id: LayerId): set<Triple> {
    set t | t in Live(Directory.Selected(d, OfLayer(id)))
  }

  ghost predicate DistinctIds(layers: seq<LayerDesc>) {
    forall i, j :: 0 <= i < j < |layers| ==> layers[i].id != layers[j].id
  }

  ghost predicate CollisionFree(P: Primitives, strings: set<seq<byte>>) {
    forall a, b :: a in strings && b in strings && P.hash64(a) == P.hash64(b) ==> a == b
  }

  /** The strings hashed when one layer is checked against one directory. */
  ghost function HashedStrings(P: Primitives, layers: seq<LayerDesc>, d: seq<ChunkRecord>, id: LayerId, e: DerivedEntry): set<seq<byte>> {
    var ids := SourcesIn(layers, id);
    var combined := CombinedString(SourceHashes(P, layers, d, ids));
    (set s | s in ids :: SourceString(layers, d, s)) + {combined, DerivedString(P.hash64(combined), e.paramsHash, e.algo)}
  }

  lemma {:induction false} SelectedDistinct(d: seq<ChunkRecord>, id: LayerId)
    requires Directory.Strict(d)
    ensures Directory.Strict(Directory.Selected(d, OfLayer(id)))
  {
    if d != [] {
      SelectedDistinct(d[1..], id);
      var t := Directory.Selected(d[1..], OfLayer(id));
      forall k | 0 <= k < |t| ensures Directory.RankOf(d[0]) < Directory.RankOf(t[k]) {
        assert t[k] in d[1..];
      }
      assert Directory.Selected(d, OfLayer(id)) == (if d[0].key.layer == id then [d[0]] else []) + t;
    }
  }

  ghost predicate KeysApart(records: seq<ChunkRecord>) {
    forall i, j :: 0 <= i < j < |records| ==> records[i].key != records[j].key
  }

  lemma {:induction false} LiveDistinct(records: seq<ChunkRecord>, id: LayerId)
    requires KeysApart(records)
    requires forall r :: r in records ==> r.key.layer == id
    ensures NoRepeats(Live(records))
  {
    if records != [] {
      LiveDistinct(records[1..], id);
      var t := Live(records[1..]);
      forall r | r in records[1..] ensures TripleOf(r) != TripleOf(records[0]) {
        assert r.key != records[0].key;
      }
      assert TripleOf(records[0]) !in t;
    }
  }

  /** Layers with the same content hash the same string. */
  lemma SameContentSameString(desc: LayerDesc, a: seq<ChunkRecord>, b: seq<ChunkRecord>, id: LayerId)
    requires KeysApart(a) && KeysApart(b)
    requires forall r :: r in a ==> r.key.layer == id
    requires forall r :: r in b ==> r.key.layer == id
    requires forall t :: t in Live(a) <==> t in Live(b)
    ensures LayerString(desc, a) == LayerString(desc, b)
  {
    LiveDistinct(a, id);
    LiveDistinct(b, id);
    SameMembers(Live(a), Live(b));
    SortForgetsOrder(Live(a), Live(b), TripleRank);
  }

  lemma TripleBytesInjective(a: Triple, b: Triple)
    requires TripleBytes(a) == TripleBytes(b)
    ensures a == b
  {
    Widths();
    var s := TripleBytes(a);
    assert s[..1] == LE(a.level, 1) && TripleBytes(b)[..1] == LE(b.level, 1);
    assert s[1..5] == LE(a.chunk, 4) && TripleBytes(b)[1..5] == LE(b.chunk, 4);
    assert s[5..9] == LE(a.crc, 4) && TripleBytes(b)[5..9] == LE(b.crc, 4);
    WordRoundTrip(a.level, 1); WordRoundTrip(b.level, 1);
    WordRoundTrip(a.chunk, 4); WordRoundTrip(b.chunk, 4);
    WordRoundTrip(a.crc, 4); WordRoundTrip(b.crc, 4);
  }

  lemma {:induction false} FlattenInjective<T>(a: seq<T>, b: seq<T>, size: nat, enc: T -> seq<byte>)
    requires size > 0
    requires forall x :: |enc(x)| == size
    requires forall x, y :: enc(x) == enc(y) ==> x == y
    requires Flatten(a, enc) == Flatten(b, enc)
    ensures a == b
  {
    var s, t := Flatten(a, enc), Flatten(b, enc);
    if a != [] && b != [] {
      assert s[..size] == enc(a[0]) && t[..size] == enc(b[0]);
      assert s[size..] == Flatten(a[1..], enc) && t[size..] == Flatten(b[1..], enc);
      FlattenInjective(a[1..], b[1..], size, enc);
      assert a == [a[0]] + a[1..] && b == [b[0]] + b[1..];
    }
  }

  /** Equal layer strings come from equal descriptors and equal content. */
  lemma SameStringSameContent(d1: LayerDesc, a: seq<ChunkRecord>, d2: LayerDesc, b: seq<ChunkRecord>)
    requires LayerString(d1, a) == LayerString(d2, b)
    ensures d1 == d2
    ensures forall t :: t in Live(a) <==> t in Live(b)
  {
    var s, t := LayerString(d1, a), LayerString(d2, b);
    var x, y := SortBy(Live(a), TripleRank), SortBy(Live(b), TripleRank);
    assert s[..DESC_SIZE] == DescBytes(d1) && t[..DESC_SIZE] == DescBytes(d2);
    assert s[DESC_SIZE..] == Flatten(x, TripleBytes) && t[DESC_SIZE..] == Flatten(y, TripleBytes);
    DescRoundTrip(d1);
    DescRoundTrip(d2);
    forall p, q | TripleBytes(p) == TripleBytes(q) ensures p == q { TripleBytesInjective(p, q); }
    FlattenInjective(x, y, 9, TripleBytes);
    SortByCorrect(Live(a), TripleRank);
    SortByCorrect(Live(b), TripleRank);
    forall t ensures t in Live(a) <==> t in Live(b) {
      assert t in Live(a) <==> t in multiset(x);
      assert t in Live(b) <==> t in multiset(y);
    }
  }

  lemma WordBytesInjective(a: u64, b: u64)
    requires WordBytes(a) == WordBytes(b)
    ensures a == b
  {
    Widths();
    WordRoundTrip(a, 8);
    WordRoundTrip(b, 8);
  }

  lemma CombinedInjective(a: seq<u64>, b: seq<u64>)
    requires CombinedString(a) == CombinedString(b)
    ensures multiset(a) == multiset(b)
  {
    forall p, q | WordBytes(p) == WordBytes(q) ensures p == q { WordBytesInjective(p, q); }
    FlattenInjective(SortBy(a, Identity), SortBy(b, Identity), 8, WordBytes);
    SortByCorrect(a, Identity);
    SortByCorrect(b, Identity);
  }

  lemma DerivedStringInjective(a: u64, b: u64, params: u64, algo: u16)
    requires DerivedString(a, params, algo) == DerivedString(b, params, algo)
    ensures a == b
  {
    assert DerivedString(a, params, algo)[..8] == WordBytes(a);
    assert DerivedString(b, params, algo)[..8] == WordBytes(b);
    WordBytesInjective(a, b);
  }

  /** A source whose content is unchanged hashes the same string. */
  lemma UnchangedSource(layers: seq<LayerDesc>, before: seq<ChunkRecord>, after: seq<ChunkRecord>, id: LayerId)
    requires Directory.Strict(before) && Directory.Strict(after)
    requires DescOf(layers, id).Some?
    requires Content(before, id) == Content(after, id)
    ensures SourceString(layers, before, id) == SourceString(layers, after, id)
  {
    SelectedDistinct(before, id);
    SelectedDistinct(after, id);
    var a, b := Directory.Selected(before, OfLayer(id)), Directory.Selected(after, OfLayer(id));
    forall t ensures t in Live(a) <==> t in Live(b) {
      assert t in Live(a) <==> t in Content(before, id);
      assert t in Live(b) <==> t in Content(after, id);
    }
    KeysDiffer(a);
    KeysDiffer(b);
    SameContentSameString(DescOf(layers, id).value, a, b, id);
  }

  lemma KeysDiffer(d: seq<ChunkRecord>)
    requires Directory.Strict(d)
    ensures KeysApart(d)
  {
    forall i, j | 0 <= i < j < |d| ensures d[i].key != d[j].key {
      assert Directory.RankOf(d[i]) < Directory.RankOf(d[j]);
    }
  }

  /** Whatever the hash, a derived layer survives any edit that leaves its direct sources alone. */
  lemma UntouchedStaysValid(
    P: Primitives, layers: seq<LayerDesc>, before: seq<ChunkRecord>, after: seq<ChunkRecord>,
    entries: Option<seq<DerivedEntry>>, id: LayerId)
    requires Directory.Strict(before) && Directory.Strict(after)
    requires Verifies(P, layers, before, entries, id)
    requires forall s :: s in SourcesIn(layers, id) ==> Content(before, s) == Content(after, s)
    ensures Verifies(P, layers, after, entries, id)
  {
    var ids := SourcesIn(layers, id);
    forall k | 0 <= k < |ids|
      ensures SourceString(layers, before, ids[k]) == SourceString(layers, after, ids[k])
    {
      UnchangedSource(layers, before, after, ids[k]);
    }
    assert SourceHashes(P, layers, before, ids) == SourceHashes(P, layers, after, ids);
  }

  /**
   * Exact invalidation: after an edit a previously valid derived layer is still valid exactly
   * when every registered direct source holds the same set of (level, chunk, checksum).
   */
  lemma StaleExactly(
    P: Primitives, layers: seq<LayerDesc>, before: seq<ChunkRecord>, after: seq<ChunkRecord>,
    entries: seq<DerivedEntry>, id: LayerId)
    requires IsDerived(id) && DistinctIds(layers)
    requires Directory.Strict(before) && Directory.Strict(after)
    requires Verifies(P, layers, before, Some(entries), id)
    requires CollisionFree(P, HashedStrings(P, layers, before, id, EntryOf(entries, id).value)
                            + HashedStrings(P, layers, after, id, EntryOf(entries, id).value))
    ensures Verifies(P, layers, after, Some(entries), id)
        <==> forall s :: s in SourcesIn(layers, id) ==> Content(before, s) == Content(after, s)
  {
    if Verifies(P, layers, after, Some(entries), id) {
      forall s | s in SourcesIn(layers, id) ensures Content(before, s) == Content(after, s) {
        ValidMeansUnchanged(P, layers, before, after, entries, id, s);
      }
    } else if forall s :: s in SourcesIn(layers, id) ==> Content(before, s) == Content(after, s) {
      UntouchedStaysValid(P, layers, before, after, Some(entries), id);
    }
  }

  /** Equal derived fingerprints force equal combined source lists. */
  lemma SameFingerprintSameHashes(
    P: Primitives, layers: seq<LayerDesc>, before: seq<ChunkRecord>, after: seq<ChunkRecord>, e: DerivedEntry, id: LayerId)
    requires CollisionFree(P, HashedStrings(P, layers, before, id, e) + HashedStrings(P, layers, after, id, e))
    requires DerivedFingerprint(P, SourceHashes(P, layers, before, SourcesIn(layers, id)), e.paramsHash, e.algo)
          == DerivedFingerprint(P, SourceHashes(P, layers, after, SourcesIn(layers, id)), e.paramsHash, e.algo)
    ensures multiset(SourceHashes(P, layers, before, SourcesIn(layers, id)))
         == multiset(SourceHashes(P, layers, after, SourcesIn(layers, id)))
  {
    var ids := SourcesIn(layers, id);
    var f, g := SourceHashes(P, layers, before, ids), SourceHashes(P, layers, after, ids);
    var cf, cg := CombinedString(f), CombinedString(g);
    DerivedStringInjective(P.hash64(cf), P.hash64(cg), e.paramsHash, e.algo);
    CombinedInjective(f, g);
  }

  lemma ValidMeansUnchanged(
    P: Primitives, layers: seq<LayerDesc>, before: seq<ChunkRecord>, after: seq<ChunkRecord>,
    entries: seq<DerivedEntry>, id: LayerId, s: LayerId)
    requires IsDerived(id) && DistinctIds(layers)
    requires Verifies(P, layers, before, Some(entries), id) && Verifies(P, layers, after, Some(entries), id)
    requires CollisionFree(P, HashedStrings(P, layers, before, id, EntryOf(entries, id).value)
                            + HashedStrings(P, layers, after, id, EntryOf(entries, id).value))
    requires s in SourcesIn(layers, id)
    ensures Content(before, s) == Content(after, s)
  {
    var ids := SourcesIn(layers, id);
    var e := EntryOf(entries, id).value;
    SameFingerprintSameHashes(P, layers, before, after, e, id);
    var f, g := SourceHashes(P, layers, before, ids), SourceHashes(P, layers, after, ids);
    var i :| 0 <= i < |ids| && ids[i] == s;
    assert f[i] in multiset(g);
    var j :| 0 <= j < |g| && g[j] == f[i];
    MatchedSource(P, layers, before, after, e, id, s, ids[j]);
  }

  /** Sources that hash alike are the same source with the same content. */
  lemma MatchedSource(
    P: Primitives, layers: seq<LayerDesc>, before: seq<ChunkRecord>, after: seq<ChunkRecord>, e: DerivedEntry,
    id: LayerId, s: LayerId, t: LayerId)
    requires CollisionFree(P, HashedStrings(P, layers, before, id, e) + HashedStrings(P, layers, after, id, e))
    requires s in SourcesIn(layers, id) && t in SourcesIn(layers, id)
    requires P.hash64(SourceString(layers, before, s)) == P.hash64(SourceString(layers, after, t))
    ensures Content(before, s) == Content(after, s)
  {
    assert SourceString(layers, before, s) in HashedStrings(P, layers, before, id, e);
    assert SourceString(layers, after, t) in HashedStrings(P, layers, after, id, e);
    SameStringSameContent(DescOf(layers, s).value, Directory.Selected(before, OfLayer(s)),
                          DescOf(layers, t).value, Directory.Selected(after, OfLayer(t)));
  }

  /**
   * Validity is not transitive: a path library is checked against what its roadmap contains,
   * not against whether the roadmap is itself up to date. Editing only the elevation makes the
   * roadmap stale and leaves the library served.
   */
  lemma LibraryOutlivesRoadmap(
    P: Primitives, layers: seq<LayerDesc>, before: seq<ChunkRecord>, after: seq<ChunkRecord>, entries: seq<DerivedEntry>)
    requires DistinctIds(layers) && DescOf(layers, ELEVATION).Some?
    requires Directory.Strict(before) && Directory.Strict(after)
    requires Verifies(P, layers, before, Some(entries), PRM_GRAPH)
    requires Verifies(P, layers, before, Some(entries), KPATH_LIBRARY)
    requires forall s :: s != ELEVATION ==> Content(before, s) == Content(after, s)
    requires Content(before, ELEVATION) != Content(after, ELEVATION)
    requires CollisionFree(P, HashedStrings(P, layers, before, PRM_GRAPH, EntryOf(entries, PRM_GRAPH).value)
                            + HashedStrings(P, layers, after, PRM_GRAPH, EntryOf(entries, PRM_GRAPH).value))
    ensures !Verifies(P, layers, after, Some(entries), PRM_GRAPH)
    ensures Verifies(P, layers, after, Some(entries), KPATH_LIBRARY)
  {
    hide HashedStrings, Content, Verifies, CollisionFree;
    StaleExactly(P, layers, before, after, entries, PRM_GRAPH);
    assert ELEVATION in SourcesIn(layers, PRM_GRAPH);
    UntouchedStaysValid(P, layers, before, after, Some(entries), KPATH_LIBRARY);
  }
}
