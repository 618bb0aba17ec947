/**
 * A whole build: the builder's metadata, layers, skeleton and chunks go through the writer into
 * a file, and the file opens with every derived layer up to date.
 */
module FreshBuild {
  import opened Bytes
  import opened Records
  import opened Sorting
  import opened Reader
  import opened WriterModel
  import opened Written
  import Builder
  import Fingerprint
  import Directory
  import NodeKeys
  import Quadtree
  import Partition
  import PartitionBuild

  datatype Pending = Pending(key: Key, chunk: Chunk)

  /** What the builder holds when it writes; the fingerprint table goes between `early` and `late`. */
  datatype Build = Build(
    early: seq<TlvRecord>, late: seq<TlvRecord>, layers: seq<LayerDesc>, nodes: seq<QNode>,
    chunks: seq<Pending>, params: LayerId -> Builder.BuildParams)

  /** A chunk's record as the builder sees it, before its offset is known. */
  function PendingRecord(P: Primitives, c: Pending): ChunkRecord {
    ChunkRecord(c.key, c.chunk.codec, 0, Cast32(|c.chunk.stored|), c.chunk.rawLen, P.crc32(c.chunk.stored), 0)
  }

  function PendingRecords(P: Primitives, chunks: seq<Pending>): (r: seq<ChunkRecord>)
    ensures |r| == |chunks|
  {
    if chunks == [] then []
    else PendingRecords(P, chunks[..|chunks| - 1]) + [PendingRecord(P, chunks[|chunks| - 1])]
  }

  function Table(P: Primitives, b: Build): seq<DerivedEntry> {
    Builder.Entries(P, b.layers, b.layers, PendingRecords(P, b.chunks), b.params)
  }

  function SetOp(r: TlvRecord): Op { SetMeta(r) }
  function LayerOp(d: LayerDesc): Op { SetLayer(d) }
  function ChunkOp(c: Pending): Op { WriteChunk(c.key, c.chunk.codec, c.chunk.stored, c.chunk.rawLen) }

  /** One call per element. */
  function Calls<T>(f: T -> Op, s: seq<T>): seq<Op> {
    if s == [] then [] else Calls(f, s[..|s| - 1]) + [f(s[|s| - 1])]
  }

  /** The metadata settings, the table only if it has entries. */
  function Settings(P: Primitives, b: Build): seq<TlvRecord> {
    b.early
    + (if Table(P, b) == [] then [] else [TlvRecord(TAG_DERIVED_LAYERS, P.encodeDerived(Table(P, b)))])
    + b.late
  }

  function HeadOps(P: Primitives, b: Build): seq<Op> {
    Calls(SetOp, Settings(P, b)) + Calls(LayerOp, b.layers) + [SetSkeleton(b.nodes)]
  }

  /** The calls the builder makes on the writer before finishing it. */
  function BuildOps(P: Primitives, b: Build): seq<Op> {
    HeadOps(P, b) + Calls(ChunkOp, b.chunks)
  }

  /** No call is refused, and only the builder sets the fingerprint table. */
  ghost predicate Buildable(spec: Spec, b: Build) {
    && Fingerprint.DistinctIds(b.layers)
    && (forall d :: d in b.layers ==> DescAccepted(spec, d))
    && (forall r :: r in b.early + b.late ==> r.tag != TAG_DERIVED_LAYERS)
    && (forall c :: c in b.chunks ==> |c.chunk.stored| < 0x1_0000_0000)
  }

  function RunFrom(P: Primitives, s: State, ops: seq<Op>): (t: State)
    requires s.sink.Valid()
    ensures t.sink.Valid()
  {
    if ops == [] then s else
    var t := RunFrom(P, s, ops[..|ops| - 1]);
    StepKeepsSink(P, t, ops[|ops| - 1]);
    Step(P, t, ops[|ops| - 1]).0
  }

  lemma RunLast(P: Primitives, spec: Spec, ops: seq<Op>, op: Op)
    ensures Run(P, spec, ops + [op]) == Step(P, Run(P, spec, ops), op).0
  {
    hide Step;
    assert (ops + [op])[..|ops|] == ops;
  }

  lemma RunFromLast(P: Primitives, s: State, ops: seq<Op>, op: Op)
    requires s.sink.Valid()
    ensures RunFrom(P, s, ops + [op]) == Step(P, RunFrom(P, s, ops), op).0
  {
    hide Step;
    assert (ops + [op])[..|ops|] == ops;
  }

  lemma NothingRun(P: Primitives, s: State)
    requires s.sink.Valid()
    ensures RunFrom(P, s, []) == s
  {
  }

  lemma {:induction false} RunOn(P: Primitives, spec: Spec, a: seq<Op>, b: seq<Op>)
    ensures Run(P, spec, a + b) == RunFrom(P, Run(P, spec, a), b)
  {
    hide Step, Run, RunFrom;
    if b == [] {
      assert a + b == a;
      NothingRun(P, Run(P, spec, a));
    } else {
      var n := |b| - 1;
      RunOn(P, spec, a, b[..n]);
      assert b == b[..n] + [b[n]] && a + b == a + b[..n] + [b[n]];
      RunLast(P, spec, a + b[..n], b[n]);
      RunFromLast(P, Run(P, spec, a), b[..n], b[n]);
    }
  }

  /** The value of a tag after a row of settings: the last one given. */
  function LastSet(rs: seq<TlvRecord>, tag: u32, old0: Option<seq<byte>>): Option<seq<byte>> {
    if rs == [] then old0
    else if rs[|rs| - 1].tag == tag then Some(rs[|rs| - 1].value)
    else LastSet(rs[..|rs| - 1], tag, old0)
  }

  lemma {:induction false} SettingsRun(P: Primitives, s: State, rs: seq<TlvRecord>, tag: u32)
    requires s.sink.Valid() && s.prologue.None?
    ensures var t := RunFrom(P, s, Calls(SetOp, rs));
            t == s.(meta := t.meta) && TlvGet(t.meta, tag) == LastSet(rs, tag, TlvGet(s.meta, tag))
  {
    hide RunFrom, TlvGet, TlvSet;
    if rs == [] {
      NothingRun(P, s);
    } else {
      var n := |rs| - 1;
      SettingsRun(P, s, rs[..n], tag);
      RunFromLast(P, s, Calls(SetOp, rs[..n]), SetOp(rs[n]));
      TlvSetGet(RunFrom(P, s, Calls(SetOp, rs[..n])).meta, rs[n], tag);
    }
  }

  lemma {:induction false} SetDescNew(layers: seq<LayerDesc>, d: LayerDesc)
    requires forall k :: 0 <= k < |layers| ==> layers[k].id != d.id
    ensures SetDesc(layers, d) == layers + [d]
  {
    if layers != [] {
      SetDescNew(layers[1..], d);
    }
  }

  lemma LayerStep(P: Primitives, s: State, d: LayerDesc)
    requires s.sink.Valid() && s.prologue.None? && DescAccepted(s.spec, d)
    requires forall k :: 0 <= k < |s.layers| ==> s.layers[k].id != d.id
    ensures Step(P, s, LayerOp(d)).0 == s.(layers := s.layers + [d])
  {
    hide DescAccepted, SetDesc;
    SetDescNew(s.layers, d);
  }

  lemma {:induction false} LayersRun(P: Primitives, s: State, layers: seq<LayerDesc>)
    requires s.sink.Valid() && s.prologue.None? && s.layers == []
    requires Fingerprint.DistinctIds(layers) && forall d :: d in layers ==> DescAccepted(s.spec, d)
    ensures RunFrom(P, s, Calls(LayerOp, layers)) == s.(layers := layers)
  {
    hide Step, RunFrom, DescAccepted;
    if layers == [] {
      NothingRun(P, s);
    } else {
      var n := |layers| - 1;
      LayersRun(P, s, layers[..n]);
      RunFromLast(P, s, Calls(LayerOp, layers[..n]), LayerOp(layers[n]));
      LayerStep(P, s.(layers := layers[..n]), layers[n]);
      assert layers == layers[..n] + [layers[n]];
    }
  }

  /** One more chunk, seen with the prologue written. */
  lemma ChunkStep(P: Primitives, s: State, c: Pending)
    requires s.sink.Valid() && |c.chunk.stored| < 0x1_0000_0000
    ensures var v, u := EnsurePrologue(P, s), Step(P, s, ChunkOp(c)).0;
            EnsurePrologue(P, u) == u
            && u == v.(sink := u.sink, hashed := u.hashed, directory := Directory.Upsert(v.directory,
                 RecordFor(P, v.sink.pos, c.key, c.chunk.codec, c.chunk.stored, c.chunk.rawLen)))
  {
    hide PrologueBody, PrologueOf, FinalMeta;
  }

  lemma PrologueKeeps(P: Primitives, s: State)
    requires s.sink.Valid()
    ensures EnsurePrologue(P, s).directory == s.directory
  {
  }

  lemma StoredOn(a: seq<ChunkRecord>, b: seq<ChunkRecord>, x: ChunkRecord, y: ChunkRecord)
    requires Builder.SameChunks(a, b) && x.key == y.key && x.crc == y.crc && x.flags == y.flags == 0
    ensures Builder.SameChunks(a + [x], b + [y])
    ensures Builder.Stored(b + [y]) == Directory.Upsert(Builder.Stored(b), y)
  {
    assert (b + [y])[..|b|] == b;
  }

  /** Writing the chunks stores records that differ from the builder's in their offsets only. */
  lemma {:induction false} ChunksRun(P: Primitives, s: State, chunks: seq<Pending>) returns (written: seq<ChunkRecord>)
    requires s.sink.Valid() && s.directory == []
    requires forall c :: c in chunks ==> |c.chunk.stored| < 0x1_0000_0000
    ensures Builder.SameChunks(PendingRecords(P, chunks), written)
    ensures var t, u := EnsurePrologue(P, s), EnsurePrologue(P, RunFrom(P, s, Calls(ChunkOp, chunks)));
            u == t.(directory := Builder.Stored(written), sink := u.sink, hashed := u.hashed)
  {
    hide Step, Directory.Upsert, EnsurePrologue, Builder.SameChunks, Builder.Stored, RunFrom;
    if chunks == [] {
      written := [];
      NothingRun(P, s);
      PrologueKeeps(P, s);
      NothingWritten(P);
    } else {
      var n := |chunks| - 1;
      var before := ChunksRun(P, s, chunks[..n]);
      var c := chunks[n];
      var prev := RunFrom(P, s, Calls(ChunkOp, chunks[..n]));
      RunFromLast(P, s, Calls(ChunkOp, chunks[..n]), ChunkOp(c));
      ChunkStep(P, prev, c);
      var at := EnsurePrologue(P, prev).sink.pos;
      var y := RecordFor(P, at, c.key, c.chunk.codec, c.chunk.stored, c.chunk.rawLen);
      StoredOn(PendingRecords(P, chunks[..n]), before, PendingRecord(P, c), y);
      written := before + [y];
    }
  }

  lemma NothingWritten(P: Primitives)
    ensures Builder.SameChunks(PendingRecords(P, []), []) && Builder.Stored([]) == []
  {
  }

  // ------------------------------------------------------------ the state the build ends in

  lemma {:induction false} LastSetSkip(a: seq<TlvRecord>, b: seq<TlvRecord>, tag: u32, old0: Option<seq<byte>>)
    requires forall r :: r in b ==> r.tag != tag
    ensures LastSet(a + b, tag, old0) == LastSet(a, tag, old0)
  {
    if b == [] {
      assert a + b == a;
    } else {
      assert (a + b)[..|a + b| - 1] == a + b[..|b| - 1];
      LastSetSkip(a, b[..|b| - 1], tag, old0);
    }
  }

  function TableValue(P: Primitives, b: Build): Option<seq<byte>> {
    if Table(P, b) == [] then None else Some(P.encodeDerived(Table(P, b)))
  }

  lemma TableIsSet(P: Primitives, spec: Spec, b: Build)
    requires Buildable(spec, b)
    ensures LastSet(Settings(P, b), TAG_DERIVED_LAYERS, None) == TableValue(P, b)
  {
    hide Table;
    var mid := if Table(P, b) == [] then [] else [TlvRecord(TAG_DERIVED_LAYERS, P.encodeDerived(Table(P, b)))];
    LastSetSkip(b.early + mid, b.late, TAG_DERIVED_LAYERS, None);
    LastSetSkip([], b.early, TAG_DERIVED_LAYERS, None);
    assert [] + b.early == b.early;
    if mid == [] {
      assert b.early + mid == b.early;
    }
  }

  lemma HeadRun(P: Primitives, spec: Spec, b: Build)
    requires Buildable(spec, b)
    ensures var s := Run(P, spec, HeadOps(P, b));
            && s == Init(spec).(meta := s.meta, layers := b.layers, skeleton := b.nodes)
            && TlvGet(s.meta, TAG_DERIVED_LAYERS) == TableValue(P, b)
  {
    hide Settings, TableValue, Calls, LastSet;
    var sets, layers := Calls(SetOp, Settings(P, b)), Calls(LayerOp, b.layers);
    RunOn(P, spec, [], sets);
    assert [] + sets == sets;
    SettingsRun(P, Init(spec), Settings(P, b), TAG_DERIVED_LAYERS);
    TableIsSet(P, spec, b);
    RunOn(P, spec, sets, layers);
    LayersRun(P, Run(P, spec, sets), b.layers);
    assert (sets + layers + [SetSkeleton(b.nodes)])[..|sets + layers|] == sets + layers;
  }

  /** The frozen state of a build. */
  lemma BuiltState(P: Primitives, spec: Spec, b: Build) returns (written: seq<ChunkRecord>)
    requires Buildable(spec, b)
    ensures Builder.SameChunks(PendingRecords(P, b.chunks), written)
    ensures var t := Final(P, spec, BuildOps(P, b));
            && t.prologue.Some? && t.spec == spec && t.layers == b.layers && t.skeleton == b.nodes
            && t.directory == Builder.Stored(written)
            && TlvGet(t.meta, TAG_DERIVED_LAYERS) == TableValue(P, b)
  {
    hide HeadOps, TableValue, Calls, RunFrom, Run, PrologueBody, PrologueOf;
    HeadRun(P, spec, b);
    var s := Run(P, spec, HeadOps(P, b));
    RunOn(P, spec, HeadOps(P, b), Calls(ChunkOp, b.chunks));
    written := ChunksRun(P, s, b.chunks);
    TlvSetGet(s.meta, TlvRecord(TAG_LAYER_TABLE, LayerTableBytes(s.layers)), TAG_DERIVED_LAYERS);
  }

  // ------------------------------------------------------------------------- the opened file

  lemma StaleIsFound(P: Primitives, img: seq<byte>)
    requires Open(P, img).Ok?
    ensures var v := Open(P, img).value; FindStale(P, v.layers, v.directory, v.meta) == Ok(v.stale)
  {
    hide OpenFrame, ReadMeta, ReadDirectory, ReadSkeleton, FindStale, LayersOf;
  }

  lemma NoneStale(P: Primitives, b: Build, written: seq<ChunkRecord>, meta: seq<TlvRecord>)
    requires P.Lawful() && Fingerprint.DistinctIds(b.layers)
    requires Builder.SameChunks(PendingRecords(P, b.chunks), written)
    requires TlvGet(meta, TAG_DERIVED_LAYERS) == TableValue(P, b)
    ensures FindStale(P, b.layers, Builder.Stored(written), meta) == Ok({})
    ensures HasDerived(b.layers) ==> EntriesOf(P, meta).Ok?
  {
    hide Builder.Entries, Builder.SameChunks, Fingerprint.Verifies, Builder.Stored, PendingRecords;
    forall k | 0 <= k < |b.layers| && IsDerived(b.layers[k].id)
      ensures Table(P, b) != []
      ensures Fingerprint.Verifies(P, b.layers, Builder.Stored(written), Some(Table(P, b)), b.layers[k].id)
    {
      var id := b.layers[k].id;
      Builder.FreshBuildVerifies(P, b.layers, b.layers, PendingRecords(P, b.chunks), written, b.params, id);
      Builder.EntryRecorded(P, b.layers, b.layers, PendingRecords(P, b.chunks), b.params, id);
    }
    if HasDerived(b.layers) {
      var k :| 0 <= k < |b.layers| && IsDerived(b.layers[k].id);
      assert EntriesOf(P, meta) == Ok(Some(Table(P, b)));
      var stale := FindStale(P, b.layers, Builder.Stored(written), meta).value;
      assert stale == {};
    }
  }

  function ShapeOf(spec: Spec): Geometry {
    Geometry(spec.x0, spec.y0, spec.x1, spec.y1, spec.resCm, spec.chunkSize, spec.lodCount)
  }

  /**
   * A built file opens exactly when its grid is valid and no two skeleton nodes share a key, and
   * then no derived layer is stale.
   */
  lemma BuiltMapOpens(P: Primitives, spec: Spec, b: Build)
    requires P.Lawful() && Buildable(spec, b) && Representable(P, Run(P, spec, BuildOps(P, b)))
    ensures var result := Open(P, Image(P, spec, BuildOps(P, b)));
            && (result.Ok? <==> P.gridOk(ShapeOf(spec)) && NoRepeats(MapSeq(Morton, b.nodes)))
            && (result.Ok? ==>
                  && result.value.stale == {} && result.value.layers == b.layers
                  && result.value.skeleton == SortBy(b.nodes, Morton))
  {
    var ops := BuildOps(P, b);
    var img := Image(P, spec, ops);
    var written := BuiltState(P, spec, b);
    WriteThenOpen(P, spec, ops);
    NoneStale(P, b, written, Final(P, spec, ops).meta);
    hide BuildOps, Final, Image, Open, FindStale, EntriesOf, TableValue, WellFormed, MapSeq, SortBy, Run;
    if Open(P, img).Ok? {
      StaleIsFound(P, img);
    }
  }

  // -------------------------------------------------------------- the partition's own skeleton

  lemma StrictIsSkeleton(nodes: seq<QNode>)
    requires Strict(nodes, Morton)
    ensures NoRepeats(MapSeq(Morton, nodes)) && SortBy(nodes, Morton) == nodes
  {
    SortOfStrict(nodes, Morton);
    hide MapSeq;
    var keys := MapSeq(Morton, nodes);
    forall i, j | 0 <= i < j < |keys| ensures keys[i] != keys[j] {
      assert Morton(nodes[i]) < Morton(nodes[j]);
    }
  }

  /** The build took its skeleton from the partition of a proxy grid. */
  ghost predicate FromPartition(b: Build, env: Partition.Env) {
    && env.proxy.width <= 0x8000_0000 && env.proxy.height <= 0x8000_0000
    && PartitionBuild.Partitioned(env) == Ok(b.nodes)
  }

  /** A build whose skeleton is the partition's own opens exactly when its grid is valid. */
  lemma PartitionedMapOpens(P: Primitives, spec: Spec, b: Build, env: Partition.Env)
    requires P.Lawful() && Buildable(spec, b) && Representable(P, Run(P, spec, BuildOps(P, b)))
    requires FromPartition(b, env)
    ensures var result := Open(P, Image(P, spec, BuildOps(P, b)));
            && (result.Ok? <==> P.gridOk(ShapeOf(spec)))
            && (result.Ok? ==>
                  && result.value.stale == {} && result.value.layers == b.layers
                  && result.value.skeleton == b.nodes)
  {
    hide BuildOps, Image, Open, Run, Buildable, Representable, MapSeq, SortBy, PartitionBuild.Partitioned;
    StrictIsSkeleton(b.nodes);
    BuiltMapOpens(P, spec, b);
  }

  /**
   * From the proxy grid through the file to the lookup: in the opened map, any point of the map
   * is located at the node of the merged square over its cell, down to the depth asked for.
   */
  lemma BuiltMapLocates(P: Primitives, spec: Spec, b: Build, env: Partition.Env, bounds: Quadtree.Area,
                        x: real, y: real, maxDepth: nat)
    requires P.Lawful() && Buildable(spec, b) && Representable(P, Run(P, spec, BuildOps(P, b)))
    requires FromPartition(b, env) && PartitionBuild.CoversMap(env, bounds) && bounds.Contains(x, y)
    requires Open(P, Image(P, spec, BuildOps(P, b))).Ok?
    ensures env.proxy.width > 0
    ensures var root, v := PartitionBuild.RootOf(env), Open(P, Image(P, spec, BuildOps(P, b))).value;
            PartitionBuild.Found(env, root, NodeKeys.Capped(maxDepth),
              PartitionBuild.CellUnder(x - bounds.minX, env.res, root.size),
              PartitionBuild.CellUnder(y - bounds.minY, env.res, root.size),
              Quadtree.Located(v.skeleton, x, y, bounds, env.res, maxDepth))
  {
    hide BuildOps, Image, Open, Run, Buildable, Representable, Quadtree.Located, PartitionBuild.Found,
         PartitionBuild.SkeletonNodes, PartitionBuild.RootOf, Quadtree.Ceil, PartitionBuild.CellUnder;
    PartitionedMapOpens(P, spec, b, env);
    PartitionBuild.SidesAgree(env, bounds);
    PartitionBuild.LocateFindsSquare(env, bounds, PartitionBuild.RootPower(env), x, y, maxDepth);
  }
}
