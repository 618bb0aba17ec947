/**
 * The writer as a state machine: metadata settings and chunk writes in any order and number,
 * then one finish. The class in Writer.dfy is proved to take exactly these steps.
 */
module WriterModel {
  import opened Bytes
  import opened Layout
  import opened Records
  import opened Reader
  import Directory

  datatype Spec = Spec(
    refLon: u64, refLat: u64, epsg: u32, x0: u32, y0: u32, x1: u32, y1: u32,
    resCm: u16, chunkSize: u16, lodCount: u8)

  /** A seekable sink: writing overlays what is there and extends past the end. */
  datatype Sink = Sink(bytes: seq<byte>, pos: nat) {
    predicate Valid() { pos <= |bytes| }

    function Write(data: seq<byte>): (s: Sink)
      requires Valid()
      ensures s.Valid() && s.pos == pos + |data|
    {
      var end := pos + |data|;
      Sink(bytes[..pos] + data + (if end < |bytes| then bytes[end..] else []), end)
    }

    function Rewind(): Sink { Sink(bytes, 0) }
  }

  datatype Prologue = Prologue(metaOffset: u64, metaLen: u32, extOffset: u64, extLen: u32)

  datatype State = State(
    spec: Spec, meta: seq<TlvRecord>, ext: seq<TlvRecord>, skeleton: seq<QNode>, layers: seq<LayerDesc>,
    directory: seq<ChunkRecord>, sink: Sink, hashed: seq<byte>, prologue: Option<Prologue>)

  datatype Op =
    | SetMeta(record: TlvRecord)
    | PushExt(record: TlvRecord)
    | SetLayer(desc: LayerDesc)
    | SetSkeleton(nodes: seq<QNode>)
    | WriteChunk(key: Key, codec: u8, stored: seq<byte>, rawLen: nat)

  function Init(spec: Spec): State {
    State(spec, [], [], [], [], [], Sink([], 0), [], None)
  }

  function Cast32(n: nat): (c: u32)
    ensures n < 0x1_0000_0000 ==> c == n
  {
    n % 0x1_0000_0000
  }

  function Cast64(n: nat): (c: u64)
    ensures n < 0x1_0000_0000_0000_0000 ==> c == n
  {
    n % 0x1_0000_0000_0000_0000
  }

  function SetDesc(layers: seq<LayerDesc>, desc: LayerDesc): seq<LayerDesc> {
    if layers == [] then [desc]
    else if layers[0].id == desc.id then [desc] + layers[1..]
    else [layers[0]] + SetDesc(layers[1..], desc)
  }

  predicate DescAccepted(spec: Spec, desc: LayerDesc) {
    && desc.channels != 0
    && (IsChunked(desc.kind) ==>
          ChunkShape(spec.chunkSize, spec.chunkSize, desc.channels, desc.dtype).TotalBytes() <= MAX_RAW_CHUNK_BYTES)
  }

  /** The meta block as written: the layer table is set last, over whatever was there. */
  function FinalMeta(s: State): seq<TlvRecord> {
    TlvSet(s.meta, TlvRecord(TAG_LAYER_TABLE, LayerTableBytes(s.layers)))
  }

  function MetaBytes(P: Primitives, s: State): seq<byte> { P.zstd(TlvBytes(FinalMeta(s))) }

  /** Meta block, extension area, padding to a multiple of eight, skeleton. */
  function PrologueBody(P: Primitives, s: State): seq<byte> {
    var areas := MetaBytes(P, s) + TlvBytes(s.ext);
    areas + Zeros(Align8(HEADER_SIZE + |areas|) - (HEADER_SIZE + |areas|)) + Flatten(s.skeleton, NodeBytes)
  }

  function PrologueOf(P: Primitives, s: State): Prologue {
    var meta, ext := MetaBytes(P, s), TlvBytes(s.ext);
    Prologue(HEADER_SIZE, Cast32(|meta|), if ext == [] then 0 else Cast64(HEADER_SIZE + |meta|), Cast32(|ext|))
  }

  /** Runs once: the first chunk or the finish freezes the metadata into the file. */
  function EnsurePrologue(P: Primitives, s: State): State
    requires s.sink.Valid()
  {
    if s.prologue.Some? then s else
    var body := PrologueBody(P, s);
    s.(meta := FinalMeta(s),
       sink := s.sink.Rewind().Write(Zeros(HEADER_SIZE)).Write(body),
       hashed := s.hashed + body,
       prologue := Some(PrologueOf(P, s)))
  }

  predicate SizesFit(stored: seq<byte>, rawLen: nat) {
    |stored| < 0x1_0000_0000 && rawLen < 0x1_0000_0000
  }

  function RecordFor(P: Primitives, pos: nat, key: Key, codec: u8, stored: seq<byte>, rawLen: nat): ChunkRecord
    requires SizesFit(stored, rawLen)
  {
    ChunkRecord(key, codec, Cast64(pos), |stored|, rawLen, P.crc32(stored), 0)
  }

  /** One call and whether it succeeded. A chunk too long for its field is hashed, then reported. */
  function Step(P: Primitives, s: State, op: Op): (State, bool)
    requires s.sink.Valid()
  {
    match op
    case SetMeta(record) =>
      if s.prologue.Some? then (s, false) else (s.(meta := TlvSet(s.meta, record)), true)
    case PushExt(record) =>
      if s.prologue.Some? then (s, false) else (s.(ext := s.ext + [record]), true)
    case SetLayer(desc) =>
      if s.prologue.Some? || !DescAccepted(s.spec, desc) then (s, false)
      else (s.(layers := SetDesc(s.layers, desc)), true)
    case SetSkeleton(nodes) =>
      if s.prologue.Some? then (s, false) else (s.(skeleton := nodes), true)
    case WriteChunk(key, codec, stored, rawLen) =>
      var t := EnsurePrologue(P, s);
      var u := t.(sink := t.sink.Write(stored), hashed := t.hashed + stored);
      if !SizesFit(stored, rawLen) then (u, false)
      else
        (u.(directory := Directory.Upsert(t.directory, RecordFor(P, t.sink.pos, key, codec, stored, rawLen))), true)
  }

  function Run(P: Primitives, spec: Spec, ops: seq<Op>): (s: State)
    ensures s.sink.Valid()
  {
    if ops == [] then Init(spec) else
    var s := Run(P, spec, ops[..|ops| - 1]);
    StepKeepsSink(P, s, ops[|ops| - 1]);
    Step(P, s, ops[|ops| - 1]).0
  }

  lemma StepKeepsSink(P: Primitives, s: State, op: Op)
    requires s.sink.Valid()
    ensures Step(P, s, op).0.sink.Valid()
  {
  }

  function Flag(d: seq<ChunkRecord>, id: LayerId, bit: nat): nat {
    if exists k :: 0 <= k < |d| && d[k].key.layer == id then bit else 0
  }

  function Flags(s: State): u32 {
    Flag(s.directory, PRM_GRAPH, 1) + (if TlvGet(s.meta, TAG_ZSTD_DICT).Some? then 2 else 0)
    + Flag(s.directory, KPATH_LIBRARY, 4) + Flag(s.directory, REGIONS, 8) + Flag(s.directory, VECTORS, 16)
  }

  function DirBytes(s: State): seq<byte> { Flatten(s.directory, RecordBytes) }

  /** Header and footer of a state whose prologue is written. */
  function HeaderOf(P: Primitives, s: State): Header
    requires s.prologue.Some?
  {
    var p := s.prologue.value;
    var dirOffset := HEADER_SIZE + |s.hashed|;
    Header(VERSION_MAJOR, VERSION_MINOR, Flags(s), s.spec.refLon, s.spec.refLat, s.spec.epsg,
           s.spec.x0, s.spec.y0, s.spec.x1, s.spec.y1, s.spec.resCm, s.spec.chunkSize, s.spec.lodCount,
           P.featureDim(TlvGet(s.meta, TAG_FEATURE_SCHEMA)),
           if |s.layers| < 0xFFFF then |s.layers| else 0xFFFF,
           p.metaOffset, p.metaLen, Cast64(dirOffset), Cast32(|DirBytes(s)|),
           Cast64(dirOffset + |DirBytes(s)|), p.extOffset, p.extLen)
  }

  function FooterOf(s: State): Footer {
    var dirOffset := HEADER_SIZE + |s.hashed|;
    Footer(VERSION_MAJOR, VERSION_MINOR, Flags(s), Cast32(|DirBytes(s)|), Cast64(dirOffset),
           Cast32(|s.directory|), Cast32(|s.directory|), Cast32(|s.skeleton|), Cast32(|s.layers|),
           Cast64(dirOffset + |DirBytes(s)| + FOOTER_SIZE), 0)
  }

  function Finished(P: Primitives, s: State): seq<byte>
    requires s.sink.Valid()
  {
    var t := EnsurePrologue(P, s);
    Seal(P, HeaderOf(P, t), t.hashed + DirBytes(t), FooterOf(t))
  }

  /** Sizes that must fit their on-disk fields; the code casts without checking. */
  ghost predicate Representable(P: Primitives, s: State)
    requires s.sink.Valid()
  {
    var t := EnsurePrologue(P, s);
    && |MetaBytes(P, t)| < 0x1_0000_0000 && |TlvBytes(t.ext)| < 0x1_0000_0000
    && TlvFits(FinalMeta(t)) && |t.layers| <= 0xFFFF
    && RECORD_SIZE * |t.directory| < 0x1_0000_0000 && |t.skeleton| < 0x1_0000_0000
    && FRAME_SIZE + |t.hashed| + RECORD_SIZE * |t.directory| < 0x1_0000_0000_0000_0000
  }

  datatype Chunk = Chunk(codec: u8, stored: seq<byte>, rawLen: u32)

  /** The last write of an address that was recorded. */
  function LastWrite(ops: seq<Op>, key: Key): Option<Chunk> {
    if ops == [] then None else
    var op := ops[|ops| - 1];
    if op.WriteChunk? && op.key == key && SizesFit(op.stored, op.rawLen)
    then Some(Chunk(op.codec, op.stored, op.rawLen))
    else LastWrite(ops[..|ops| - 1], key)
  }

  /** A record and the bytes it stands for, as they lie behind the header placeholder. */
  ghost predicate Holds(P: Primitives, hashed: seq<byte>, start: nat, r: ChunkRecord, c: Chunk) {
    && start <= r.offset - HEADER_SIZE
    && r.offset - HEADER_SIZE + r.compLen <= |hashed|
    && hashed[r.offset - HEADER_SIZE..r.offset - HEADER_SIZE + r.compLen] == c.stored
    && r.codec == c.codec && r.rawLen == c.rawLen && r.crc == P.crc32(c.stored) && r.flags == 0
  }

  /** What every step keeps. */
  ghost predicate Inv(P: Primitives, s: State, ops: seq<Op>) {
    && s.sink.Valid()
    && Directory.Strict(s.directory)
    && (s.prologue.None? ==> s.sink == Sink([], 0) && s.hashed == [] && s.directory == []
                             && forall key :: LastWrite(ops, key).None?)
    && (s.prologue.Some? ==>
          && s.sink.bytes == Zeros(HEADER_SIZE) + s.hashed && s.sink.pos == |s.sink.bytes|
          && s.meta == FinalMeta(s)
          && PrologueBody(P, s) <= s.hashed
          && s.prologue.value == PrologueOf(P, s)
          && (Addressable(s.hashed) ==>
                forall key :: RecordedAt(P, s.directory, s.hashed, |PrologueBody(P, s)|, ops, key)))
  }

  /** Positions behind the header placeholder fit the 64-bit offset field. */
  ghost predicate Addressable(hashed: seq<byte>) {
    HEADER_SIZE + |hashed| < 0x1_0000_0000_0000_0000
  }

  ghost predicate RecordedAt(P: Primitives, d: seq<ChunkRecord>, hashed: seq<byte>, start: nat, ops: seq<Op>, key: Key) {
    match LastWrite(ops, key)
    case None => Directory.Find(d, key).None?
    case Some(c) => Directory.Find(d, key).Some? && Holds(P, hashed, start, Directory.Find(d, key).value, c)
  }

  lemma {:induction false} TlvSetTwice(records: seq<TlvRecord>, r: TlvRecord)
    ensures TlvSet(TlvSet(records, r), r) == TlvSet(records, r)
  {
    if records != [] && records[0].tag != r.tag {
      TlvSetTwice(records[1..], r);
      assert TlvSet(records, r)[1..] == TlvSet(records[1..], r);
    }
  }

  lemma PrologueInv(P: Primitives, s: State, ops: seq<Op>)
    requires Inv(P, s, ops)
    ensures Inv(P, EnsurePrologue(P, s), ops) && EnsurePrologue(P, s).prologue.Some?
  {
    if s.prologue.None? {
      var t := EnsurePrologue(P, s);
      TlvSetTwice(s.meta, TlvRecord(TAG_LAYER_TABLE, LayerTableBytes(s.layers)));
      assert FinalMeta(t) == t.meta;
      assert s.sink.Rewind().Write(Zeros(HEADER_SIZE)).bytes == Zeros(HEADER_SIZE);
      assert s.sink.Rewind().Write(Zeros(HEADER_SIZE)).Write(PrologueBody(P, s)).bytes
          == Zeros(HEADER_SIZE) + PrologueBody(P, s);
      assert t.hashed == PrologueBody(P, s) == PrologueBody(P, t);
    }
  }

  /** Appending bytes keeps every record's own bytes. */
  lemma HoldsLonger(P: Primitives, hashed: seq<byte>, more: seq<byte>, start: nat, r: ChunkRecord, c: Chunk)
    requires Holds(P, hashed, start, r, c)
    ensures Holds(P, hashed + more, start, r, c)
  {
    var a := r.offset - HEADER_SIZE;
    assert (hashed + more)[a..a + r.compLen] == hashed[a..a + r.compLen];
  }

  lemma ChunkInv(P: Primitives, s: State, ops: seq<Op>, op: Op)
    requires Inv(P, s, ops) && s.prologue.Some? && op.WriteChunk?
    ensures Inv(P, Step(P, s, op).0, ops + [op])
  {
    var u := Step(P, s, op).0;
    assert u.sink.bytes == Zeros(HEADER_SIZE) + u.hashed;
    SamePrologue(P, s, u);
    StoredOrdered(P, s, op);
    hide PrologueBody, PrologueOf, FinalMeta, LastWrite, Directory.Strict;
    if Addressable(u.hashed) {
      forall key ensures RecordedAt(P, u.directory, u.hashed, |PrologueBody(P, s)|, ops + [op], key) {
        assert RecordedAt(P, s.directory, s.hashed, |PrologueBody(P, s)|, ops, key);
        ChunkRecorded(P, s, ops, op, |PrologueBody(P, s)|, key);
      }
    }
  }

  lemma SamePrologue(P: Primitives, s: State, u: State)
    requires s.meta == u.meta && s.ext == u.ext && s.skeleton == u.skeleton && s.layers == u.layers
    ensures FinalMeta(u) == FinalMeta(s) && PrologueBody(P, u) == PrologueBody(P, s) && PrologueOf(P, u) == PrologueOf(P, s)
  {
  }

  lemma StoredOrdered(P: Primitives, s: State, op: Op)
    requires s.sink.Valid() && s.prologue.Some? && op.WriteChunk? && Directory.Strict(s.directory)
    ensures Directory.Strict(Step(P, s, op).0.directory)
  {
    if SizesFit(op.stored, op.rawLen) {
      Directory.UpsertKeepsOrder(s.directory, RecordFor(P, s.sink.pos, op.key, op.codec, op.stored, op.rawLen));
    }
  }

  /** Looking an address up after a write: the new record, or what was there. */
  lemma FindAfterWrite(P: Primitives, s: State, op: Op, key: Key)
    requires s.sink.Valid() && s.prologue.Some? && op.WriteChunk? && Directory.Strict(s.directory)
    ensures Directory.Find(Step(P, s, op).0.directory, key)
         == if key == op.key && SizesFit(op.stored, op.rawLen)
            then Some(RecordFor(P, s.sink.pos, op.key, op.codec, op.stored, op.rawLen))
            else Directory.Find(s.directory, key)
  {
    if SizesFit(op.stored, op.rawLen) {
      Directory.UpsertFinds(s.directory, RecordFor(P, s.sink.pos, op.key, op.codec, op.stored, op.rawLen));
    }
  }

  lemma LastWriteAfter(ops: seq<Op>, op: Op, key: Key)
    requires op.WriteChunk?
    ensures LastWrite(ops + [op], key)
         == if key == op.key && SizesFit(op.stored, op.rawLen) then Some(Chunk(op.codec, op.stored, op.rawLen))
            else LastWrite(ops, key)
  {
    assert (ops + [op])[..|ops + [op]| - 1] == ops;
  }

  lemma ChunkRecorded(P: Primitives, s: State, ops: seq<Op>, op: Op, start: nat, key: Key)
    requires s.sink.Valid() && s.prologue.Some? && op.WriteChunk? && Directory.Strict(s.directory)
    requires s.sink.pos == HEADER_SIZE + |s.hashed| && start <= |s.hashed| && Addressable(s.hashed + op.stored)
    requires RecordedAt(P, s.directory, s.hashed, start, ops, key)
    ensures RecordedAt(P, Step(P, s, op).0.directory, s.hashed + op.stored, start, ops + [op], key)
  {
    FindAfterWrite(P, s, op, key);
    LastWriteAfter(ops, op, key);
    hide LastWrite, Directory.Find, Step, Directory.Strict;
    if key == op.key && SizesFit(op.stored, op.rawLen) {
      assert (s.hashed + op.stored)[|s.hashed|..|s.hashed| + |op.stored|] == op.stored;
    } else if LastWrite(ops, key).Some? {
      HoldsLonger(P, s.hashed, op.stored, start, Directory.Find(s.directory, key).value, LastWrite(ops, key).value);
    }
  }

  lemma MetaInv(P: Primitives, s: State, ops: seq<Op>, op: Op)
    requires Inv(P, s, ops) && !op.WriteChunk?
    ensures Inv(P, Step(P, s, op).0, ops + [op])
  {
    forall key ensures LastWrite(ops + [op], key) == LastWrite(ops, key) {
      assert (ops + [op])[..|ops + [op]| - 1] == ops;
    }
    var u := Step(P, s, op).0;
    hide LastWrite, PrologueBody, PrologueOf, FinalMeta, Directory.Strict, Directory.Find;
    if s.prologue.Some? {
      assert u == s;
      if Addressable(s.hashed) {
        forall key ensures RecordedAt(P, s.directory, s.hashed, |PrologueBody(P, s)|, ops + [op], key) {
          assert RecordedAt(P, s.directory, s.hashed, |PrologueBody(P, s)|, ops, key);
        }
      }
    }
  }

  /** Every run keeps the invariant. */
  lemma {:induction false} RunInv(P: Primitives, spec: Spec, ops: seq<Op>)
    ensures Inv(P, Run(P, spec, ops), ops)
  {
    if ops != [] {
      var before := ops[..|ops| - 1];
      var op := ops[|ops| - 1];
      RunInv(P, spec, before);
      assert ops == before + [op];
      var s := Run(P, spec, before);
      StepKeepsSink(P, s, op);
      if op.WriteChunk? {
        PrologueInv(P, s, before);
        ChunkInv(P, EnsurePrologue(P, s), before, op);
        assert Step(P, s, op) == Step(P, EnsurePrologue(P, s), op);
      } else {
        MetaInv(P, s, before, op);
      }
    }
  }
}
