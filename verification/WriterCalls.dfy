/**
 * What a reader finds in a file, told by the calls that wrote it: metadata, layers, skeleton and
 * extension records are those of the calls made before the first chunk, and no later call adds.
 */
module WriterCalls {
  import opened Bytes
  import opened Layout
  import opened Records
  import opened Sorting
  import opened Reader
  import opened WriterModel
  import opened Written
  import Fingerprint

  /** A chunk was written, which freezes the metadata. */
  predicate Frozen(ops: seq<Op>) { exists i :: 0 <= i < |ops| && ops[i].WriteChunk? }

  /** The bytes of one full chunk of a layer. */
  function ChunkBytes(n: nat, desc: LayerDesc): nat {
    if desc.dtype == 4 then (n * desc.channels + 7) / 8 * n
    else n * (desc.channels * (if desc.dtype in {0, 1} then 4 else if desc.dtype in {2, 5} then 2 else 1)) * n
  }

  /** A layer the writer takes: it has channels, and its chunks are at most 256 MiB. */
  predicate Accepted(spec: Spec, desc: LayerDesc) {
    desc.channels >= 1 && (desc.kind in {0, 3} ==> ChunkBytes(spec.chunkSize, desc) <= 0x1000_0000)
  }

  lemma AcceptedExactly(spec: Spec, desc: LayerDesc)
    ensures DescAccepted(spec, desc) <==> Accepted(spec, desc)
  {
  }

  /** The extension records in the order they were pushed. */
  function Pushed(ops: seq<Op>): seq<TlvRecord> {
    if ops == [] then []
    else
      var before, op := ops[..|ops| - 1], ops[|ops| - 1];
      Pushed(before) + (if op.PushExt? && !Frozen(before) then [op.record] else [])
  }

  /** The skeleton that was set last. */
  function SkeletonSet(ops: seq<Op>): seq<QNode> {
    if ops == [] then []
    else
      var before, op := ops[..|ops| - 1], ops[|ops| - 1];
      if op.SetSkeleton? && !Frozen(before) then op.nodes else SkeletonSet(before)
  }

  /** The value a tag was set to last. */
  function MetaSet(ops: seq<Op>, tag: u32): Option<seq<byte>> {
    if ops == [] then None
    else
      var before, op := ops[..|ops| - 1], ops[|ops| - 1];
      if op.SetMeta? && op.record.tag == tag && !Frozen(before) then Some(op.record.value) else MetaSet(before, tag)
  }

  /** The descriptor a layer was registered with last. */
  function LayerSet(spec: Spec, ops: seq<Op>, id: LayerId): Option<LayerDesc> {
    if ops == [] then None
    else
      var before, op := ops[..|ops| - 1], ops[|ops| - 1];
      if op.SetLayer? && op.desc.id == id && Accepted(spec, op.desc) && !Frozen(before) then Some(op.desc)
      else LayerSet(spec, before, id)
  }

  lemma FrozenOn(ops: seq<Op>, op: Op)
    ensures Frozen(ops + [op]) <==> Frozen(ops) || op.WriteChunk?
  {
    if i :| 0 <= i < |ops| && ops[i].WriteChunk? {
      assert (ops + [op])[i].WriteChunk?;
    }
    if op.WriteChunk? {
      assert (ops + [op])[|ops|].WriteChunk?;
    }
  }

  /** Registering a descriptor is the update of one id, in place if it is known. */
  lemma {:induction false} SetDescIsUpdate(layers: seq<LayerDesc>, d: LayerDesc, id: LayerId)
    ensures DescOf(SetDesc(layers, d), id) == if id == d.id then Some(d) else DescOf(layers, id)
    ensures |SetDesc(layers, d)| == |layers| + (if DescOf(layers, d.id).Some? then 0 else 1)
  {
    if layers != [] {
      SetDescIsUpdate(layers[1..], d, id);
    }
  }

  /** What a state holds, by the calls. */
  ghost predicate Told(spec: Spec, ops: seq<Op>, s: State) {
    && s.spec == spec && s.ext == Pushed(ops) && s.skeleton == SkeletonSet(ops)
    && (s.prologue.Some? <==> Frozen(ops))
    && (forall id :: DescOf(s.layers, id) == LayerSet(spec, ops, id))
    && (forall tag :: tag != TAG_LAYER_TABLE ==> TlvGet(s.meta, tag) == MetaSet(ops, tag))
  }

  lemma FrozenTold(P: Primitives, spec: Spec, ops: seq<Op>, s: State)
    requires s.sink.Valid() && Told(spec, ops, s)
    ensures var t := EnsurePrologue(P, s);
      && t.spec == spec && t.ext == s.ext && t.skeleton == s.skeleton && t.layers == s.layers && t.prologue.Some?
      && (forall tag :: tag != TAG_LAYER_TABLE ==> TlvGet(t.meta, tag) == MetaSet(ops, tag))
  {
    hide PrologueBody, PrologueOf, TlvGet, TlvSet, MetaSet, LayerSet;
    forall tag: u32 ensures tag != TAG_LAYER_TABLE ==> TlvGet(FinalMeta(s), tag) == TlvGet(s.meta, tag) {
      TlvSetGet(s.meta, TlvRecord(TAG_LAYER_TABLE, LayerTableBytes(s.layers)), tag);
    }
  }

  lemma SetterTold(P: Primitives, spec: Spec, ops: seq<Op>, s: State, op: Op)
    requires s.sink.Valid() && Told(spec, ops, s) && !op.WriteChunk?
    ensures Told(spec, ops + [op], Step(P, s, op).0)
  {
    var more, u := ops + [op], Step(P, s, op).0;
    FrozenOn(ops, op);
    assert more[..|ops|] == ops && more[|ops|] == op;
    hide Frozen, DescAccepted, Accepted, TlvGet, TlvSet, SetDesc, DescOf;
    if op.SetLayer? { AcceptedExactly(spec, op.desc); }
    forall id: LayerId ensures DescOf(u.layers, id) == LayerSet(spec, more, id) {
      if op.SetLayer? { SetDescIsUpdate(s.layers, op.desc, id); }
    }
    forall tag: u32 | tag != TAG_LAYER_TABLE ensures TlvGet(u.meta, tag) == MetaSet(more, tag) {
      if op.SetMeta? { TlvSetGet(s.meta, op.record, tag); }
    }
  }

  /** A chunk sets nothing. */
  lemma ChunkSetsNothing(spec: Spec, ops: seq<Op>, op: Op)
    requires op.WriteChunk?
    ensures var more := ops + [op];
      && Pushed(more) == Pushed(ops) && SkeletonSet(more) == SkeletonSet(ops)
      && (forall id :: LayerSet(spec, more, id) == LayerSet(spec, ops, id))
      && (forall tag :: MetaSet(more, tag) == MetaSet(ops, tag))
  {
    var more := ops + [op];
    assert more[..|ops|] == ops && more[|ops|] == op;
    hide Frozen, Accepted;
  }

  lemma ChunkTold(P: Primitives, spec: Spec, ops: seq<Op>, s: State, op: Op)
    requires s.sink.Valid() && Told(spec, ops, s) && op.WriteChunk?
    ensures Told(spec, ops + [op], Step(P, s, op).0)
  {
    hide Frozen, TlvGet, DescOf, EnsurePrologue, Pushed, SkeletonSet, LayerSet, MetaSet;
    FrozenOn(ops, op);
    FrozenTold(P, spec, ops, s);
    ChunkSetsNothing(spec, ops, op);
  }

  lemma {:induction false} RunTold(P: Primitives, spec: Spec, ops: seq<Op>)
    ensures Told(spec, ops, Run(P, spec, ops))
  {
    if ops != [] {
      var before, op := ops[..|ops| - 1], ops[|ops| - 1];
      hide Told, Step;
      RunTold(P, spec, before);
      assert ops == before + [op];
      if op.WriteChunk? {
        ChunkTold(P, spec, before, Run(P, spec, before), op);
      } else {
        SetterTold(P, spec, before, Run(P, spec, before), op);
      }
    }
  }

  /**
   * The opened file by its calls: every tag but the layer table's has the value set last, every
   * layer its last accepted descriptor, the skeleton is the one set last, and the extension area
   * parses to the records pushed, in order; of each, those before the first chunk.
   */
  lemma OpenedByCalls(P: Primitives, spec: Spec, ops: seq<Op>)
    requires P.Lawful() && Representable(P, Run(P, spec, ops)) && TlvFits(Pushed(ops))
    requires Open(P, Image(P, spec, ops)).Ok?
    ensures var img := Image(P, spec, ops); var v := Open(P, img).value;
      && (forall tag :: tag != TAG_LAYER_TABLE ==> TlvGet(v.meta, tag) == MetaSet(ops, tag))
      && (forall id :: DescOf(v.layers, id) == LayerSet(spec, ops, id))
      && v.skeleton == SortBy(SkeletonSet(ops), Morton)
      && (Pushed(ops) == [] ==> v.header.extOffset == 0 && v.header.extLen == 0)
      && (Pushed(ops) != [] ==>
            && v.header.extOffset == v.header.metaOffset + v.header.metaLen
            && Region(img, v.header.extOffset, v.header.extLen) == Ok(TlvBytes(Pushed(ops)))
            && ParseTlv(TlvBytes(Pushed(ops))) == Ok(Pushed(ops)))
  {
    var s, t, img := Run(P, spec, ops), Final(P, spec, ops), Image(P, spec, ops);
    RunTold(P, spec, ops);
    FrozenTold(P, spec, ops, s);
    FinalOver(P, spec, ops);
    OpenedExactly(P, t, ops);
    ExtensionPlaced(P, t, ops);
    TlvRoundTrip(Pushed(ops));
    hide Run, Image, HeaderOf, FooterOf, FooterIn, Open, Seal, Over, Acceptable, TlvGet, SortBy, EnsurePrologue, TlvBytes,
         MetaSet, LayerSet, SkeletonSet, Pushed, DescOf;
  }

  /** The extension area lies between the meta block and the skeleton. */
  lemma ExtensionPlaced(P: Primitives, t: State, ops: seq<Op>)
    requires Over(P, t, ops)
    ensures var h := HeaderOf(P, t);
      && (t.ext == [] ==> h.extOffset == 0 && h.extLen == 0)
      && (t.ext != [] ==>
            && h.extOffset == h.metaOffset + h.metaLen && h.extLen == |TlvBytes(t.ext)|
            && Region(SealedImage(P, t), h.extOffset, h.extLen) == Ok(TlvBytes(t.ext)))
  {
    Addresses(P, t, ops);
    ExtensionAddress(P, t, ops);
    ExtensionInBody(P, t);
    var m := |MetaBytes(P, t)|;
    hide SealedImage, HeaderOf, FooterIn, PrologueBody, MetaBytes, DirBytes, TlvBytes, Over, SkeletonOffset;
    PrefixSlice(PrologueBody(P, t), Mid(t), m, m + |TlvBytes(t.ext)|);
    PieceLocated(P, t, m, TlvBytes(t.ext));
  }

  lemma ExtensionAddress(P: Primitives, t: State, ops: seq<Op>)
    requires Over(P, t, ops)
    ensures var h := HeaderOf(P, t);
      && h.extLen == |TlvBytes(t.ext)|
      && h.extOffset == if t.ext == [] then 0 else 128 + |MetaBytes(P, t)|
  {
    FrozenPrologue(P, t, ops);
    NotEmpty(t.ext);
    hide Inv, PrologueBody, MetaBytes, TlvBytes, FinalMeta, Flags, Flatten, TlvFits, TlvGet;
  }

  lemma NotEmpty(records: seq<TlvRecord>)
    ensures records == [] <==> TlvBytes(records) == []
  {
  }

  lemma ExtensionInBody(P: Primitives, s: State)
    ensures var m, e := |MetaBytes(P, s)|, |TlvBytes(s.ext)|;
      m + e <= |PrologueBody(P, s)| && PrologueBody(P, s)[m..m + e] == TlvBytes(s.ext)
  {
    hide MetaBytes, TlvBytes, Flatten, Zeros, Align8;
  }
}
