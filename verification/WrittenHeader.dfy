/**
 * The header and footer a reader sees after a run, field by field.
 */
module WrittenHeader {
  import opened Bytes
  import opened Layout
  import opened Records
  import opened Sorting
  import opened Reader
  import opened WriterModel
  import opened Written
  import Directory

  /** Some stored record belongs to the layer. */
  predicate Present(d: seq<ChunkRecord>, id: LayerId) { exists k :: 0 <= k < |d| && d[k].key.layer == id }

  lemma FlagBits(s: State)
    ensures var f := Flags(s) as nat;
      && f < 32
      && (f % 2 == 1 <==> Present(s.directory, 0x3001))
      && (f / 2 % 2 == 1 <==> TlvGet(s.meta, 0x07).Some?)
      && (f / 4 % 2 == 1 <==> Present(s.directory, 0x3002))
      && (f / 8 % 2 == 1 <==> Present(s.directory, 0x2501))
      && (f / 16 % 2 == 1 <==> Present(s.directory, 0x3004))
  {
  }

  /** What the specification says is what the opened header says. */
  ghost predicate SpecIn(spec: Spec, h: Header) {
    && h.refLon == spec.refLon && h.refLat == spec.refLat && h.epsg == spec.epsg
    && h.x0 == spec.x0 && h.y0 == spec.y0 && h.x1 == spec.x1 && h.y1 == spec.y1
    && h.resCm == spec.resCm && h.chunkSize == spec.chunkSize && h.lodCount == spec.lodCount
  }

  /** Header and footer count and flag what the file holds. */
  ghost predicate CountsIn(P: Primitives, v: MapView, length: nat) {
    var h, f := v.header, v.footer;
    && h.major == f.major == 1 && h.minor == f.minor == 0
    && h.layerCount == |v.layers| && f.layerCount == |v.layers|
    && f.recordCount == |v.directory| && f.chunkCount == |v.directory| && f.nodeCount == |v.skeleton|
    && f.fileLen == length && h.footerOffset == length - 64
    && f.dirOffset == h.dirOffset && f.dirLen == h.dirLen == 32 * |v.directory|
    && h.featureDim == P.featureDim(TlvGet(v.meta, 0x03))
    && f.flags == h.flags && h.flags < 32
    && (h.flags % 2 == 1 <==> Present(v.directory, 0x3001))
    && (h.flags / 2 % 2 == 1 <==> TlvGet(v.meta, 0x07).Some?)
    && (h.flags / 4 % 2 == 1 <==> Present(v.directory, 0x3002))
    && (h.flags / 8 % 2 == 1 <==> Present(v.directory, 0x2501))
    && (h.flags / 16 % 2 == 1 <==> Present(v.directory, 0x3004))
    && v.dict == (match TlvGet(v.meta, 0x07) case None => None case Some(bytes) => if bytes == [] then None else Some(bytes))
  }

  lemma {:induction false} SpecKept(P: Primitives, spec: Spec, ops: seq<Op>)
    ensures Run(P, spec, ops).spec == spec
  {
    hide PrologueBody, PrologueOf, FinalMeta;
    if ops != [] {
      SpecKept(P, spec, ops[..|ops| - 1]);
    }
  }

  lemma StateHeader(P: Primitives, t: State, ops: seq<Op>)
    requires Over(P, t, ops)
    ensures var h, f := HeaderOf(P, t), FooterIn(P, t);
      && SpecIn(t.spec, h)
      && h.major == f.major == 1 && h.minor == f.minor == 0
      && h.layerCount == |t.layers| && f.layerCount == |t.layers|
      && f.recordCount == |t.directory| && f.chunkCount == |t.directory| && f.nodeCount == |t.skeleton|
      && f.dirOffset == h.dirOffset && f.dirLen == h.dirLen
      && f.flags == h.flags == Flags(t) && h.featureDim == P.featureDim(TlvGet(t.meta, 0x03))
  {
    StateSizes(P, t, ops);
    hide Inv, Representable, PrologueBody, MetaBytes, TlvBytes, FinalMeta, Flags, Flatten, TlvFits, TlvGet, ComposeHash, HeaderBytes, FooterBytes;
  }

  lemma StateSizes(P: Primitives, t: State, ops: seq<Op>)
    requires Over(P, t, ops)
    ensures |t.layers| <= 0xFFFF && |t.directory| < 0x1_0000_0000 && |t.skeleton| < 0x1_0000_0000
  {
  }

  lemma DictIs(meta: seq<TlvRecord>)
    ensures DictOf(meta) == match TlvGet(meta, 0x07) case None => None case Some(bytes) => if bytes == [] then None else Some(bytes)
  {
  }

  lemma OpenedDict(P: Primitives, img: seq<byte>)
    requires Open(P, img).Ok?
    ensures Open(P, img).value.dict == DictOf(Open(P, img).value.meta)
  {
    hide OpenFrame, ReadMeta, ReadDirectory, ReadSkeleton, FindStale, LayersOf, DictOf;
  }

  /** The opened header says what the specification said, and counts and flags what is there. */
  lemma HeaderTells(P: Primitives, spec: Spec, ops: seq<Op>)
    requires P.Lawful() && Representable(P, Run(P, spec, ops))
    requires Open(P, Image(P, spec, ops)).Ok?
    ensures var img := Image(P, spec, ops); var v := Open(P, img).value;
      SpecIn(spec, v.header) && CountsIn(P, v, |img|)
  {
    var t, img := Final(P, spec, ops), Image(P, spec, ops);
    FinalOver(P, spec, ops);
    FinalSpec(P, spec, ops);
    OpenedExactly(P, t, ops);
    Addresses(P, t, ops);
    StateHeader(P, t, ops);
    FlagBits(t);
    SortByCorrect(t.skeleton, Morton);
    OpenedDict(P, img);
    DictIs(t.meta);
    hide Final, Image, HeaderOf, FooterOf, FooterIn, Open, Seal, Flags, Over, Acceptable, DictOf, TlvGet, SortBy, PrologueBody, MetaBytes, Present, SkeletonOffset;
    ImageSize(P, t);
  }

  lemma ImageSize(P: Primitives, t: State)
    requires t.prologue.Some?
    ensures |SealedImage(P, t)| == FRAME_SIZE + |Mid(t)|
  {
    hide HeaderOf, FooterOf;
  }

  lemma FinalSpec(P: Primitives, spec: Spec, ops: seq<Op>)
    ensures Final(P, spec, ops).spec == spec
  {
    SpecKept(P, spec, ops);
    hide PrologueBody, PrologueOf, FinalMeta, Run;
  }
}
