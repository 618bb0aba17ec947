/** What a finished run of the writer reads back as. */
module Written {
  import opened Bytes
  import opened Layout
  import opened Records
  import opened Sorting
  import opened Reader
  import opened WriterModel
  import Directory

  /** An image that opens and whose parts lie between the header and the footer. */
  ghost predicate WellFormed(P: Primitives, img: seq<byte>, v: MapView) {
    && |img| >= FRAME_SIZE
    && Open(P, img) == Ok(v)
    && Directory.Strict(v.directory)
    && (forall r :: r in v.directory ==> Inside(img, r.offset, r.compLen))
    && Inside(img, v.header.metaOffset, v.header.metaLen)
    && v.header.extOffset + v.header.extLen <= |img| - FOOTER_SIZE
    && (v.footer.nodeCount > 0 ==> SkeletonOffset(v.header) + v.footer.nodeCount * NODE_SIZE <= |img| - FOOTER_SIZE)
    && |v.skeleton| == v.footer.nodeCount
  }

  ghost predicate Inside(img: seq<byte>, off: nat, len: nat) {
    HEADER_SIZE <= off && off + len <= |img| - FOOTER_SIZE
  }

  /** What reading an address must give when its last stored chunk is `c`. */
  function Served(P: Primitives, v: MapView, key: Key, c: Option<Chunk>): Result<Option<seq<byte>>> {
    if key.layer in v.stale then Err(StaleDerived)
    else if c.None? then Ok(None)
    else if !P.supported(c.value.codec) then Err(UnsupportedCodec)
    else if DescOf(v.layers, key.layer).None? then Err(LayerNotFound)
    else
      var payload :- DecodeStored(P, v.header, DescOf(v.layers, key.layer).value, v.dict, key.level,
                                  c.value.codec, c.value.rawLen, c.value.stored);
      Ok(Some(payload))
  }

  /** The written state behind a run: metadata frozen, body and directory final. */
  function Final(P: Primitives, spec: Spec, ops: seq<Op>): State { EnsurePrologue(P, Run(P, spec, ops)) }

  function Image(P: Primitives, spec: Spec, ops: seq<Op>): seq<byte> { Finished(P, Run(P, spec, ops)) }

  lemma FinalInv(P: Primitives, spec: Spec, ops: seq<Op>)
    ensures Inv(P, Final(P, spec, ops), ops) && Final(P, spec, ops).prologue.Some?
  {
    RunInv(P, spec, ops);
    PrologueInv(P, Run(P, spec, ops), ops);
  }

  lemma NodesLength(nodes: seq<QNode>)
    ensures |Flatten(nodes, NodeBytes)| == NODE_SIZE * |nodes|
  {
    hide NodeBytes;
    forall n | n in nodes ensures |NodeBytes(n)| == NODE_SIZE { assert |NodeBytes(n)| == NODE_SIZE; }
    FlattenLength(nodes, NODE_SIZE, NodeBytes);
  }

  /** A piece of the body is found in the image at its body position plus the header size. */
  lemma Located(head: seq<byte>, body: seq<byte>, tail: seq<byte>, at: nat, piece: seq<byte>)
    requires |head| == HEADER_SIZE
    requires at + |piece| <= |body| && body[at..at + |piece|] == piece
    ensures Region(head + body + tail, HEADER_SIZE + at, |piece|) == Ok(piece)
  {
    var img := head + body + tail;
    assert img[HEADER_SIZE + at..HEADER_SIZE + at + |piece|] == body[at..at + |piece|];
  }

  lemma SealLocated(P: Primitives, h: Header, mid: seq<byte>, f: Footer, at: nat, piece: seq<byte>)
    requires at + |piece| <= |mid| && mid[at..at + |piece|] == piece
    ensures Region(Seal(P, h, mid, f), HEADER_SIZE + at, |piece|) == Ok(piece)
  {
    hide HeaderBytes, FooterBytes, ComposeHash;
    Located(HeaderBytes(P, h), mid, FooterBytes(SealedFooter(P, h, mid, f)), at, piece);
  }

  /** The prologue puts the meta block first and the skeleton at the aligned address. */
  lemma PrologueLayout(P: Primitives, s: State)
    ensures var body := PrologueBody(P, s);
            var meta, areas := MetaBytes(P, s), |MetaBytes(P, s)| + |TlvBytes(s.ext)|;
            var at := Align8(HEADER_SIZE + areas) - HEADER_SIZE;
            var nodes := Flatten(s.skeleton, NodeBytes);
            && |meta| <= |body| && body[..|meta|] == meta
            && at + |nodes| == |body| && body[at..] == nodes
            && areas <= |body|
  {
  }

  lemma PrefixSlice(a: seq<byte>, b: seq<byte>, i: nat, j: nat)
    requires a <= b && i <= j <= |a|
    ensures b[i..j] == a[i..j]
  {
  }

  function Mid(t: State): seq<byte> { t.hashed + DirBytes(t) }

  function FooterIn(P: Primitives, t: State): Footer
    requires t.prologue.Some?
  {
    SealedFooter(P, HeaderOf(P, t), Mid(t), FooterOf(t))
  }

  /** A state as it stands when the run is over. */
  ghost predicate Over(P: Primitives, t: State, ops: seq<Op>) {
    t.prologue.Some? && Inv(P, t, ops) && Representable(P, t)
  }

  lemma FinalOver(P: Primitives, spec: Spec, ops: seq<Op>)
    requires Representable(P, Run(P, spec, ops))
    ensures var t := Final(P, spec, ops);
            Over(P, t, ops) && Image(P, spec, ops) == SealedImage(P, t)
  {
    FinalInv(P, spec, ops);
  }

  lemma FrozenPrologue(P: Primitives, t: State, ops: seq<Op>)
    requires Over(P, t, ops)
    ensures PrologueBody(P, t) <= t.hashed && t.prologue.value == PrologueOf(P, t) && t.meta == FinalMeta(t)
    ensures Addressable(t.hashed)
  {
  }

  lemma FooterInFields(P: Primitives, t: State)
    requires t.prologue.Some?
    ensures FooterIn(P, t) == FooterOf(t).(fileHash := FooterIn(P, t).fileHash)
  {
  }

  /** Within representable sizes no cast loses anything. */
  lemma Addresses(P: Primitives, t: State, ops: seq<Op>)
    requires Over(P, t, ops)
    ensures var h, f, p := HeaderOf(P, t), FooterIn(P, t), PrologueBody(P, t);
            && p <= t.hashed && Addressable(t.hashed) && |DirBytes(t)| == RECORD_SIZE * |t.directory|
            && h.major == VERSION_MAJOR && h.minor == f.minor && f.major == VERSION_MAJOR
            && h.metaOffset == HEADER_SIZE && h.metaLen == |MetaBytes(P, t)|
            && h.dirOffset == HEADER_SIZE + |t.hashed| && h.dirLen == |DirBytes(t)|
            && h.footerOffset == HEADER_SIZE + |Mid(t)| && f.fileLen == FRAME_SIZE + |Mid(t)|
            && f.nodeCount == |t.skeleton|
            && SkeletonOffset(h) == HEADER_SIZE + |p| - NODE_SIZE * |t.skeleton|
            && HEADER_SIZE <= SkeletonOffset(h) && |MetaBytes(P, t)| <= |p|
            && h.extOffset + h.extLen <= HEADER_SIZE + |p|
  {
    hide HeaderOf, FooterIn, PrologueBody, MetaBytes, Flatten, DirBytes, Over, Align8, SkeletonOffset;
    FrozenPrologue(P, t, ops);
    DirectoryAddresses(P, t, ops);
    PrologueAddresses(P, t, ops);
  }

  lemma DirectoryAddresses(P: Primitives, t: State, ops: seq<Op>)
    requires Over(P, t, ops)
    ensures var h, f := HeaderOf(P, t), FooterIn(P, t);
            && |DirBytes(t)| == RECORD_SIZE * |t.directory|
            && h.major == VERSION_MAJOR && h.minor == f.minor && f.major == VERSION_MAJOR
            && h.dirOffset == HEADER_SIZE + |t.hashed| && h.dirLen == |DirBytes(t)|
            && h.footerOffset == HEADER_SIZE + |Mid(t)| && f.fileLen == FRAME_SIZE + |Mid(t)|
            && f.nodeCount == |t.skeleton|
  {
    hide Inv, Flatten, PrologueBody, MetaBytes, TlvBytes, FinalMeta, Flags, Cast32, Cast64, FooterIn, TlvFits, TlvGet;
    RecordsParse(t.directory);
    FooterInFields(P, t);
  }

  lemma PrologueAddresses(P: Primitives, t: State, ops: seq<Op>)
    requires Over(P, t, ops)
    ensures var h, p := HeaderOf(P, t), PrologueBody(P, t);
            && h.metaOffset == HEADER_SIZE && h.metaLen == |MetaBytes(P, t)|
            && SkeletonOffset(h) == HEADER_SIZE + |p| - NODE_SIZE * |t.skeleton|
            && HEADER_SIZE <= SkeletonOffset(h) && |MetaBytes(P, t)| <= |p|
            && h.extOffset + h.extLen <= HEADER_SIZE + |p|
  {
    hide Inv, Flatten, PrologueBody, MetaBytes, TlvBytes, FinalMeta, Flags, Cast32, Cast64, Align8, TlvFits, TlvGet, DirBytes;
    FrozenPrologue(P, t, ops);
    PrologueLayout(P, t);
    NodesLength(t.skeleton);
  }

  lemma MetaAndSkeletonPlaced(P: Primitives, t: State, ops: seq<Op>)
    requires Over(P, t, ops)
    ensures var mid, at := Mid(t), SkeletonOffset(HeaderOf(P, t)) - HEADER_SIZE;
            var nodes := Flatten(t.skeleton, NodeBytes);
            && |MetaBytes(P, t)| <= |mid| && mid[..|MetaBytes(P, t)|] == MetaBytes(P, t)
            && 0 <= at && at + |nodes| <= |mid| && mid[at..at + |nodes|] == nodes
            && |nodes| == NODE_SIZE * |t.skeleton|
  {
    Addresses(P, t, ops);
    NodesLength(t.skeleton);
    PrologueEnds(P, t);
    var p, at := PrologueBody(P, t), SkeletonOffset(HeaderOf(P, t)) - HEADER_SIZE;
    hide PrologueBody, MetaBytes, Flatten, HeaderOf, FooterIn, DirBytes, SkeletonOffset, Align8, Over;
    PrefixSlice(p, Mid(t), 0, |MetaBytes(P, t)|);
    PrefixSlice(p, Mid(t), at, |p|);
  }

  /** The prologue begins with the meta block and ends with the skeleton. */
  lemma PrologueEnds(P: Primitives, t: State)
    ensures var p, nodes := PrologueBody(P, t), Flatten(t.skeleton, NodeBytes);
            && |MetaBytes(P, t)| <= |p| && p[..|MetaBytes(P, t)|] == MetaBytes(P, t)
            && |nodes| <= |p| && p[|p| - |nodes|..] == nodes
  {
    hide MetaBytes, Flatten, TlvBytes, Zeros, Align8;
    PrologueLayout(P, t);
  }

  function SealedImage(P: Primitives, t: State): seq<byte>
    requires t.prologue.Some?
  {
    Seal(P, HeaderOf(P, t), Mid(t), FooterOf(t))
  }

  lemma PieceLocated(P: Primitives, t: State, at: nat, piece: seq<byte>)
    requires t.prologue.Some? && at + |piece| <= |Mid(t)| && Mid(t)[at..at + |piece|] == piece
    ensures Region(SealedImage(P, t), HEADER_SIZE + at, |piece|) == Ok(piece)
  {
    hide Seal, HeaderOf, FooterOf, Mid, Region;
    SealLocated(P, HeaderOf(P, t), Mid(t), FooterOf(t), at, piece);
  }

  lemma MetaLocated(P: Primitives, t: State, ops: seq<Op>)
    requires Over(P, t, ops)
    ensures var h := HeaderOf(P, t);
            Region(SealedImage(P, t), h.metaOffset, h.metaLen) == Ok(P.zstd(TlvBytes(t.meta)))
  {
    Addresses(P, t, ops);
    MetaAndSkeletonPlaced(P, t, ops);
    assert MetaBytes(P, t) == P.zstd(TlvBytes(t.meta));
    hide SealedImage, PrologueBody, MetaBytes, Flatten, HeaderOf, FooterIn, FooterOf, Over, SkeletonOffset, Mid, Region;
    PieceLocated(P, t, 0, MetaBytes(P, t));
  }

  lemma SkeletonLocated(P: Primitives, t: State, ops: seq<Op>)
    requires Over(P, t, ops)
    ensures Region(SealedImage(P, t), SkeletonOffset(HeaderOf(P, t)), |t.skeleton| * NODE_SIZE)
         == Ok(Flatten(t.skeleton, NodeBytes))
  {
    Addresses(P, t, ops);
    MetaAndSkeletonPlaced(P, t, ops);
    hide SealedImage, PrologueBody, MetaBytes, Flatten, HeaderOf, FooterIn, FooterOf, Over, SkeletonOffset, Mid, Region;
    PieceLocated(P, t, SkeletonOffset(HeaderOf(P, t)) - HEADER_SIZE, Flatten(t.skeleton, NodeBytes));
  }

  lemma DirectoryLocated(P: Primitives, t: State, ops: seq<Op>)
    requires Over(P, t, ops)
    ensures var h := HeaderOf(P, t);
            Region(SealedImage(P, t), h.dirOffset, h.dirLen) == Ok(Flatten(t.directory, RecordBytes))
  {
    Addresses(P, t, ops);
    var mid := Mid(t);
    assert mid[|t.hashed|..|t.hashed| + |DirBytes(t)|] == DirBytes(t);
    hide SealedImage, PrologueBody, MetaBytes, Flatten, HeaderOf, FooterIn, FooterOf, Over, SkeletonOffset, Mid, Region;
    PieceLocated(P, t, |t.hashed|, DirBytes(t));
  }

  lemma RunBodyHolds(P: Primitives, t: State, ops: seq<Op>)
    requires Over(P, t, ops)
    ensures BodyHolds(P, SealedImage(P, t), HeaderOf(P, t), FooterIn(P, t), t.meta, t.directory, t.skeleton)
  {
    Addresses(P, t, ops);
    hide SealedImage, PrologueBody, MetaBytes, Flatten, HeaderOf, FooterIn, FooterOf, Over, SkeletonOffset, Mid, Region, TlvBytes;
    MetaLocated(P, t, ops);
    SkeletonLocated(P, t, ops);
    DirectoryLocated(P, t, ops);
  }

  /** A run that decodes: distinct skeleton keys, a valid grid, a readable fingerprint table if one is needed. */
  ghost predicate Acceptable(P: Primitives, t: State)
    requires t.prologue.Some?
  {
    && NoRepeats(MapSeq(Morton, t.skeleton))
    && P.gridOk(HeaderOf(P, t).Shape())
    && (HasDerived(t.layers) ==> EntriesOf(P, t.meta).Ok?)
  }

  lemma FinishedAssembles(P: Primitives, t: State, ops: seq<Op>)
    requires P.Lawful() && Over(P, t, ops)
    ensures Open(P, SealedImage(P, t))
         == Assembled(P, HeaderOf(P, t), FooterIn(P, t), t.meta, t.directory, t.skeleton)
    ensures LayersOf(t.meta) == Ok(t.layers)
  {
    Addresses(P, t, ops);
    RunBodyHolds(P, t, ops);
    LayerTableRoundTrip(t.layers);
    TlvSetGet(t.meta, TlvRecord(TAG_LAYER_TABLE, LayerTableBytes(t.layers)), TAG_LAYER_TABLE);
    var h, f := HeaderOf(P, t), FooterOf(t);
    SealedFrameOpens(P, h, Mid(t), f);
    hide HeaderOf, Seal, SealedFooter, PrologueBody, MetaBytes, BodyHolds, Assembled, OpenBody, OpenFrame, RecordedAt, Flatten;
    BodyOpens(P, SealedImage(P, t), h, FooterIn(P, t), t.meta, t.directory, t.skeleton);
  }

  lemma RecordInside(P: Primitives, t: State, ops: seq<Op>, r: ChunkRecord)
    requires Over(P, t, ops) && r in t.directory
    ensures Inside(SealedImage(P, t), r.offset, r.compLen)
  {
    Addresses(P, t, ops);
    var i :| 0 <= i < |t.directory| && t.directory[i] == r;
    Directory.FindAt(t.directory, i);
    hide Seal, HeaderOf, FooterOf, PrologueBody, Flatten, LastWrite;
    assert RecordedAt(P, t.directory, t.hashed, |PrologueBody(P, t)|, ops, r.key);
  }

  lemma StoredLocated(P: Primitives, t: State, ops: seq<Op>, key: Key)
    requires Over(P, t, ops) && LastWrite(ops, key).Some?
    ensures Directory.Find(t.directory, key).Some?
    ensures ReadStored(P, SealedImage(P, t), Directory.Find(t.directory, key).value)
         == Ok(LastWrite(ops, key).value.stored)
  {
    Addresses(P, t, ops);
    hide SealedImage, PrologueBody, HeaderOf, FooterOf, LastWrite, Directory.Find, ReadStored;
    assert RecordedAt(P, t.directory, t.hashed, |PrologueBody(P, t)|, ops, key);
    HeldLocated(P, t, |PrologueBody(P, t)|, Directory.Find(t.directory, key).value, LastWrite(ops, key).value);
  }

  lemma HeldLocated(P: Primitives, t: State, start: nat, r: ChunkRecord, c: Chunk)
    requires t.prologue.Some? && Holds(P, t.hashed, start, r, c)
    ensures ReadStored(P, SealedImage(P, t), r) == Ok(c.stored)
  {
    var mid, at := Mid(t), r.offset - HEADER_SIZE;
    hide DirBytes, Seal, HeaderOf, FooterOf, Region;
    PrefixSlice(t.hashed, mid, at, at + r.compLen);
    SealLocated(P, HeaderOf(P, t), mid, FooterOf(t), at, c.stored);
  }

  lemma OpenedExactly(P: Primitives, t: State, ops: seq<Op>)
    requires P.Lawful() && Over(P, t, ops)
    ensures var img := SealedImage(P, t);
            && (Open(P, img).Ok? <==> Acceptable(P, t))
            && (Open(P, img).Ok? ==>
                  var v := Open(P, img).value;
                  && v.header == HeaderOf(P, t) && v.footer == FooterIn(P, t)
                  && v.layers == t.layers && v.meta == t.meta && v.directory == t.directory
                  && v.skeleton == SortBy(t.skeleton, Morton))
  {
    FinishedAssembles(P, t, ops);
    SkeletonAccepted(t.skeleton);
    hide Seal, HeaderOf, FooterOf, Open, BuildSkeleton, LayersOf, EntriesOf, Inv, Representable, SealedFooter;
  }

  lemma RecordsInside(P: Primitives, t: State, ops: seq<Op>, img: seq<byte>)
    requires Over(P, t, ops) && |img| == FRAME_SIZE + |Mid(t)|
    ensures Directory.Strict(t.directory) && forall r :: r in t.directory ==> Inside(img, r.offset, r.compLen)
  {
    hide HeaderOf, FooterOf, Seal, RecordedAt, PrologueBody, Representable, DirBytes;
    forall r | r in t.directory ensures Inside(img, r.offset, r.compLen) {
      RecordInside(P, t, ops, r);
    }
  }

  /** Where the meta areas and the skeleton end, whatever the version. */
  lemma AreasInside(P: Primitives, t: State, ops: seq<Op>, g: Header)
    requires Over(P, t, ops) && g == HeaderOf(P, t).(minor := g.minor)
    ensures g.metaOffset == HEADER_SIZE && g.metaLen <= |t.hashed|
    ensures g.extOffset + g.extLen <= HEADER_SIZE + |t.hashed|
    ensures SkeletonOffset(g) + |t.skeleton| * NODE_SIZE <= HEADER_SIZE + |t.hashed|
  {
    Addresses(P, t, ops);
    var h := HeaderOf(P, t);
    assert g.metaOffset == h.metaOffset && g.metaLen == h.metaLen && g.extOffset == h.extOffset && g.extLen == h.extLen;
    assert SkeletonOffset(g) == SkeletonOffset(h);
  }

  /** An image with these pieces, of the same size as the finished file, is well formed. */
  lemma AlikeWellFormed(P: Primitives, t: State, ops: seq<Op>, img: seq<byte>, v: MapView)
    requires Over(P, t, ops) && |img| == FRAME_SIZE + |Mid(t)| && Open(P, img) == Ok(v)
    requires v.header == HeaderOf(P, t).(minor := v.header.minor) && v.footer.nodeCount == |t.skeleton|
    requires v.directory == t.directory && |v.skeleton| == |t.skeleton|
    ensures WellFormed(P, img, v)
  {
    AreasInside(P, t, ops, v.header);
    RecordsInside(P, t, ops, img);
    hide HeaderOf, Open, Over, SkeletonOffset, DirBytes, Directory.Strict;
  }

  lemma OpenedWellFormed(P: Primitives, t: State, ops: seq<Op>)
    requires P.Lawful() && Over(P, t, ops)
    requires Open(P, SealedImage(P, t)).Ok?
    ensures var img := SealedImage(P, t); WellFormed(P, img, Open(P, img).value)
  {
    OpenedExactly(P, t, ops);
    SortByCorrect(t.skeleton, Morton);
    Addresses(P, t, ops);
    hide HeaderOf, FooterOf, Seal, Open, Over, SealedFooter, Acceptable, SortBy, WellFormed, PrologueBody, MetaBytes;
    AlikeWellFormed(P, t, ops, SealedImage(P, t), Open(P, SealedImage(P, t)).value);
  }

  /**
   * For every sequence of settings and chunk writes: the reader accepts the finished file
   * exactly when the skeleton keys are distinct, the header grid is valid and, if a derived
   * layer is registered, the fingerprint table decodes; it then sees what was set.
   */
  lemma WriteThenOpen(P: Primitives, spec: Spec, ops: seq<Op>)
    requires P.Lawful() && Representable(P, Run(P, spec, ops))
    ensures var t, result := Final(P, spec, ops), Open(P, Image(P, spec, ops));
            && t.prologue.Some?
            && (result.Ok? <==> Acceptable(P, t))
            && (result.Ok? ==>
                  && result.value.layers == t.layers && result.value.meta == t.meta
                  && result.value.directory == t.directory
                  && result.value.skeleton == SortBy(t.skeleton, Morton)
                  && WellFormed(P, Image(P, spec, ops), result.value))
  {
    FinalOver(P, spec, ops);
    var t := Final(P, spec, ops);
    hide Final, Image, Seal, Open, WellFormed, Acceptable, Over, HeaderOf, FooterOf;
    OpenedExactly(P, t, ops);
    if Open(P, Image(P, spec, ops)).Ok? {
      OpenedWellFormed(P, t, ops);
    }
  }

  /** The streamed hash covers every byte from the end of the header to the hash field. */
  lemma HashCoversBody(P: Primitives, spec: Spec, ops: seq<Op>)
    requires Representable(P, Run(P, spec, ops))
    ensures var t, img := Final(P, spec, ops), Image(P, spec, ops);
            && t.prologue.Some?
            && img[HEADER_SIZE..|img| - HASH_SIZE] == Mid(t) + FooterBytes(FooterOf(t))[..HASH_OFFSET]
  {
    FinalOver(P, spec, ops);
    var t, img := Final(P, spec, ops), Image(P, spec, ops);
    hide Seal, HeaderOf, FooterOf, Mid, Final, Image, Over;
    SealCovers(P, HeaderOf(P, t), Mid(t), FooterOf(t));
  }

  /** Every address reads as its last recorded write; an address never written reads as absent. */
  lemma ReadsLastWrite(P: Primitives, spec: Spec, ops: seq<Op>, key: Key)
    requires P.Lawful() && Representable(P, Run(P, spec, ops))
    requires Open(P, Image(P, spec, ops)).Ok?
    ensures var v := Open(P, Image(P, spec, ops)).value;
            ChunkPayload(P, v, Image(P, spec, ops), key) == Served(P, v, key, LastWrite(ops, key))
  {
    FinalOver(P, spec, ops);
    var t := Final(P, spec, ops);
    hide Final, Image, Seal, Open, HeaderOf, FooterOf, ChunkPayload, Served, Over;
    OpenedExactly(P, t, ops);
    StateReadsLastWrite(P, t, ops, Open(P, Image(P, spec, ops)).value, key);
  }

  lemma StateReadsLastWrite(P: Primitives, t: State, ops: seq<Op>, v: MapView, key: Key)
    requires Over(P, t, ops) && v.directory == t.directory
    ensures ChunkPayload(P, v, SealedImage(P, t), key) == Served(P, v, key, LastWrite(ops, key))
  {
    hide SealedImage, LastWrite, DecodeStored, ReadStored, Directory.Find, Over;
    RecordedOver(P, t, ops, key);
    if LastWrite(ops, key).Some? {
      StoredLocated(P, t, ops, key);
    }
  }

  lemma RecordedOver(P: Primitives, t: State, ops: seq<Op>, key: Key)
    requires Over(P, t, ops)
    ensures match LastWrite(ops, key)
            case None => Directory.Find(t.directory, key).None?
            case Some(c) =>
              && Directory.Find(t.directory, key).Some?
              && var r := Directory.Find(t.directory, key).value;
              r.codec == c.codec && r.rawLen == c.rawLen && r.flags == 0
  {
    hide LastWrite, PrologueBody, FinalMeta, PrologueOf, Directory.Find, Directory.Strict, Representable;
    FrozenPrologue(P, t, ops);
    assert RecordedAt(P, t.directory, t.hashed, |PrologueBody(P, t)|, ops, key);
  }
}
