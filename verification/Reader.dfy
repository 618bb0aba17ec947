/** Opening an image: every check the reader makes, in its order, and the chunk read path. */
module Reader {
  import opened Bytes
  import opened Layout
  import opened Records
  import opened Sorting
  import Directory
  import Fingerprint

  datatype MapView = MapView(
    header: Header, footer: Footer, meta: seq<TlvRecord>, layers: seq<LayerDesc>, directory: seq<ChunkRecord>,
    skeleton: seq<QNode>, dict: Option<seq<byte>>, stale: set<LayerId>)

  const FRAME_SIZE := HEADER_SIZE + FOOTER_SIZE

  function Region(img: seq<byte>, off: nat, len: nat): Result<seq<byte>> {
    if off + len <= |img| then Ok(img[off..off + len]) else Err(Invalid)
  }

  /** The whole-file hash: the final header composed with the digest of the body. */
  function ComposeHash(P: Primitives, header: seq<byte>, body: seq<byte>): u128 {
    P.hash128(header + LE(P.hash128(body), HASH_SIZE))
  }

  function FileHashOf(P: Primitives, img: seq<byte>): u128
    requires |img| >= FRAME_SIZE
  {
    ComposeHash(P, img[..HEADER_SIZE], img[HEADER_SIZE..|img| - HASH_SIZE])
  }

  /** Header, footer and, unless the caller turns that off, the whole-file hash. */
  function OpenFrameWith(P: Primitives, img: seq<byte>, verify: bool): Result<(Header, Footer)> {
    if |img| < FRAME_SIZE then Err(Invalid) else
    var h :- ParseHeader(P, img[..HEADER_SIZE]);
    if h.footerOffset != 0 && h.footerOffset != |img| - FOOTER_SIZE then Err(Invalid) else
    var f :- ParseFooter(img[|img| - FOOTER_SIZE..]);
    if f.fileLen != |img| then Err(Invalid)
    else if h.minor != f.minor then Err(Invalid)
    else if verify && FileHashOf(P, img) != f.fileHash then Err(FileHash)
    else Ok((h, f))
  }

  function OpenFrame(P: Primitives, img: seq<byte>): Result<(Header, Footer)> { OpenFrameWith(P, img, true) }

  function Morton(n: QNode): nat { n.morton }

  /** Sorted by key; a repeated key is refused. */
  function BuildSkeleton(nodes: seq<QNode>): Result<seq<QNode>> {
    var sorted := SortBy(nodes, Morton);
    if exists i :: 0 <= i < |sorted| - 1 && Morton(sorted[i]) == Morton(sorted[i + 1]) then Err(Invalid)
    else Ok(sorted)
  }

  /** The skeleton has no offset field: it starts at the next multiple of eight after the meta areas. */
  function SkeletonOffset(h: Header): nat {
    Align8(h.metaOffset + h.metaLen + h.extLen)
  }

  function ReadSkeleton(img: seq<byte>, h: Header, f: Footer): Result<seq<QNode>> {
    if f.nodeCount == 0 then Ok([]) else
    var bytes :- Region(img, SkeletonOffset(h), f.nodeCount * NODE_SIZE);
    var nodes :- ParseMany(bytes, NODE_SIZE, ParseNode);
    BuildSkeleton(nodes)
  }

  function ReadDirectory(img: seq<byte>, h: Header): Result<seq<ChunkRecord>> {
    var bytes :- Region(img, h.dirOffset, h.dirLen);
    if |bytes| % RECORD_SIZE != 0 then Err(Invalid) else
    var records :- ParseMany(bytes, RECORD_SIZE, ParseRecord);
    Ok(SortBy(records, Directory.RankOf))
  }

  function ReadMeta(P: Primitives, img: seq<byte>, h: Header): Result<seq<TlvRecord>> {
    var bytes :- Region(img, h.metaOffset, h.metaLen);
    var raw :- P.unzstd(bytes);
    ParseTlv(raw)
  }

  function DictOf(meta: seq<TlvRecord>): Option<seq<byte>> {
    match TlvGet(meta, TAG_ZSTD_DICT)
    case None => None
    case Some(bytes) => if bytes == [] then None else Some(bytes)
  }

  function EntriesOf(P: Primitives, meta: seq<TlvRecord>): Result<Option<seq<DerivedEntry>>> {
    match TlvGet(meta, TAG_DERIVED_LAYERS)
    case None => Ok(None)
    case Some(value) =>
      var entries :- P.decodeDerived(value);
      Ok(Some(entries))
  }

  predicate HasDerived(layers: seq<LayerDesc>) {
    exists k :: 0 <= k < |layers| && IsDerived(layers[k].id)
  }

  /** Derived layers that must not be served; the fingerprint table is read only if one is registered. */
  function FindStale(P: Primitives, layers: seq<LayerDesc>, d: seq<ChunkRecord>, meta: seq<TlvRecord>): Result<set<LayerId>> {
    if !HasDerived(layers) then Ok({}) else
    var entries :- EntriesOf(P, meta);
    Ok(set k | 0 <= k < |layers| && IsDerived(layers[k].id)
               && !Fingerprint.Verifies(P, layers, d, entries, layers[k].id) :: layers[k].id)
  }

  function OpenBody(P: Primitives, img: seq<byte>, h: Header, f: Footer): Result<MapView> {
    var meta :- ReadMeta(P, img, h);
    var layers :- LayersOf(meta);
    var directory :- ReadDirectory(img, h);
    var skeleton :- ReadSkeleton(img, h, f);
    if !P.gridOk(h.Shape()) then Err(Invalid) else
    var stale :- FindStale(P, layers, directory, meta);
    Ok(MapView(h, f, meta, layers, directory, skeleton, DictOf(meta), stale))
  }

  function OpenWith(P: Primitives, img: seq<byte>, verify: bool): Result<MapView> {
    var frame :- OpenFrameWith(P, img, verify);
    OpenBody(P, img, frame.0, frame.1)
  }

  function Open(P: Primitives, img: seq<byte>): Result<MapView> {
    var frame :- OpenFrame(P, img);
    OpenBody(P, img, frame.0, frame.1)
  }

  /** Leaving the hash unchecked lets through exactly the images whose hash alone is wrong, and
      shows every other image the same. */
  lemma UncheckedExactly(P: Primitives, img: seq<byte>)
    ensures Open(P, img) == OpenWith(P, img, true)
    ensures Open(P, img).Ok? ==> OpenWith(P, img, false) == Open(P, img)
    ensures OpenWith(P, img, false).Ok? ==>
              |img| >= FRAME_SIZE
              && (Open(P, img).Ok? <==> FileHashOf(P, img) == OpenWith(P, img, false).value.footer.fileHash)
              && (Open(P, img).Err? ==> Open(P, img) == Err(FileHash))
  {
    hide ParseHeader, ParseFooter, FileHashOf, ReadMeta, ReadDirectory, ReadSkeleton, FindStale, LayersOf, DictOf;
  }

  function Max(a: nat, b: nat): nat { if a < b then b else a }

  /** The part of a chunk read after its stored bytes passed the checksum. */
  function DecodeStored(
    P: Primitives, h: Header, desc: LayerDesc, dict: Option<seq<byte>>, level: u8, codec: u8, rawLen: u32, stored: seq<byte>)
    : Result<seq<byte>>
  {
    if IsChunked(desc.kind) then
      if level >= Max(h.lodCount, 1) then Err(Invalid) else
      var size := Max(h.chunkSize, 1);
      var shape := ChunkShape(size, size, Max(desc.channels, 1), desc.dtype);
      if shape.TotalBytes() > MAX_RAW_CHUNK_BYTES || shape.TotalBytes() != rawLen then Err(Invalid)
      else P.decodeChunk(codec, shape, stored, dict)
    else if rawLen > MAX_RAW_CHUNK_BYTES then Err(Invalid)
    else P.decodeChunk(codec, ChunkShape(rawLen, 1, 1, DTYPE_U8), stored, dict)
  }

  /** Bytes a directory record points at, if they pass its checksum. */
  function ReadStored(P: Primitives, img: seq<byte>, r: ChunkRecord): Result<seq<byte>> {
    var stored :- Region(img, r.offset, r.compLen);
    if P.crc32(stored) != r.crc then Err(ChunkCrc) else Ok(stored)
  }

  /** Decompressed payload of a chunk; `None` where the directory has no live record. */
  function ChunkPayload(P: Primitives, v: MapView, img: seq<byte>, key: Key): Result<Option<seq<byte>>> {
    if key.layer in v.stale then Err(StaleDerived) else
    match Directory.Find(v.directory, key)
    case None => Ok(None)
    case Some(r) =>
      if r.Tombstone() then Ok(None)
      else if !P.supported(r.codec) then Err(UnsupportedCodec)
      else
        var stored :- ReadStored(P, img, r);
        match DescOf(v.layers, key.layer)
        case None => Err(LayerNotFound)
        case Some(desc) =>
          var payload :- DecodeStored(P, v.header, desc, v.dict, key.level, r.codec, r.rawLen, stored);
          Ok(Some(payload))
  }

  /** A complete image: header, body, footer, with the hash filled in last. */
  function Seal(P: Primitives, h: Header, mid: seq<byte>, f: Footer): (img: seq<byte>)
    ensures |img| == FRAME_SIZE + |mid|
  {
    var head := HeaderBytes(P, h);
    var hash := ComposeHash(P, head, mid + FooterBytes(f)[..HASH_OFFSET]);
    head + mid + FooterBytes(f.(fileHash := hash))
  }

  function SealedFooter(P: Primitives, h: Header, mid: seq<byte>, f: Footer): Footer {
    f.(fileHash := ComposeHash(P, HeaderBytes(P, h), mid + FooterBytes(f)[..HASH_OFFSET]))
  }

  /** What the hash of a sealed image covers, and where the hash lies. */
  lemma SealCovers(P: Primitives, h: Header, mid: seq<byte>, f: Footer)
    ensures var img := Seal(P, h, mid, f);
            && img[..HEADER_SIZE] == HeaderBytes(P, h)
            && img[HEADER_SIZE..|img| - HASH_SIZE] == mid + FooterBytes(f)[..HASH_OFFSET]
            && img[|img| - FOOTER_SIZE..] == FooterBytes(SealedFooter(P, h, mid, f))
  {
    var g := SealedFooter(P, h, mid, f);
    FooterSplit(f, g.fileHash);
    hide HeaderBytes, FooterBytes, ComposeHash;
    ThreeParts(HeaderBytes(P, h), mid, FooterBytes(g));
  }

  /** Header, middle and footer, by position. */
  lemma ThreeParts(head: seq<byte>, mid: seq<byte>, foot: seq<byte>)
    requires |head| == HEADER_SIZE && |foot| == FOOTER_SIZE
    ensures var img := head + mid + foot;
            && img[..HEADER_SIZE] == head && img[|img| - FOOTER_SIZE..] == foot
            && img[HEADER_SIZE..|img| - HASH_SIZE] == mid + foot[..HASH_OFFSET]
  {
    var img := head + mid + foot;
    assert img == head + (mid + foot[..HASH_OFFSET]) + foot[HASH_OFFSET..];
  }

  /** The frame of a sealed image is accepted exactly when header and footer agree on the minor version. */
  lemma SealedFrameOpens(P: Primitives, h: Header, mid: seq<byte>, f: Footer)
    requires h.major == VERSION_MAJOR && f.major == VERSION_MAJOR
    requires f.fileLen == FRAME_SIZE + |mid| && h.footerOffset == HEADER_SIZE + |mid|
    ensures OpenFrame(P, Seal(P, h, mid, f))
         == if h.minor == f.minor then Ok((h, SealedFooter(P, h, mid, f))) else Err(Invalid)
  {
    HeaderRoundTrip(P, h);
    FooterRoundTrip(SealedFooter(P, h, mid, f));
    SealCovers(P, h, mid, f);
    hide HeaderBytes, FooterBytes, ParseHeader, ParseFooter, ComposeHash, Seal;
  }

  /** Where the pieces of a body lie and what they hold. */
  ghost predicate BodyHolds(
    P: Primitives, img: seq<byte>, h: Header, f: Footer, meta: seq<TlvRecord>, d: seq<ChunkRecord>, nodes: seq<QNode>)
  {
    && Region(img, h.metaOffset, h.metaLen) == Ok(P.zstd(TlvBytes(meta)))
    && Region(img, h.dirOffset, h.dirLen) == Ok(Flatten(d, RecordBytes))
    && f.nodeCount == |nodes|
    && Region(img, SkeletonOffset(h), |nodes| * NODE_SIZE) == Ok(Flatten(nodes, NodeBytes))
  }

  /** What opening must come to when the body holds these pieces. */
  function Assembled(
    P: Primitives, h: Header, f: Footer, meta: seq<TlvRecord>, d: seq<ChunkRecord>, nodes: seq<QNode>): Result<MapView>
  {
    var layers :- LayersOf(meta);
    var skeleton :- BuildSkeleton(nodes);
    if !P.gridOk(h.Shape()) then Err(Invalid) else
    var stale :- FindStale(P, layers, d, meta);
    Ok(MapView(h, f, meta, layers, d, skeleton, DictOf(meta), stale))
  }

  lemma DirectoryReads(P: Primitives, img: seq<byte>, h: Header, d: seq<ChunkRecord>)
    requires Region(img, h.dirOffset, h.dirLen) == Ok(Flatten(d, RecordBytes))
    requires Directory.Strict(d)
    ensures ReadDirectory(img, h) == Ok(d)
  {
    assert SortBy(d, Directory.RankOf) == d by { SortOfStrict(d, Directory.RankOf); }
    hide RecordBytes, ParseRecord, ParseMany, Flatten, SortBy, Directory.Strict;
    RecordsParse(d);
  }

  lemma RecordsParse(d: seq<ChunkRecord>)
    ensures ParseMany(Flatten(d, RecordBytes), RECORD_SIZE, ParseRecord) == Ok(d)
    ensures |Flatten(d, RecordBytes)| % RECORD_SIZE == 0 && |Flatten(d, RecordBytes)| == RECORD_SIZE * |d|
  {
    hide RecordBytes, ParseRecord, ParseMany, Flatten;
    forall r | r in d ensures |RecordBytes(r)| == RECORD_SIZE && ParseRecord(RecordBytes(r)) == Ok(r) {
      RecordRoundTrip(r);
    }
    FlattenLength(d, RECORD_SIZE, RecordBytes);
    ParseFlatten(d, RECORD_SIZE, RecordBytes, ParseRecord);
  }

  lemma SkeletonReads(img: seq<byte>, h: Header, f: Footer, nodes: seq<QNode>)
    requires f.nodeCount == |nodes|
    requires Region(img, SkeletonOffset(h), |nodes| * NODE_SIZE) == Ok(Flatten(nodes, NodeBytes))
    ensures ReadSkeleton(img, h, f) == BuildSkeleton(nodes)
  {
    forall n | n in nodes ensures |NodeBytes(n)| == NODE_SIZE && ParseNode(NodeBytes(n)) == Ok(n) {
      NodeRoundTrip(n);
    }
    ParseFlatten(nodes, NODE_SIZE, NodeBytes, ParseNode);
    hide NodeBytes, ParseNode, ParseMany, Flatten, SortBy;
  }

  lemma BodyOpens(
    P: Primitives, img: seq<byte>, h: Header, f: Footer, meta: seq<TlvRecord>, d: seq<ChunkRecord>, nodes: seq<QNode>)
    requires P.Lawful()
    requires BodyHolds(P, img, h, f, meta, d, nodes)
    requires Directory.Strict(d) && TlvFits(meta)
    ensures OpenBody(P, img, h, f) == Assembled(P, h, f, meta, d, nodes)
  {
    TlvRoundTrip(meta);
    DirectoryReads(P, img, h, d);
    SkeletonReads(img, h, f, nodes);
  }

  /** Distinct keys are all the skeleton asks for, and sorting is all it does. */
  lemma SkeletonAccepted(nodes: seq<QNode>)
    ensures BuildSkeleton(nodes).Ok? <==> NoRepeats(MapSeq(Morton, nodes))
    ensures BuildSkeleton(nodes).Ok? ==> BuildSkeleton(nodes).value == SortBy(nodes, Morton)
  {
    hide SortBy, MapSeq, NoRepeats;
    SortByCorrect(nodes, Morton);
    NeighboursDecide(SortBy(nodes, Morton));
    SortKeepsDistinct(nodes);
  }

  lemma SortKeepsDistinct(nodes: seq<QNode>)
    ensures NoRepeats(MapSeq(Morton, nodes)) <==> NoRepeats(MapSeq(Morton, SortBy(nodes, Morton)))
  {
    MapSorted(Morton, nodes, Morton);
    RepeatsAreCounted(MapSeq(Morton, nodes));
    RepeatsAreCounted(MapSeq(Morton, SortBy(nodes, Morton)));
  }

  lemma NeighboursDecide(sorted: seq<QNode>)
    requires Sorted(sorted, Morton)
    ensures NoRepeats(MapSeq(Morton, sorted))
        <==> forall i :: 0 <= i < |sorted| - 1 ==> Morton(sorted[i]) != Morton(sorted[i + 1])
  {
    var b := MapSeq(Morton, sorted);
    if NoRepeats(b) {
      forall i | 0 <= i < |sorted| - 1 ensures Morton(sorted[i]) != Morton(sorted[i + 1]) {
        assert b[i] != b[i + 1];
      }
    } else if forall i :: 0 <= i < |sorted| - 1 ==> Morton(sorted[i]) != Morton(sorted[i + 1]) {
      StrictFromNeighbours(sorted, |sorted|);
    }
  }

  lemma {:induction false} StrictFromNeighbours(s: seq<QNode>, n: nat)
    requires n <= |s| && Sorted(s, Morton)
    requires forall i :: 0 <= i < |s| - 1 ==> Morton(s[i]) != Morton(s[i + 1])
    ensures forall i, j :: 0 <= i < j < n ==> Morton(s[i]) < Morton(s[j])
  {
    if n > 1 {
      StrictFromNeighbours(s, n - 1);
      assert Morton(s[n - 2]) <= Morton(s[n - 1]) && Morton(s[n - 2]) != Morton(s[(n - 2) + 1]);
    }
  }
}
