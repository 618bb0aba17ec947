/** The fixed-layout records of the container and the parts of the format kept abstract. */
module Records {
  import opened Bytes
  import opened Layout

  type LayerId = u16

  const ELEVATION: LayerId := 0x0001
  const SLOPE: LayerId := 0x0002
  const EDT: LayerId := 0x0003
  const HARD_FORBIDDEN: LayerId := 0x2001
  const DIRECTION: LayerId := 0x2002
  const REGIONS: LayerId := 0x2501
  const PRM_GRAPH: LayerId := 0x3001
  const KPATH_LIBRARY: LayerId := 0x3002
  const VECTORS: LayerId := 0x3004
  const COST_CACHE: LayerId := 0x4001

  predicate IsDerived(id: LayerId) {
    0x0002 <= id <= 0x0003 || 0x3001 <= id <= 0x3003 || 0x4000 <= id <= 0x4FFF
  }

  predicate IsFeature(id: LayerId) { 0x1000 <= id < 0x1100 }

  /** Directory address of a chunk. */
  datatype Key = Key(layer: LayerId, level: u8, chunk: u32)

  /** Order-preserving number of an address: layer first, then level, then chunk. */
  function Rank(k: Key): nat {
    k.layer * 0x100_0000_0000 + k.level * 0x1_0000_0000 + k.chunk
  }

  lemma RankIsLexicographic(a: Key, b: Key)
    ensures Rank(a) < Rank(b) <==>
        a.layer < b.layer
        || (a.layer == b.layer && (a.level < b.level || (a.level == b.level && a.chunk < b.chunk)))
    ensures Rank(a) == Rank(b) <==> a == b
  {
  }

  /** Little-endian word of `width` bytes at `off`. */
  function Get(s: seq<byte>, off: nat, width: nat): (v: nat)
    requires off + width <= |s|
    ensures v < Pow256(width)
  {
    WordInverse(s[off..off + width]);
    GetWord(s, Field(off, width))
  }

  function GetU8(s: seq<byte>, off: nat): u8 requires off + 1 <= |s| { Widths(); Get(s, off, 1) }
  function GetU16(s: seq<byte>, off: nat): u16 requires off + 2 <= |s| { Widths(); Get(s, off, 2) }
  function GetU32(s: seq<byte>, off: nat): u32 requires off + 4 <= |s| { Widths(); Get(s, off, 4) }
  function GetU64(s: seq<byte>, off: nat): u64 requires off + 8 <= |s| { Widths(); Get(s, off, 8) }
  function GetU128(s: seq<byte>, off: nat): u128 requires off + 16 <= |s| { Widths(); Get(s, off, 16) }

  const TOMBSTONE_BIT: u32 := 0x8000_0000

  datatype ChunkRecord = ChunkRecord(
    key: Key, codec: u8, offset: u64, compLen: u32, rawLen: u32, crc: u32, flags: u32)
  {
    predicate Tombstone() { flags / TOMBSTONE_BIT % 2 == 1 }
  }

  const RECORD_SIZE := 32

  const RECORD_LAYOUT := [
    Field(0, 4), Field(4, 2), Field(6, 1), Field(7, 1), Field(8, 8),
    Field(16, 4), Field(20, 4), Field(24, 4), Field(28, 4)]

  function RecordBytes(r: ChunkRecord): (s: seq<byte>)
    ensures |s| == RECORD_SIZE
  {
    Pack(RECORD_SIZE, RECORD_LAYOUT,
         [r.key.chunk, r.key.layer, r.key.level, r.codec, r.offset, r.compLen, r.rawLen, r.crc, r.flags])
  }

  function ParseRecord(s: seq<byte>): Result<ChunkRecord> {
    if |s| < RECORD_SIZE then Err(Truncated) else
    Ok(ChunkRecord(
      Key(GetU16(s, 4), GetU8(s, 6), GetU32(s, 0)), GetU8(s, 7), GetU64(s, 8), GetU32(s, 16), GetU32(s, 20), GetU32(s, 24), GetU32(s, 28)))
  }

  lemma RecordRoundTrip(r: ChunkRecord)
    ensures ParseRecord(RecordBytes(r)) == Ok(r)
  {
    Widths();
    Contiguous(RECORD_LAYOUT, RECORD_SIZE);
    var words := [r.key.chunk, r.key.layer, r.key.level, r.codec, r.offset, r.compLen, r.rawLen, r.crc, r.flags];
    Unpacked(RECORD_SIZE, RECORD_LAYOUT, words);
    hide UnLE, LE, Pow256, PutWords;
    assert RECORD_LAYOUT[0] == Field(0, 4) && RECORD_LAYOUT[1] == Field(4, 2)
        && RECORD_LAYOUT[2] == Field(6, 1) && RECORD_LAYOUT[3] == Field(7, 1);
    assert RECORD_LAYOUT[4] == Field(8, 8) && RECORD_LAYOUT[5] == Field(16, 4)
        && RECORD_LAYOUT[6] == Field(20, 4) && RECORD_LAYOUT[7] == Field(24, 4);
    assert RECORD_LAYOUT[8] == Field(28, 4);
  }

  /** A quadtree skeleton node; `morton` is the linear-quadtree key. */
  datatype QNode = QNode(morton: u64, flags: u8, depth: u8, tileRef: u16, mean: u16, max: u16)

  const NODE_SIZE := 16

  const NODE_LAYOUT := [Field(0, 8), Field(8, 1), Field(9, 1), Field(10, 2), Field(12, 2), Field(14, 2)]

  function NodeBytes(n: QNode): (s: seq<byte>)
    ensures |s| == NODE_SIZE
  {
    Pack(NODE_SIZE, NODE_LAYOUT, [n.morton, n.flags, n.depth, n.tileRef, n.mean, n.max])
  }

  function ParseNode(s: seq<byte>): Result<QNode> {
    if |s| < NODE_SIZE then Err(Truncated) else
    Ok(QNode(GetU64(s, 0), GetU8(s, 8), GetU8(s, 9), GetU16(s, 10), GetU16(s, 12), GetU16(s, 14)))
  }

  lemma NodeRoundTrip(n: QNode)
    ensures ParseNode(NodeBytes(n)) == Ok(n)
  {
    Widths();
    Contiguous(NODE_LAYOUT, NODE_SIZE);
    Unpacked(NODE_SIZE, NODE_LAYOUT, [n.morton, n.flags, n.depth, n.tileRef, n.mean, n.max]);
    hide UnLE, LE, Pow256, PutWords;
    assert NODE_LAYOUT[0] == Field(0, 8) && NODE_LAYOUT[1] == Field(8, 1)
        && NODE_LAYOUT[2] == Field(9, 1) && NODE_LAYOUT[3] == Field(10, 2);
    assert NODE_LAYOUT[4] == Field(12, 2) && NODE_LAYOUT[5] == Field(14, 2);
  }

  /** Payload organisation, as its on-disk number: raster, vector, graph, bitmap, region polygons. */
  type LayerKind = k: u8 | k < 5
  const RASTER: LayerKind := 0
  const BITMAP: LayerKind := 3
  predicate IsChunked(k: LayerKind) { k == RASTER || k == BITMAP }

  /** Element type, as its on-disk number: f32, i32, i16, u8, bit, f16. */
  type DType = d: u8 | d < 6
  const DTYPE_U8: DType := 3
  const DTYPE_BIT: DType := 4
  function ElementSize(d: DType): nat {
    if d == 0 || d == 1 then 4 else if d == 2 || d == 5 then 2 else 1
  }

  /** A layer descriptor; `scale` and `bias` are the bit patterns of the two floats. */
  datatype LayerDesc = LayerDesc(
    id: LayerId, kind: LayerKind, channels: u8, dtype: DType, codec: u8, scale: u32, bias: u32, sparse: bool)

  const DESC_SIZE := 24

  const DESC_LAYOUT := [
    Field(0, 2), Field(2, 1), Field(3, 1), Field(4, 1), Field(5, 1), Field(6, 4), Field(10, 4), Field(14, 1)]

  function DescBytes(d: LayerDesc): (s: seq<byte>)
    ensures |s| == DESC_SIZE
  {
    Pack(DESC_SIZE, DESC_LAYOUT,
         [d.id, d.kind, d.channels, d.dtype, d.codec, d.scale, d.bias, if d.sparse then 1 else 0])
  }

  function ParseDesc(s: seq<byte>): Result<LayerDesc> {
    if |s| < DESC_SIZE then Err(Truncated) else
    if GetU8(s, 2) >= 5 || GetU8(s, 4) >= 6 then Err(Invalid)
    else Ok(LayerDesc(
      GetU16(s, 0), GetU8(s, 2), GetU8(s, 3), GetU8(s, 4), GetU8(s, 5), GetU32(s, 6), GetU32(s, 10), GetU8(s, 14) != 0))
  }

  lemma DescRoundTrip(d: LayerDesc)
    ensures ParseDesc(DescBytes(d)) == Ok(d)
  {
    Widths();
    Contiguous(DESC_LAYOUT, DESC_SIZE);
    Unpacked(DESC_SIZE, DESC_LAYOUT,
             [d.id, d.kind, d.channels, d.dtype, d.codec, d.scale, d.bias, if d.sparse then 1 else 0]);
    hide UnLE, LE, Pow256, PutWords;
    assert DESC_LAYOUT[0] == Field(0, 2) && DESC_LAYOUT[1] == Field(2, 1)
        && DESC_LAYOUT[2] == Field(3, 1) && DESC_LAYOUT[3] == Field(4, 1);
    assert DESC_LAYOUT[4] == Field(5, 1) && DESC_LAYOUT[5] == Field(6, 4)
        && DESC_LAYOUT[6] == Field(10, 4) && DESC_LAYOUT[7] == Field(14, 1);
  }

  datatype ChunkShape = ChunkShape(width: nat, height: nat, channels: nat, dtype: DType) {
    function TotalBytes(): nat {
      (if dtype == DTYPE_BIT then (width * channels + 7) / 8 else width * (channels * ElementSize(dtype))) * height
    }
  }

  const MAX_RAW_CHUNK_BYTES := 268_435_456

  datatype DerivedEntry = DerivedEntry(layer: LayerId, fingerprint: u64, paramsHash: u64, algo: u16, seeds: seq<u64>)

  /**
   * The functions whose source is a library or out of scope: checksums and hashes, the
   * entropy coder of the meta block, the chunk codecs, two typed meta records and the
   * floating-point grid check of the header.
   */
  datatype Primitives = Primitives(
    crc32: seq<byte> -> u32,
    hash64: seq<byte> -> u64,
    hash128: seq<byte> -> u128,
    zstd: seq<byte> -> seq<byte>,
    unzstd: seq<byte> -> Result<seq<byte>>,
    decodeChunk: (u8, ChunkShape, seq<byte>, Option<seq<byte>>) -> Result<seq<byte>>,
    supported: u8 -> bool,
    encodeDerived: seq<DerivedEntry> -> seq<byte>,
    decodeDerived: seq<byte> -> Result<seq<DerivedEntry>>,
    featureDim: Option<seq<byte>> -> u8,
    gridOk: Geometry -> bool)
  {
    /** Decompression undoes compression, and the fingerprint table codec round-trips. */
    ghost predicate Lawful() {
      && (forall b :: unzstd(zstd(b)) == Ok(b))
      && (forall e :: decodeDerived(encodeDerived(e)) == Ok(e))
    }
  }

  /** The header; `refLon`..`y1` are float bit patterns. */
  datatype Header = Header(
    major: u16, minor: u16, flags: u32, refLon: u64, refLat: u64, epsg: u32,
    x0: u32, y0: u32, x1: u32, y1: u32, resCm: u16, chunkSize: u16, lodCount: u8, featureDim: u8,
    layerCount: u16, metaOffset: u64, metaLen: u32, dirOffset: u64, dirLen: u32, footerOffset: u64,
    extOffset: u64, extLen: u32)
  {
    function Shape(): Geometry { Geometry(x0, y0, x1, y1, resCm, chunkSize, lodCount) }
  }

  /** The header fields the chunk grid is derived from. */
  datatype Geometry = Geometry(x0: u32, y0: u32, x1: u32, y1: u32, resCm: u16, chunkSize: u16, lodCount: u8)

  const HEADER_SIZE := 128
  const HEADER_MAGIC: nat := 0x0046_4D4F
  const VERSION_MAJOR: u16 := 1
  const VERSION_MINOR: u16 := 0

  const HEADER_LAYOUT := [
    Field(0, 4), Field(4, 2), Field(6, 2), Field(8, 4), Field(12, 8), Field(20, 8), Field(28, 4),
    Field(32, 4), Field(36, 4), Field(40, 4), Field(44, 4), Field(48, 2), Field(50, 2), Field(52, 1),
    Field(53, 1), Field(54, 2), Field(56, 8), Field(64, 4), Field(68, 8), Field(76, 4), Field(80, 8),
    Field(88, 8), Field(96, 4)]

  const CRC_FIELD := Field(100, 4)

  function HeaderWords(h: Header): (w: seq<nat>)
    ensures |w| == 23
  {
    [HEADER_MAGIC, h.major, h.minor, h.flags, h.refLon, h.refLat, h.epsg,
     h.x0, h.y0, h.x1, h.y1, h.resCm, h.chunkSize, h.lodCount,
     h.featureDim, h.layerCount, h.metaOffset, h.metaLen, h.dirOffset, h.dirLen, h.footerOffset,
     h.extOffset, h.extLen]
  }

  /** Fields first, then the checksum of everything before it. */
  function HeaderBytes(P: Primitives, h: Header): (s: seq<byte>)
    ensures |s| == HEADER_SIZE
  {
    var body := Pack(HEADER_SIZE, HEADER_LAYOUT, HeaderWords(h));
    Put(body, CRC_FIELD.off, LE(P.crc32(body[..CRC_FIELD.off]), CRC_FIELD.width))
  }

  function ParseHeader(P: Primitives, s: seq<byte>): Result<Header> {
    if |s| < HEADER_SIZE then Err(Truncated) else
    if GetU32(s, 0) != HEADER_MAGIC then Err(BadMagic)
    else if GetU16(s, 4) != VERSION_MAJOR then Err(UnsupportedVersion)
    else if GetU32(s, CRC_FIELD.off) != P.crc32(s[..CRC_FIELD.off]) then Err(HeaderCrc)
    else Ok(Header(
      GetU16(s, 4), GetU16(s, 6), GetU32(s, 8), GetU64(s, 12), GetU64(s, 20), GetU32(s, 28),
      GetU32(s, 32), GetU32(s, 36), GetU32(s, 40), GetU32(s, 44), GetU16(s, 48), GetU16(s, 50),
      GetU8(s, 52), GetU8(s, 53), GetU16(s, 54), GetU64(s, 56), GetU32(s, 64), GetU64(s, 68),
      GetU32(s, 76), GetU64(s, 80), GetU64(s, 88), GetU32(s, 96)))
  }

  /** The checksum lies past every field, so both survive together. */
  lemma HeaderFieldsRead(P: Primitives, h: Header)
    ensures var s := HeaderBytes(P, h);
            && (forall i :: 0 <= i < 23 ==> GetWord(s, HEADER_LAYOUT[i]) == HeaderWords(h)[i])
            && GetU32(s, CRC_FIELD.off) == P.crc32(s[..CRC_FIELD.off])
  {
    Widths();
    Contiguous(HEADER_LAYOUT, CRC_FIELD.off);
    HeaderWordsFit(h);
    Unpacked(HEADER_SIZE, HEADER_LAYOUT, HeaderWords(h));
    var body := Pack(HEADER_SIZE, HEADER_LAYOUT, HeaderWords(h));
    var s := HeaderBytes(P, h);
    assert s[..100] == body[..100];
    assert s[100..104] == LE(P.crc32(body[..100]), 4);
    WordRoundTrip(P.crc32(body[..100]), 4);
    forall i | 0 <= i < 23
      ensures GetWord(s, HEADER_LAYOUT[i]) == HeaderWords(h)[i]
    {
      var f := HEADER_LAYOUT[i];
      assert f.off + f.width <= 100;
      SameSlice(s, body, 100, f.off, f.off + f.width);
    }
  }

  lemma HeaderRoundTrip(P: Primitives, h: Header)
    requires h.major == VERSION_MAJOR
    ensures ParseHeader(P, HeaderBytes(P, h)) == Ok(h)
  {
    Widths();
    HeaderFieldsRead(P, h);
    hide UnLE, LE, Pow256, PutWords;
    assert HEADER_LAYOUT[0] == Field(0, 4) && HEADER_LAYOUT[1] == Field(4, 2)
        && HEADER_LAYOUT[2] == Field(6, 2) && HEADER_LAYOUT[3] == Field(8, 4);
    assert HEADER_LAYOUT[4] == Field(12, 8) && HEADER_LAYOUT[5] == Field(20, 8)
        && HEADER_LAYOUT[6] == Field(28, 4) && HEADER_LAYOUT[7] == Field(32, 4);
    assert HEADER_LAYOUT[8] == Field(36, 4) && HEADER_LAYOUT[9] == Field(40, 4)
        && HEADER_LAYOUT[10] == Field(44, 4) && HEADER_LAYOUT[11] == Field(48, 2);
    assert HEADER_LAYOUT[12] == Field(50, 2) && HEADER_LAYOUT[13] == Field(52, 1)
        && HEADER_LAYOUT[14] == Field(53, 1) && HEADER_LAYOUT[15] == Field(54, 2);
    assert HEADER_LAYOUT[16] == Field(56, 8) && HEADER_LAYOUT[17] == Field(64, 4)
        && HEADER_LAYOUT[18] == Field(68, 8) && HEADER_LAYOUT[19] == Field(76, 4);
    assert HEADER_LAYOUT[20] == Field(80, 8) && HEADER_LAYOUT[21] == Field(88, 8) && HEADER_LAYOUT[22] == Field(96, 4);
  }

  lemma HeaderWordsFit(h: Header)
    ensures Fits(HEADER_LAYOUT, HeaderWords(h))
  {
    Widths();
  }

  datatype Footer = Footer(
    major: u16, minor: u16, flags: u32, dirLen: u32, dirOffset: u64, recordCount: u32, chunkCount: u32,
    nodeCount: u32, layerCount: u32, fileLen: u64, fileHash: u128)

  const FOOTER_SIZE := 64
  const HASH_SIZE := 16
  const HASH_OFFSET := 48
  const FOOTER_MAGIC: nat := 0x4646_4D4F

  const FOOTER_LAYOUT := [
    Field(0, 4), Field(4, 2), Field(6, 2), Field(8, 4), Field(12, 4), Field(16, 8), Field(24, 4),
    Field(28, 4), Field(32, 4), Field(36, 4), Field(40, 8), Field(48, 16)]

  function FooterWords(f: Footer): (w: seq<nat>)
    ensures |w| == 12
  {
    [FOOTER_MAGIC, f.major, f.minor, f.flags, f.dirLen, f.dirOffset, f.recordCount, f.chunkCount,
     f.nodeCount, f.layerCount, f.fileLen, f.fileHash]
  }

  function FooterBytes(f: Footer): (s: seq<byte>)
    ensures |s| == FOOTER_SIZE
  {
    Pack(FOOTER_SIZE, FOOTER_LAYOUT, FooterWords(f))
  }

  function ParseFooter(s: seq<byte>): Result<Footer> {
    if |s| < FOOTER_SIZE then Err(Truncated) else
    if GetU32(s, 0) != FOOTER_MAGIC then Err(BadMagic)
    else if GetU16(s, 4) != VERSION_MAJOR then Err(UnsupportedVersion)
    else Ok(Footer(
      GetU16(s, 4), GetU16(s, 6), GetU32(s, 8), GetU32(s, 12), GetU64(s, 16), GetU32(s, 24),
      GetU32(s, 28), GetU32(s, 32), GetU32(s, 36), GetU64(s, 40), GetU128(s, 48)))
  }

  lemma FooterWordsFit(f: Footer)
    ensures Fits(FOOTER_LAYOUT, FooterWords(f))
  {
    Widths();
  }

  lemma FooterFieldsRead(f: Footer)
    ensures forall i :: 0 <= i < 12 ==> GetWord(FooterBytes(f), FOOTER_LAYOUT[i]) == FooterWords(f)[i]
  {
    FooterWordsFit(f);
    Contiguous(FOOTER_LAYOUT, FOOTER_SIZE);
    Unpacked(FOOTER_SIZE, FOOTER_LAYOUT, FooterWords(f));
  }

  lemma FooterRoundTrip(f: Footer)
    requires f.major == VERSION_MAJOR
    ensures ParseFooter(FooterBytes(f)) == Ok(f)
  {
    FooterFieldsRead(f);
    hide UnLE, LE, Pow256, PutWords;
    assert FOOTER_LAYOUT[0] == Field(0, 4) && FOOTER_LAYOUT[1] == Field(4, 2)
        && FOOTER_LAYOUT[2] == Field(6, 2) && FOOTER_LAYOUT[3] == Field(8, 4);
    assert FOOTER_LAYOUT[4] == Field(12, 4) && FOOTER_LAYOUT[5] == Field(16, 8)
        && FOOTER_LAYOUT[6] == Field(24, 4) && FOOTER_LAYOUT[7] == Field(28, 4);
    assert FOOTER_LAYOUT[8] == Field(32, 4) && FOOTER_LAYOUT[9] == Field(36, 4)
        && FOOTER_LAYOUT[10] == Field(40, 8) && FOOTER_LAYOUT[11] == Field(48, 16);
  }

  /** The first 48 footer bytes do not depend on the hash, and the last 16 are the hash. */
  lemma FooterSplit(f: Footer, hash: u128)
    ensures FooterBytes(f.(fileHash := hash))[..HASH_OFFSET] == FooterBytes(f)[..HASH_OFFSET]
    ensures FooterBytes(f.(fileHash := hash))[HASH_OFFSET..] == LE(hash, HASH_SIZE)
  {
    var g := f.(fileHash := hash);
    var z := Zeros(FOOTER_SIZE);
    PutSame(z, FOOTER_LAYOUT, FooterWords(f), FooterWords(g), 11);
  }

  lemma {:induction false} PutSame(buf: seq<byte>, layout: seq<Field>, a: seq<nat>, b: seq<nat>, n: nat)
    requires n <= |layout| == |a| == |b|
    requires forall i :: 0 <= i < |layout| ==> layout[i].off + layout[i].width <= |buf|
    requires a[..n] == b[..n]
    ensures PutWords(buf, layout, a, n) == PutWords(buf, layout, b, n)
  {
    if n > 0 {
      assert a[..n - 1] == a[..n][..n - 1] && b[..n - 1] == b[..n][..n - 1];
      assert a[n - 1] == a[..n][n - 1] == b[..n][n - 1];
      PutSame(buf, layout, a, b, n - 1);
    }
  }

  /** One record of the meta block. */
  datatype TlvRecord = TlvRecord(tag: u32, value: seq<byte>)

  const TAG_LAYER_TABLE: u32 := 0x0000_0002
  const TAG_FEATURE_SCHEMA: u32 := 0x0000_0003
  const TAG_ZSTD_DICT: u32 := 0x0000_0007
  const TAG_DERIVED_LAYERS: u32 := 0x0000_000E

  function TlvBytes(records: seq<TlvRecord>): seq<byte> {
    if records == [] then []
    else LE(records[0].tag, 4) + LE(|records[0].value|, 4) + records[0].value + TlvBytes(records[1..])
  }

  function ParseTlv(s: seq<byte>): Result<seq<TlvRecord>>
    decreases |s|
  {
    if s == [] then Ok([])
    else if |s| < 8 then Err(Invalid)
    else
      WordInverse(s[..4]);
      Widths();
      var len := UnLE(s[4..8]);
      if 8 + len > |s| then Err(Truncated)
      else
        var rest :- ParseTlv(s[8 + len..]);
        Ok([TlvRecord(UnLE(s[..4]), s[8..8 + len])] + rest)
  }

  /** Lengths are stored in 32 bits; a longer value would be cut. */
  ghost predicate TlvFits(records: seq<TlvRecord>) {
    forall i :: 0 <= i < |records| ==> |records[i].value| < 0x1_0000_0000
  }

  lemma {:induction false} TlvRoundTrip(records: seq<TlvRecord>)
    requires TlvFits(records)
    ensures ParseTlv(TlvBytes(records)) == Ok(records)
  {
    if records != [] {
      Widths();
      var s := TlvBytes(records);
      var v := records[0].value;
      WordRoundTrip(records[0].tag, 4);
      WordRoundTrip(|v|, 4);
      assert s[..4] == LE(records[0].tag, 4);
      assert s[4..8] == LE(|v|, 4);
      assert s[8..8 + |v|] == v;
      assert s[8 + |v|..] == TlvBytes(records[1..]);
      TlvRoundTrip(records[1..]);
      assert records == [records[0]] + records[1..];
    }
  }

  /** First record with a tag. */
  function TlvGet(records: seq<TlvRecord>, tag: u32): (r: Option<seq<byte>>)
  {
    if records == [] then None
    else if records[0].tag == tag then Some(records[0].value)
    else TlvGet(records[1..], tag)
  }

  /** Replaces the first record with the tag, or appends. */
  function TlvSet(records: seq<TlvRecord>, record: TlvRecord): seq<TlvRecord> {
    if records == [] then [record]
    else if records[0].tag == record.tag then [record] + records[1..]
    else [records[0]] + TlvSet(records[1..], record)
  }

  lemma {:induction false} TlvSetGet(records: seq<TlvRecord>, record: TlvRecord, tag: u32)
    ensures TlvGet(TlvSet(records, record), tag)
         == if tag == record.tag then Some(record.value) else TlvGet(records, tag)
    ensures TlvFits(records) && |record.value| < 0x1_0000_0000 ==> TlvFits(TlvSet(records, record))
  {
    if records != [] && records[0].tag != record.tag {
      TlvSetGet(records[1..], record, tag);
      var t := TlvSet(records, record);
      assert t[1..] == TlvSet(records[1..], record);
      if TlvFits(records) && |record.value| < 0x1_0000_0000 {
        forall i | 0 <= i < |t|
          ensures |t[i].value| < 0x1_0000_0000
        {
          if i > 0 { assert t[i] == t[1..][i - 1]; }
        }
      }
    } else {
      var t := TlvSet(records, record);
      assert records != [] ==> t[1..] == records[1..];
      assert forall i :: 0 < i < |t| ==> t[i] == records[i];
    }
  }

  /** The layer registry record; the count is stored in 16 bits and the list is cut to match. */
  function LayerTableBytes(layers: seq<LayerDesc>): seq<byte> {
    var kept := if |layers| <= 0xFFFF then layers else layers[..0xFFFF];
    LE(|kept|, 2) + Flatten(kept, DescBytes)
  }

  function ParseLayerTable(s: seq<byte>): Result<seq<LayerDesc>> {
    if |s| < 2 then Err(Truncated)
    else
      var count := UnLE(s[..2]);
      if 2 + count * DESC_SIZE > |s| then Err(Truncated)
      else ParseMany(s[2..2 + count * DESC_SIZE], DESC_SIZE, ParseDesc)
  }

  lemma LayerTableRoundTrip(layers: seq<LayerDesc>)
    requires |layers| <= 0xFFFF
    ensures ParseLayerTable(LayerTableBytes(layers)) == Ok(layers)
  {
    hide DescBytes, ParseDesc, Flatten, ParseMany, UnLE, LE, Pow256;
    Widths();
    var s := LayerTableBytes(layers);
    WordRoundTrip(|layers|, 2);
    assert s[..2] == LE(|layers|, 2);
    forall d | d in layers
      ensures |DescBytes(d)| == DESC_SIZE && ParseDesc(DescBytes(d)) == Ok(d)
    {
      DescRoundTrip(d);
    }
    FlattenLength(layers, DESC_SIZE, DescBytes);
    ParseFlatten(layers, DESC_SIZE, DescBytes, ParseDesc);
    assert s[2..2 + |layers| * DESC_SIZE] == Flatten(layers, DescBytes);
  }

  /** The layer table of a meta block; a block without one registers no layer. */
  function LayersOf(meta: seq<TlvRecord>): Result<seq<LayerDesc>> {
    match TlvGet(meta, TAG_LAYER_TABLE)
    case None => Ok([])
    case Some(value) => ParseLayerTable(value)
  }

  /** First descriptor with an id. */
  function DescOf(layers: seq<LayerDesc>, id: LayerId): (d: Option<LayerDesc>)
    ensures d.Some? ==> d.value in layers && d.value.id == id
    ensures d.None? ==> forall k :: 0 <= k < |layers| ==> layers[k].id != id
  {
    if layers == [] then None
    else if layers[0].id == id then Some(layers[0])
    else DescOf(layers[1..], id)
  }
}
