/**
 * What a chunk read gives: nothing but what its record, its checksum and its layer vouch for, and
 * for a payload that was encoded and written, that payload.
 */
module StoredChunks {
  import opened Bytes
  import opened Records
  import opened Reader
  import opened WriterModel
  import opened Written
  import opened WrittenHeader
  import opened WriterCalls
  import Directory

  /** The shape a payload of the layer is decoded to: a full square of cells, or a row of bytes. */
  function ShapeFor(h: Header, desc: LayerDesc, rawLen: nat): ChunkShape {
    var n := if h.chunkSize < 1 then 1 else h.chunkSize;
    if desc.kind in {0, 3} then ChunkShape(n, n, if desc.channels < 1 then 1 else desc.channels, desc.dtype)
    else ChunkShape(rawLen, 1, 1, 3)
  }

  /** Its length on the record is the shape's, its level is one the header declares, and neither
      is beyond 256 MiB. */
  predicate Sized(h: Header, desc: LayerDesc, level: u8, rawLen: nat) {
    && rawLen <= 0x1000_0000
    && (desc.kind in {0, 3} ==>
          && level < (if h.lodCount < 1 then 1 else h.lodCount)
          && rawLen == ChunkBytes(if h.chunkSize < 1 then 1 else h.chunkSize,
                                  desc.(channels := if desc.channels < 1 then 1 else desc.channels)))
  }

  lemma DecodedExactly(P: Primitives, h: Header, desc: LayerDesc, dict: Option<seq<byte>>, level: u8, codec: u8, rawLen: u32,
                       stored: seq<byte>)
    ensures DecodeStored(P, h, desc, dict, level, codec, rawLen, stored)
         == if Sized(h, desc, level, rawLen) then P.decodeChunk(codec, ShapeFor(h, desc, rawLen), stored, dict)
            else Err(Invalid)
  {
  }

  /** The record is live and of the directory, its bytes lie in the file and pass its checksum, its
      length is its shape's, and the bytes decode to the payload. */
  ghost predicate Vouches(P: Primitives, v: MapView, img: seq<byte>, key: Key, r: ChunkRecord, payload: seq<byte>)
    requires DescOf(v.layers, key.layer).Some?
  {
    var desc := DescOf(v.layers, key.layer).value;
    && r in v.directory && r.key == key && r.flags / 0x8000_0000 % 2 == 0 && P.supported(r.codec)
    && r.offset + r.compLen <= |img| && P.crc32(img[r.offset..r.offset + r.compLen]) == r.crc
    && Sized(v.header, desc, key.level, r.rawLen)
    && P.decodeChunk(r.codec, ShapeFor(v.header, desc, r.rawLen), img[r.offset..r.offset + r.compLen], v.dict) == Ok(payload)
  }

  /** A payload that is served is vouched for: its layer is registered and not stale, its record is
      live, its stored bytes lie in the file and pass the checksum, and it is what they decode to. */
  lemma ServedIsVouched(P: Primitives, v: MapView, img: seq<byte>, key: Key, payload: seq<byte>)
    requires ChunkPayload(P, v, img, key) == Ok(Some(payload))
    ensures key.layer !in v.stale && DescOf(v.layers, key.layer).Some?
    ensures exists r :: Vouches(P, v, img, key, r, payload)
  {
    var r := Directory.Find(v.directory, key).value;
    var desc := DescOf(v.layers, key.layer).value;
    var stored := img[r.offset..r.offset + r.compLen];
    DecodedExactly(P, v.header, desc, v.dict, key.level, r.codec, r.rawLen, stored);
    hide DecodeStored, Directory.Find, ShapeFor, Sized;
    assert Vouches(P, v, img, key, r, payload);
  }

  /** Stored bytes that fail their record's checksum are refused, whatever they would decode to. */
  lemma BadBytesRefused(P: Primitives, v: MapView, img: seq<byte>, key: Key, r: ChunkRecord)
    requires key.layer !in v.stale && Directory.Find(v.directory, key) == Some(r)
    requires r.flags / 0x8000_0000 % 2 == 0 && P.supported(r.codec)
    requires r.offset + r.compLen <= |img| && P.crc32(img[r.offset..r.offset + r.compLen]) != r.crc
    ensures ChunkPayload(P, v, img, key) == Err(ChunkCrc)
  {
    hide Directory.Find;
  }

  /** A record marked as a tombstone reads as no chunk at all. */
  lemma TombstoneReadsAbsent(P: Primitives, v: MapView, img: seq<byte>, key: Key, r: ChunkRecord)
    requires key.layer !in v.stale && Directory.Find(v.directory, key) == Some(r)
    requires r.flags / 0x8000_0000 % 2 == 1
    ensures ChunkPayload(P, v, img, key) == Ok(None)
  {
    hide Directory.Find;
  }

  /** A supported decoder undoes its encoder on payloads of the shape's length. */
  ghost predicate Inverts(P: Primitives, encode: (u8, ChunkShape, seq<byte>, Option<seq<byte>>) -> seq<byte>) {
    forall codec, shape: ChunkShape, payload, dict :: P.supported(codec) && |payload| == shape.TotalBytes() ==>
      P.decodeChunk(codec, shape, encode(codec, shape, payload, dict), dict) == Ok(payload)
  }

  lemma SizedFills(h: Header, desc: LayerDesc, level: u8, rawLen: nat)
    requires Sized(h, desc, level, rawLen)
    ensures ShapeFor(h, desc, rawLen).TotalBytes() == rawLen
  {
  }

  /**
   * From payload to payload: what was encoded for its layer and written last under its key is what
   * the reader of the finished file returns.
   */
  lemma PayloadRoundTrip(P: Primitives, encode: (u8, ChunkShape, seq<byte>, Option<seq<byte>>) -> seq<byte>,
                         spec: Spec, ops: seq<Op>, key: Key, codec: u8, payload: seq<byte>)
    requires P.Lawful() && Inverts(P, encode) && Representable(P, Run(P, spec, ops))
    requires Open(P, Image(P, spec, ops)).Ok?
    requires var v := Open(P, Image(P, spec, ops)).value;
      && key.layer !in v.stale && DescOf(v.layers, key.layer).Some? && P.supported(codec)
      && |payload| < 0x1_0000_0000
      && var desc := DescOf(v.layers, key.layer).value;
      && Sized(v.header, desc, key.level, |payload|)
      && LastWrite(ops, key)
           == Some(Chunk(codec, encode(codec, ShapeFor(v.header, desc, |payload|), payload, v.dict), |payload|))
    ensures var img := Image(P, spec, ops); ChunkPayload(P, Open(P, img).value, img, key) == Ok(Some(payload))
  {
    hide Image, Open, Run, Representable, ChunkPayload, LastWrite, DecodeStored, ShapeFor, Sized;
    var v := Open(P, Image(P, spec, ops)).value;
    var desc := DescOf(v.layers, key.layer).value;
    ReadsLastWrite(P, spec, ops, key);
    SizedFills(v.header, desc, key.level, |payload|);
    DecodedExactly(P, v.header, desc, v.dict, key.level, codec, |payload|,
                   encode(codec, ShapeFor(v.header, desc, |payload|), payload, v.dict));
  }
}
