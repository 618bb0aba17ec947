/**
 * The records of the format as bytes: the fields of each one after another, in the order and the
 * widths the format lists them in, without offsets.  Offsets enter where records are packed and
 * parsed; a field moved or swapped there would no longer give the strings below.
 */
module OnDisk {
  import opened Bytes
  import opened Layout
  import opened Records

  /** A field as the format lists it: how many bytes, and the number in them. */
  datatype Part = Part(width: nat, value: nat)

  function Joined(parts: seq<Part>): seq<byte> {
    if parts == [] then []
    else var last := parts[|parts| - 1];
         Joined(parts[..|parts| - 1]) + LE(last.value, last.width)
  }

  ghost predicate Lists(layout: seq<Field>, words: seq<nat>, parts: seq<Part>) {
    && |layout| == |words| == |parts| > 0
    && layout[0].off == 0
    && (forall i :: 0 <= i < |layout| - 1 ==> Abut(layout, i))
    && (forall i :: 0 <= i < |layout| ==> layout[i].width == parts[i].width && words[i] == parts[i].value)
  }

  /** Fields that abut are packed one after another, and the rest of the buffer is zero. */
  lemma {:induction false} PackedIsJoined(size: nat, layout: seq<Field>, words: seq<nat>, parts: seq<Part>, n: nat)
    requires Lists(layout, words, parts) && n <= |layout|
    requires forall i :: 0 <= i < |layout| ==> layout[i].off + layout[i].width <= size
    ensures |Joined(parts[..n])| == (if n == 0 then 0 else layout[n - 1].off + layout[n - 1].width)
    ensures PutWords(Zeros(size), layout, words, n) == Joined(parts[..n]) + Zeros(size - |Joined(parts[..n])|)
  {
    hide Put, LE;
    if n > 0 {
      PackedIsJoined(size, layout, words, parts, n - 1);
      assert parts[..n][..n - 1] == parts[..n - 1] && parts[..n][n - 1] == parts[n - 1];
      var f := layout[n - 1];
      var before, data := Joined(parts[..n - 1]), LE(words[n - 1], f.width);
      assert Joined(parts[..n]) == before + data;
      assert n > 1 ==> Abut(layout, n - 2);
      PutNext(before, size - |before|, data);
    }
  }

  lemma PutNext(before: seq<byte>, room: nat, data: seq<byte>)
    requires |data| <= room
    ensures Put(before + Zeros(room), |before|, data) == before + data + Zeros(room - |data|)
  {
  }

  lemma PackedWhole(size: nat, layout: seq<Field>, words: seq<nat>, parts: seq<Part>, rest: nat)
    requires Lists(layout, words, parts)
    requires forall i :: 0 <= i < |layout| ==> layout[i].off + layout[i].width <= size
    requires layout[|layout| - 1].off + layout[|layout| - 1].width + rest == size
    ensures Pack(size, layout, words) == Joined(parts) + Zeros(rest)
  {
    assert parts[..|layout|] == parts;
    PackedIsJoined(size, layout, words, parts, |layout|);
  }

  function RecordParts(r: ChunkRecord): seq<Part> {
    [Part(4, r.key.chunk), Part(2, r.key.layer), Part(1, r.key.level), Part(1, r.codec), Part(8, r.offset),
     Part(4, r.compLen), Part(4, r.rawLen), Part(4, r.crc), Part(4, r.flags)]
  }

  lemma RecordOnDisk(r: ChunkRecord)
    ensures RecordBytes(r) == Joined(RecordParts(r))
  {
    hide Joined, LE, PutWords;
    var words := [r.key.chunk, r.key.layer, r.key.level, r.codec, r.offset, r.compLen, r.rawLen, r.crc, r.flags];
    PackedWhole(RECORD_SIZE, RECORD_LAYOUT, words, RecordParts(r), 0);
  }

  function NodeParts(n: QNode): seq<Part> {
    [Part(8, n.morton), Part(1, n.flags), Part(1, n.depth), Part(2, n.tileRef), Part(2, n.mean), Part(2, n.max)]
  }

  lemma NodeOnDisk(n: QNode)
    ensures NodeBytes(n) == Joined(NodeParts(n))
  {
    hide Joined, LE, PutWords;
    var words := [n.morton, n.flags, n.depth, n.tileRef, n.mean, n.max];
    PackedWhole(NODE_SIZE, NODE_LAYOUT, words, NodeParts(n), 0);
  }

  function DescParts(d: LayerDesc): seq<Part> {
    [Part(2, d.id), Part(1, d.kind), Part(1, d.channels), Part(1, d.dtype), Part(1, d.codec),
     Part(4, d.scale), Part(4, d.bias), Part(1, if d.sparse then 1 else 0)]
  }

  lemma DescOnDisk(d: LayerDesc)
    ensures DescBytes(d) == Joined(DescParts(d)) + Zeros(9)
  {
    hide Joined, LE, PutWords;
    var words := [d.id, d.kind, d.channels, d.dtype, d.codec, d.scale, d.bias, if d.sparse then 1 else 0];
    PackedWhole(DESC_SIZE, DESC_LAYOUT, words, DescParts(d), 9);
  }

  function HeaderParts(h: Header): seq<Part> {
    [Part(4, 0x0046_4D4F), Part(2, h.major), Part(2, h.minor), Part(4, h.flags),
     Part(8, h.refLon), Part(8, h.refLat), Part(4, h.epsg),
     Part(4, h.x0), Part(4, h.y0), Part(4, h.x1), Part(4, h.y1),
     Part(2, h.resCm), Part(2, h.chunkSize), Part(1, h.lodCount), Part(1, h.featureDim), Part(2, h.layerCount),
     Part(8, h.metaOffset), Part(4, h.metaLen), Part(8, h.dirOffset), Part(4, h.dirLen),
     Part(8, h.footerOffset), Part(8, h.extOffset), Part(4, h.extLen)]
  }

  lemma HeaderListed(h: Header)
    ensures Lists(HEADER_LAYOUT, HeaderWords(h), HeaderParts(h))
  {
    assert |HEADER_LAYOUT| == |HeaderParts(h)| == 23;
    HeaderAbuts();
    hide Abut;
  }

  lemma HeaderAbuts()
    ensures forall i :: 0 <= i < 22 ==> Abut(HEADER_LAYOUT, i)
    ensures forall i :: 0 <= i < 23 ==> HEADER_LAYOUT[i].off + HEADER_LAYOUT[i].width <= 100
  {
  }

  lemma HeaderFieldsOnDisk(h: Header)
    ensures Pack(HEADER_SIZE, HEADER_LAYOUT, HeaderWords(h)) == Joined(HeaderParts(h)) + Zeros(28)
  {
    hide Joined, LE, PutWords, HeaderParts, HeaderWords, Lists;
    HeaderListed(h);
    HeaderAbuts();
    PackedWhole(HEADER_SIZE, HEADER_LAYOUT, HeaderWords(h), HeaderParts(h), 28);
  }

  /** The header is its fields, the checksum of those hundred bytes, and reserved zeros. */
  lemma HeaderOnDisk(P: Primitives, h: Header)
    ensures var fields := Joined(HeaderParts(h));
      HeaderBytes(P, h) == fields + LE(P.crc32(fields), 4) + Zeros(24)
  {
    hide Joined, LE, Pack, HeaderParts, HeaderWords, Put;
    HeaderFieldsOnDisk(h);
    var fields := Joined(HeaderParts(h));
    assert (fields + Zeros(28))[..100] == fields;
    PutNext(fields, 28, LE(P.crc32(fields), 4));
  }

  function FooterParts(f: Footer): seq<Part> {
    [Part(4, 0x4646_4D4F), Part(2, f.major), Part(2, f.minor), Part(4, f.flags), Part(4, f.dirLen),
     Part(8, f.dirOffset), Part(4, f.recordCount), Part(4, f.chunkCount), Part(4, f.nodeCount),
     Part(4, f.layerCount), Part(8, f.fileLen), Part(16, f.fileHash)]
  }

  lemma FooterOnDisk(f: Footer)
    ensures FooterBytes(f) == Joined(FooterParts(f))
  {
    hide Joined, LE, PutWords;
    PackedWhole(FOOTER_SIZE, FOOTER_LAYOUT, FooterWords(f), FooterParts(f), 0);
  }
}
