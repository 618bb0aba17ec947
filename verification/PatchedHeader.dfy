/** What a patch leaves of the base's header, footer and extension area, field by field. */
module PatchedHeader {
  import opened Bytes
  import opened Layout
  import opened Records
  import opened Reader
  import opened Written
  import opened Patching
  import opened PatchLaws = Patched
  import Directory
  import WM = WriterModel

  /** Everything in the header that is not an address or a length is the base's. */
  ghost predicate SameMap(a: Header, b: Header) {
    && a.major == b.major && a.minor == b.minor && a.flags == b.flags
    && a.refLon == b.refLon && a.refLat == b.refLat && a.epsg == b.epsg
    && a.x0 == b.x0 && a.y0 == b.y0 && a.x1 == b.x1 && a.y1 == b.y1
    && a.resCm == b.resCm && a.chunkSize == b.chunkSize && a.lodCount == b.lodCount && a.featureDim == b.featureDim
  }

  /** The new counts; the layers are counted before the metadata change, and the flags are kept. */
  ghost predicate NewCounts(v: MapView, w: MapView, length: nat) {
    var h, f := w.header, w.footer;
    && h.layerCount == (if |v.layers| < 65535 then |v.layers| else 65535)
    && f.major == 1 && f.minor == 0 && f.flags == v.header.flags && f.nodeCount == v.footer.nodeCount
    && f.recordCount == |w.directory| && f.chunkCount == |w.directory|
    && (|v.layers| < 0x1_0000_0000 ==> f.layerCount == |v.layers|)
    && f.dirOffset == h.dirOffset && f.dirLen == h.dirLen == 32 * |w.directory|
    && f.fileLen == length && h.footerOffset == length - 64 && h.extLen == v.header.extLen
  }

  lemma PartsTell(P: Primitives, p: Patch, base: seq<byte>, v: MapView)
    requires |base| >= FRAME_SIZE
    ensures var q, d := PartsOf(P, p, base, v), FinalDirectory(P, p, base, v);
      && SameMap(q.h, v.header)
      && q.h.layerCount == (if |v.layers| < 65535 then |v.layers| else 65535)
      && q.f.flags == v.header.flags && q.f.nodeCount == v.footer.nodeCount && q.f.minor == 0 && q.f.major == 1
      && (|d| < 0x1_0000_0000 ==> q.f.recordCount == |d| && q.f.chunkCount == |d|)
      && (|v.layers| < 0x1_0000_0000 ==> q.f.layerCount == |v.layers|)
      && q.f.dirOffset == q.h.dirOffset && q.f.dirLen == q.h.dirLen
  {
    hide MetaStep, FinalBody, FinalDirectory, Flatten;
  }

  /** The opened patched map is the base's map with new counts. */
  lemma PatchedHeaderTells(P: Primitives, p: Patch, base: seq<byte>, v: MapView)
    requires Ready(P, p, base, v) && v.header.minor == VERSION_MINOR && Readable(P, NewMeta(v, p))
    ensures Open(P, Patched(P, p, base, v)).Ok?
    ensures var img := Patched(P, p, base, v); var w := Open(P, img).value;
      SameMap(w.header, v.header) && NewCounts(v, w, |img|)
  {
    PatchOpensExactly(P, p, base, v);
    PartsTell(P, p, base, v);
    PatchedLaid(P, p, base, v);
    hide PartsOf, MetaStep, FinalDirectory, Patched, NewMeta, Open, Seal, Readable, WellFormed, Flatten, FindStale, LayersOf,
         ComposeHash, DictOf, Directory.Strict, HeaderBytes, FooterBytes;
  }

  /** The extension area of the patched map holds the base's bytes. */
  lemma ExtensionKept(P: Primitives, p: Patch, base: seq<byte>, v: MapView)
    requires Ready(P, p, base, v) && v.header.minor == VERSION_MINOR && Readable(P, NewMeta(v, p))
    requires v.header.extLen > 0 && v.header.extOffset >= HEADER_SIZE
    ensures Open(P, Patched(P, p, base, v)).Ok?
    ensures var img := Patched(P, p, base, v); var h := Open(P, img).value.header;
      && h.extLen == v.header.extLen
      && Region(img, h.extOffset, h.extLen) == Region(base, v.header.extOffset, v.header.extLen)
      && Region(base, v.header.extOffset, v.header.extLen).Ok?
  {
    PatchOpensExactly(P, p, base, v);
    if p.metaPatch == [] { ExtensionStays(P, p, base, v); } else { ExtensionMoves(P, p, base, v); }
    hide PartsOf, FinalDirectory, Patched, NewMeta, Open, Readable, FindStale, LayersOf, Region, Ready, SealedFooter, DictOf;
  }

  lemma ExtensionStays(P: Primitives, p: Patch, base: seq<byte>, v: MapView)
    requires Ready(P, p, base, v) && p.metaPatch == []
    requires v.header.extLen > 0 && v.header.extOffset >= HEADER_SIZE
    ensures var h := PartsOf(P, p, base, v).h;
      && h.extLen == v.header.extLen
      && Region(Patched(P, p, base, v), h.extOffset, h.extLen) == Region(base, v.header.extOffset, v.header.extLen)
      && Region(base, v.header.extOffset, v.header.extLen).Ok?
  {
    PatchedLaid(P, p, base, v);
    var q := PartsOf(P, p, base, v);
    var m := MetaStep(P, base, v, p, q.body);
    assert m.1.extOffset == v.header.extOffset;
    hide PartsOf, MetaStep, FinalDirectory, Patched, NewMeta, Open, Seal, Flatten, Directory.Strict, Region, PatchFits;
    RangeKept(P, base, v, Patched(P, p, base, v), q, m.0, m.1, FinalDirectory(P, p, base, v), v.header.extOffset, v.header.extLen);
  }

  lemma ExtensionMoves(P: Primitives, p: Patch, base: seq<byte>, v: MapView)
    requires |base| >= FRAME_SIZE && Ready(P, p, base, v) && p.metaPatch != []
    ensures var h := PartsOf(P, p, base, v).h;
      && h.extLen == v.header.extLen
      && Region(Patched(P, p, base, v), h.extOffset, h.extLen) == Region(base, v.header.extOffset, v.header.extLen)
      && Region(base, v.header.extOffset, v.header.extLen).Ok?
  {
    hide PartsOf, MetaStep, FinalDirectory, Patched, NewMeta, WellFormed, Laid, Moved, ExtBytes, Region, PatchFits, TlvBytes;
    PatchedLaid(P, p, base, v);
    PatchedMoved(P, p, base, v);
    MovedExtension(P, p, base, v);
    var q := PartsOf(P, p, base, v);
    var m := MetaStep(P, base, v, p, q.body);
    MovedReads(P, base, v, Patched(P, p, base, v), q, m.0, m.1, FinalDirectory(P, p, base, v), P.zstd(TlvBytes(NewMeta(v, p))));
  }

  /** The re-emitted body holds the extension area right behind the meta block. */
  lemma MovedExtension(P: Primitives, p: Patch, base: seq<byte>, v: MapView)
    requires |base| >= FRAME_SIZE && p.metaPatch != []
    ensures var q := PartsOf(P, p, base, v); var m := MetaStep(P, base, v, p, q.body).0;
      var at, ext := |q.body| + |P.zstd(TlvBytes(NewMeta(v, p)))|, ExtBytes(base, v.header);
      at + |ext| <= |m| && m[at..at + |ext|] == ext
  {
    hide TlvBytes, NewMeta, ExtBytes, Flatten, FinalBody, FinalDirectory, NewHeader, NewFooter, Zeros, Align8;
    var q := PartsOf(P, p, base, v);
    var block, ext := P.zstd(TlvBytes(NewMeta(v, p))), ExtBytes(base, v.header);
    var end := HEADER_SIZE + |q.body| + |block| + |ext|;
    Middle(q.body + block, ext, Zeros(Align8(end) - end) + Flatten(v.skeleton, NodeBytes));
    assert MetaStep(P, base, v, p, q.body).0
        == q.body + block + ext + (Zeros(Align8(end) - end) + Flatten(v.skeleton, NodeBytes));
  }

  lemma Middle(a: seq<byte>, b: seq<byte>, c: seq<byte>)
    ensures (a + b + c)[|a|..|a| + |b|] == b
  {
  }

  lemma MovedReads(P: Primitives, base: seq<byte>, v: MapView, img: seq<byte>, q: Parts, m: seq<byte>, place: MetaPlace,
                   d: seq<ChunkRecord>, block: seq<byte>)
    requires Laid(P, base, v, img, q, m, place, d) && Moved(P, base, v, q, m, block) && WellFormed(P, base, v)
    requires var at, ext := |q.body| + |block|, ExtBytes(base, v.header);
      at + |ext| <= |m| && m[at..at + |ext|] == ext
    ensures q.h.extLen == v.header.extLen
    ensures Region(img, q.h.extOffset, q.h.extLen) == Region(base, v.header.extOffset, v.header.extLen)
    ensures Region(base, v.header.extOffset, v.header.extLen).Ok?
  {
    hide Seal, Flatten, Directory.Strict, Open, Align8;
    var at, ext := |q.body| + |block|, ExtBytes(base, v.header);
    ExtKept(P, base, v);
    PrefixSlice(m, q.mid, at, at + |ext|);
    SealLocated(P, q.h, q.mid, q.f, at, ext);
  }
}
