/** Applying a patch: new bytes are appended, old bytes stay where they are. */
module Patching {
  import opened Bytes
  import opened Layout
  import opened Records
  import opened Reader
  import WM = WriterModel
  import Directory

  datatype Replacement = Replacement(key: Key, codec: u8, payload: seq<byte>, rawLen: u32)

  datatype Patch = Patch(baseHash: u64, replacements: seq<Replacement>, metaPatch: seq<TlvRecord>)

  function Hash64(hash: u128): u64 { hash % 0x1_0000_0000_0000_0000 }

  /** A cache layer is refused before the registry is consulted. */
  function CheckPatchable(layers: seq<LayerDesc>, id: LayerId): Result<()> {
    if IsDerived(id) then Err(PatchDerivedLayer)
    else if DescOf(layers, id).None? then Err(LayerNotFound)
    else Ok(())
  }

  function CheckAll(layers: seq<LayerDesc>, rs: seq<Replacement>): Result<()> {
    if rs == [] then Ok(()) else
    var _ :- CheckPatchable(layers, rs[0].key.layer);
    CheckAll(layers, rs[1..])
  }

  function RecordAt(P: Primitives, offset: nat, r: Replacement): ChunkRecord {
    ChunkRecord(r.key, r.codec, WM.Cast64(offset), WM.Cast32(|r.payload|), r.rawLen, P.crc32(r.payload), 0)
  }

  /** Body and directory after the first `n` payloads were appended at the end. */
  function Appended(P: Primitives, body: seq<byte>, d: seq<ChunkRecord>, rs: seq<Replacement>, n: nat): (seq<byte>, seq<ChunkRecord>)
    requires n <= |rs|
  {
    if n == 0 then (body, d) else
    var prior := Appended(P, body, d, rs, n - 1);
    (prior.0 + rs[n - 1].payload, Directory.Upsert(prior.1, RecordAt(P, HEADER_SIZE + |prior.0|, rs[n - 1])))
  }

  function MergedMeta(meta: seq<TlvRecord>, changes: seq<TlvRecord>, n: nat): seq<TlvRecord>
    requires n <= |changes|
  {
    if n == 0 then meta else TlvSet(MergedMeta(meta, changes, n - 1), changes[n - 1])
  }

  function NewMeta(v: MapView, p: Patch): seq<TlvRecord> { MergedMeta(v.meta, p.metaPatch, |p.metaPatch|) }

  /** The extension area of the base, or nothing when its range leaves the file. */
  function ExtBytes(base: seq<byte>, h: Header): seq<byte> {
    if h.extOffset + h.extLen <= |base| then base[h.extOffset..h.extOffset + h.extLen] else []
  }

  /** Where the meta areas of the patched file are. */
  datatype MetaPlace = MetaPlace(metaOffset: u64, metaLen: u32, extOffset: u64)

  /**
   * The meta step: unchanged, or block, extension area, padding and skeleton once more at the
   * end, because the skeleton is found by address arithmetic from the meta block.
   */
  function MetaStep(P: Primitives, base: seq<byte>, v: MapView, p: Patch, body: seq<byte>): (seq<byte>, MetaPlace) {
    if p.metaPatch == [] then
      (body, MetaPlace(v.header.metaOffset, v.header.metaLen, v.header.extOffset))
    else
      var compressed := P.zstd(TlvBytes(NewMeta(v, p)));
      var ext := ExtBytes(base, v.header);
      var end := HEADER_SIZE + |body| + |compressed| + |ext|;
      (body + compressed + ext + Zeros(Align8(end) - end) + Flatten(v.skeleton, NodeBytes),
       MetaPlace(WM.Cast64(HEADER_SIZE + |body|), WM.Cast32(|compressed|), WM.Cast64(HEADER_SIZE + |body| + |compressed|)))
  }

  function NewHeader(v: MapView, m: MetaPlace, bodyLen: nat, dirLen: nat): Header {
    v.header.(
      dirOffset := WM.Cast64(HEADER_SIZE + bodyLen), dirLen := WM.Cast32(dirLen),
      footerOffset := WM.Cast64(HEADER_SIZE + bodyLen + dirLen),
      metaOffset := m.metaOffset, metaLen := m.metaLen, extOffset := m.extOffset,
      layerCount := if |v.layers| < 0xFFFF then |v.layers| else 0xFFFF)
  }

  /** The footer carries this crate's version, not the base's. */
  function NewFooter(v: MapView, d: seq<ChunkRecord>, bodyLen: nat, dirLen: nat): Footer {
    Footer(VERSION_MAJOR, VERSION_MINOR, v.header.flags, WM.Cast32(dirLen), WM.Cast64(HEADER_SIZE + bodyLen),
           WM.Cast32(|d|), WM.Cast32(|d|), v.footer.nodeCount, WM.Cast32(|v.layers|),
           WM.Cast64(HEADER_SIZE + bodyLen + dirLen + FOOTER_SIZE), 0)
  }

  function KeptBody(base: seq<byte>): seq<byte>
    requires |base| >= FRAME_SIZE
  {
    base[HEADER_SIZE..|base| - FOOTER_SIZE]
  }

  function Patched(P: Primitives, p: Patch, base: seq<byte>, v: MapView): seq<byte>
    requires |base| >= FRAME_SIZE
  {
    var a := Appended(P, KeptBody(base), v.directory, p.replacements, |p.replacements|);
    var m := MetaStep(P, base, v, p, a.0);
    var dirBytes := Flatten(a.1, RecordBytes);
    Seal(P, NewHeader(v, m.1, |m.0|, |dirBytes|), m.0 + dirBytes, NewFooter(v, a.1, |m.0|, |dirBytes|))
  }

  function Apply(P: Primitives, p: Patch, base: seq<byte>): Result<seq<byte>> {
    var v :- Open(P, base);
    if p.baseHash != Hash64(v.footer.fileHash) then Err(PatchBaseMismatch) else
    var _ :- CheckAll(v.layers, p.replacements);
    Ok(Patched(P, p, base, v))
  }

  /** Appends the replacement payloads to the image and repoints the directory. */
  method AppendPayloads(P: Primitives, out0: seq<byte>, d0: seq<ChunkRecord>, rs: seq<Replacement>)
    returns (out: seq<byte>, d: seq<ChunkRecord>)
    requires |out0| >= HEADER_SIZE
    ensures |out| >= HEADER_SIZE && out[..HEADER_SIZE] == out0[..HEADER_SIZE]
    ensures (out[HEADER_SIZE..], d) == Appended(P, out0[HEADER_SIZE..], d0, rs, |rs|)
  {
    hide RecordAt, Directory.Upsert;
    out, d := out0, d0;
    for n := 0 to |rs|
      invariant |out| >= HEADER_SIZE && out[..HEADER_SIZE] == out0[..HEADER_SIZE]
      invariant (out[HEADER_SIZE..], d) == Appended(P, out0[HEADER_SIZE..], d0, rs, n)
    {
      var offset := |out|;
      ghost var before := out;
      out := out + rs[n].payload;
      d := Directory.Upsert(d, RecordAt(P, offset, rs[n]));
      assert out[HEADER_SIZE..] == before[HEADER_SIZE..] + rs[n].payload;
    }
  }

  /** Re-emits block, extension area, padding and skeleton at the end when the meta block changes. */
  method RewriteMeta(P: Primitives, base: seq<byte>, v: MapView, p: Patch, out0: seq<byte>)
    returns (out: seq<byte>, place: MetaPlace)
    requires |out0| >= HEADER_SIZE
    ensures |out| >= HEADER_SIZE && (out[HEADER_SIZE..], place) == MetaStep(P, base, v, p, out0[HEADER_SIZE..])
  {
    hide Flatten, TlvBytes, NodeBytes, TlvSet, Align8, Zeros, WM.Cast32, WM.Cast64, ExtBytes;
    out, place := out0, MetaPlace(v.header.metaOffset, v.header.metaLen, v.header.extOffset);
    if p.metaPatch != [] {
      var block := v.meta;
      for n := 0 to |p.metaPatch|
        invariant block == MergedMeta(v.meta, p.metaPatch, n)
      {
        block := TlvSet(block, p.metaPatch[n]);
      }
      var compressed := P.zstd(TlvBytes(block));
      var ext := ExtBytes(base, v.header);
      place := MetaPlace(WM.Cast64(|out|), WM.Cast32(|compressed|), WM.Cast64(|out| + |compressed|));
      var padding := Zeros(Align8(|out| + |compressed| + |ext|) - (|out| + |compressed| + |ext|));
      out := out + compressed;
      out := out + ext;
      out := out + padding;
      out := out + Flatten(v.skeleton, NodeBytes);
      assert out == out0 + compressed + ext + padding + Flatten(v.skeleton, NodeBytes);
      assert out[HEADER_SIZE..] == out0[HEADER_SIZE..] + compressed + ext + padding + Flatten(v.skeleton, NodeBytes);
    }
  }

  /** Directory, footer with its hash computed over the body, and last the header over its old copy. */
  method SealInPlace(P: Primitives, h: Header, f: Footer, out0: seq<byte>, dirBytes: seq<byte>) returns (out: seq<byte>)
    requires |out0| >= HEADER_SIZE
    ensures out == Seal(P, h, out0[HEADER_SIZE..] + dirBytes, f)
  {
    hide HeaderBytes, FooterBytes, ComposeHash;
    var headerBytes := HeaderBytes(P, h);
    var blank := FooterBytes(f)[..HASH_OFFSET];
    out := out0 + dirBytes;
    out := out + blank;
    var hash := ComposeHash(P, headerBytes, out[HEADER_SIZE..]);
    var sealed := FooterBytes(f.(fileHash := hash));
    out := out + sealed[HASH_OFFSET..];
    out := headerBytes + out[HEADER_SIZE..];
    FooterSplit(f, hash);
    DroppedHeader(out0, dirBytes, blank, sealed[HASH_OFFSET..]);
    assert sealed == blank + sealed[HASH_OFFSET..];
    Regrouped(headerBytes, out0[HEADER_SIZE..], dirBytes, blank, sealed[HASH_OFFSET..]);
  }

  lemma DroppedHeader(a: seq<byte>, b: seq<byte>, c: seq<byte>, d: seq<byte>)
    requires |a| >= HEADER_SIZE
    ensures (a + b + c)[HEADER_SIZE..] == a[HEADER_SIZE..] + b + c
    ensures (a + b + c + d)[HEADER_SIZE..] == a[HEADER_SIZE..] + b + c + d
  {
  }

  lemma Regrouped(h: seq<byte>, a: seq<byte>, b: seq<byte>, c: seq<byte>, d: seq<byte>)
    ensures h + (a + b + c + d) == h + (a + b) + (c + d)
  {
  }

  /** The code's own form: the image is copied, cut, grown step by step and its header overwritten. */
  method ApplyInPlace(P: Primitives, p: Patch, base: seq<byte>) returns (r: Result<seq<byte>>)
    ensures r == Apply(P, p, base)
  {
    hide Open, Flatten, Seal, MetaStep, Appended, NewHeader, NewFooter;
    var map_ := Open(P, base);
    if map_.Err? { return Err(map_.error); }
    var v := map_.value;
    if p.baseHash != Hash64(v.footer.fileHash) { return Err(PatchBaseMismatch); }
    var checked := CheckAll(v.layers, p.replacements);
    if checked.Err? { return Err(checked.error); }
    OpenIsFramed(P, base);
    var out := base[..|base| - FOOTER_SIZE];
    assert out[HEADER_SIZE..] == KeptBody(base);
    var directory;
    out, directory := AppendPayloads(P, out, v.directory, p.replacements);
    var place;
    out, place := RewriteMeta(P, base, v, p, out);
    var dirBytes := Flatten(directory, RecordBytes);
    var body := |out| - HEADER_SIZE;
    out := SealInPlace(P, NewHeader(v, place, body, |dirBytes|), NewFooter(v, directory, body, |dirBytes|), out, dirBytes);
    r := Ok(out);
  }

  lemma OpenIsFramed(P: Primitives, base: seq<byte>)
    requires Open(P, base).Ok?
    ensures |base| >= FRAME_SIZE
  {
    hide OpenBody;
  }
}
