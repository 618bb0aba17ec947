/** What a patched image reads back as. */
module Patched {
  import opened Bytes
  import opened Layout
  import opened Records
  import opened Sorting
  import opened Reader
  import opened Written
  import opened Patching
  import Directory
  import Fingerprint
  import WM = WriterModel

  /** Sizes that must fit their on-disk fields; the code casts without checking. */
  ghost predicate PatchFits(P: Primitives, p: Patch, base: seq<byte>, v: MapView)
    requires |base| >= FRAME_SIZE
  {
    && TlvFits(NewMeta(v, p)) && |P.zstd(TlvBytes(NewMeta(v, p)))| < 0x1_0000_0000
    && (forall k :: 0 <= k < |p.replacements| ==> |p.replacements[k].payload| < 0x1_0000_0000)
    && RECORD_SIZE * |FinalDirectory(P, p, base, v)| < 0x1_0000_0000
    && |Patched(P, p, base, v)| < 0x1_0000_0000_0000_0000
  }

  function FinalBody(P: Primitives, p: Patch, base: seq<byte>, v: MapView): seq<byte>
    requires |base| >= FRAME_SIZE
  {
    Appended(P, KeptBody(base), v.directory, p.replacements, |p.replacements|).0
  }

  function FinalDirectory(P: Primitives, p: Patch, base: seq<byte>, v: MapView): seq<ChunkRecord>
    requires |base| >= FRAME_SIZE
  {
    Appended(P, KeptBody(base), v.directory, p.replacements, |p.replacements|).1
  }

  /** The last replacement naming an address. */
  function LastNamed(rs: seq<Replacement>, n: nat, key: Key): (r: Option<Replacement>)
    requires n <= |rs|
    ensures r.Some? ==> r.value in rs && r.value.key == key
  {
    if n == 0 then None else if rs[n - 1].key == key then Some(rs[n - 1]) else LastNamed(rs, n - 1, key)
  }

  /** A record whose bytes lie in a body that starts after the header. */
  ghost predicate Points(body: seq<byte>, r: ChunkRecord, stored: seq<byte>) {
    && HEADER_SIZE <= r.offset && r.offset - HEADER_SIZE + r.compLen <= |body|
    && body[r.offset - HEADER_SIZE..r.offset - HEADER_SIZE + r.compLen] == stored
  }

  lemma PointsLonger(body: seq<byte>, more: seq<byte>, r: ChunkRecord, stored: seq<byte>)
    requires Points(body, r, stored)
    ensures Points(body + more, r, stored)
  {
    var a := r.offset - HEADER_SIZE;
    assert (body + more)[a..a + r.compLen] == body[a..a + r.compLen];
  }

  /** After any number of appended payloads: what the directory says about an address. */
  ghost predicate NamedOrKept(P: Primitives, body0: seq<byte>, d0: seq<ChunkRecord>, rs: seq<Replacement>, n: nat, key: Key)
    requires n <= |rs|
  {
    var a := Appended(P, body0, d0, rs, n);
    match LastNamed(rs, n, key)
    case None => Directory.Find(a.1, key) == Directory.Find(d0, key)
    case Some(r) =>
      && Directory.Find(a.1, key).Some?
      && var rec := Directory.Find(a.1, key).value;
      && rec.codec == r.codec && rec.rawLen == r.rawLen && rec.crc == P.crc32(r.payload) && rec.flags == 0
      && Points(a.0, rec, r.payload)
  }

  lemma {:induction false} AppendedShape(P: Primitives, body0: seq<byte>, d0: seq<ChunkRecord>, rs: seq<Replacement>, n: nat)
    requires n <= |rs| && Directory.Strict(d0)
    ensures body0 <= Appended(P, body0, d0, rs, n).0
    ensures Directory.Strict(Appended(P, body0, d0, rs, n).1)
  {
    hide Directory.Upsert, Directory.Strict, RecordAt;
    if n > 0 {
      AppendedShape(P, body0, d0, rs, n - 1);
      var prior := Appended(P, body0, d0, rs, n - 1);
      Directory.UpsertKeepsOrder(prior.1, RecordAt(P, HEADER_SIZE + |prior.0|, rs[n - 1]));
    }
  }

  lemma {:induction false} AppendedReads(
    P: Primitives, body0: seq<byte>, d0: seq<ChunkRecord>, rs: seq<Replacement>, n: nat, key: Key)
    requires n <= |rs| && Directory.Strict(d0)
    requires forall k :: 0 <= k < |rs| ==> |rs[k].payload| < 0x1_0000_0000
    requires HEADER_SIZE + |Appended(P, body0, d0, rs, n).0| < 0x1_0000_0000_0000_0000
    ensures NamedOrKept(P, body0, d0, rs, n, key)
  {
    if n > 0 {
      BodyGrows(P, body0, d0, rs, n);
      AppendedReads(P, body0, d0, rs, n - 1, key);
      OneMoreRead(P, body0, d0, rs, n, key);
    }
  }

  lemma BodyGrows(P: Primitives, body0: seq<byte>, d0: seq<ChunkRecord>, rs: seq<Replacement>, n: nat)
    requires 0 < n <= |rs|
    ensures Appended(P, body0, d0, rs, n).0 == Appended(P, body0, d0, rs, n - 1).0 + rs[n - 1].payload
    ensures Appended(P, body0, d0, rs, n).1
         == Directory.Upsert(Appended(P, body0, d0, rs, n - 1).1,
                             RecordAt(P, HEADER_SIZE + |Appended(P, body0, d0, rs, n - 1).0|, rs[n - 1]))
  {
  }

  lemma OneMoreRead(P: Primitives, body0: seq<byte>, d0: seq<ChunkRecord>, rs: seq<Replacement>, n: nat, key: Key)
    requires 0 < n <= |rs| && Directory.Strict(d0)
    requires |rs[n - 1].payload| < 0x1_0000_0000
    requires HEADER_SIZE + |Appended(P, body0, d0, rs, n).0| < 0x1_0000_0000_0000_0000
    requires NamedOrKept(P, body0, d0, rs, n - 1, key)
    ensures NamedOrKept(P, body0, d0, rs, n, key)
  {
    hide Directory.Find, Directory.Upsert, Directory.Strict, WM.Cast32, WM.Cast64, Appended;
    var prior := Appended(P, body0, d0, rs, n - 1);
    var r := rs[n - 1];
    BodyGrows(P, body0, d0, rs, n);
    AppendedShape(P, body0, d0, rs, n - 1);
    Directory.UpsertFinds(prior.1, RecordAt(P, HEADER_SIZE + |prior.0|, r));
    if r.key == key {
      assert (prior.0 + r.payload)[|prior.0|..|prior.0| + |r.payload|] == r.payload;
    } else if LastNamed(rs, n - 1, key).Some? {
      PointsLonger(prior.0, r.payload, Directory.Find(prior.1, key).value, LastNamed(rs, n - 1, key).value.payload);
    }
  }

  /** Records of the patched directory stay inside the grown body. */
  lemma {:induction false} AppendedInside(P: Primitives, body0: seq<byte>, d0: seq<ChunkRecord>, rs: seq<Replacement>, n: nat)
    requires n <= |rs| && Directory.Strict(d0)
    requires forall k :: 0 <= k < |rs| ==> |rs[k].payload| < 0x1_0000_0000
    requires HEADER_SIZE + |Appended(P, body0, d0, rs, n).0| < 0x1_0000_0000_0000_0000
    requires forall r :: r in d0 ==> HEADER_SIZE <= r.offset && r.offset + r.compLen <= HEADER_SIZE + |body0|
    ensures var a := Appended(P, body0, d0, rs, n);
            forall r :: r in a.1 ==> HEADER_SIZE <= r.offset && r.offset + r.compLen <= HEADER_SIZE + |a.0|
  {
    hide Directory.Upsert, Directory.Strict, WM.Cast32, WM.Cast64;
    if n > 0 {
      AppendedInside(P, body0, d0, rs, n - 1);
      AppendedShape(P, body0, d0, rs, n - 1);
      var prior := Appended(P, body0, d0, rs, n - 1);
      var rec := RecordAt(P, HEADER_SIZE + |prior.0|, rs[n - 1]);
      Directory.UpsertKeepsOrder(prior.1, rec);
      var a := Appended(P, body0, d0, rs, n);
      forall r | r in a.1 ensures HEADER_SIZE <= r.offset && r.offset + r.compLen <= HEADER_SIZE + |a.0| {
        assert r == rec || r in prior.1;
      }
    }
  }

  /** The pieces of a patched image, with every cast resolved. */
  datatype Parts = Parts(h: Header, f: Footer, body: seq<byte>, mid: seq<byte>)

  function PartsOf(P: Primitives, p: Patch, base: seq<byte>, v: MapView): Parts
    requires |base| >= FRAME_SIZE
  {
    var body := FinalBody(P, p, base, v);
    var m := MetaStep(P, base, v, p, body);
    var dirBytes := Flatten(FinalDirectory(P, p, base, v), RecordBytes);
    Parts(NewHeader(v, m.1, |m.0|, |dirBytes|), NewFooter(v, FinalDirectory(P, p, base, v), |m.0|, |dirBytes|),
          body, m.0 + dirBytes)
  }

  lemma PatchedIsSealed(P: Primitives, p: Patch, base: seq<byte>, v: MapView)
    requires |base| >= FRAME_SIZE
    ensures var q := PartsOf(P, p, base, v); Patched(P, p, base, v) == Seal(P, q.h, q.mid, q.f)
  {
    hide Seal, MetaStep, Appended, Flatten, NewHeader, NewFooter;
  }

  ghost predicate Ready(P: Primitives, p: Patch, base: seq<byte>, v: MapView) {
    P.Lawful() && WellFormed(P, base, v) && PatchFits(P, p, base, v)
  }

  lemma OpenSplits(P: Primitives, img: seq<byte>)
    requires Open(P, img).Ok?
    ensures var v := Open(P, img).value;
            OpenFrame(P, img) == Ok((v.header, v.footer)) && OpenBody(P, img, v.header, v.footer) == Ok(v)
  {
    hide OpenFrame, ReadMeta, ReadDirectory, ReadSkeleton, FindStale, LayersOf;
  }

  lemma FrameVersion(P: Primitives, img: seq<byte>)
    requires OpenFrame(P, img).Ok?
    ensures OpenFrame(P, img).value.0.major == VERSION_MAJOR
    ensures OpenFrame(P, img).value.0.minor == OpenFrame(P, img).value.1.minor
  {
    hide FileHashOf, ParseFooter, GetU16, GetU32, GetU64, GetU8, GetWord;
  }

  lemma BaseVersion(P: Primitives, base: seq<byte>, v: MapView)
    requires WellFormed(P, base, v)
    ensures v.header.major == VERSION_MAJOR && v.header.minor == v.footer.minor
    ensures Open(P, base) == Ok(v) && OpenFrame(P, base) == Ok((v.header, v.footer))
    ensures OpenBody(P, base, v.header, v.footer) == Ok(v)
  {
    OpenSplits(P, base);
    FrameVersion(P, base);
    hide Open, OpenFrame, OpenBody;
  }

  /** What the header and footer of the patched image say. */
  lemma PatchedAddresses(P: Primitives, p: Patch, base: seq<byte>, v: MapView)
    requires Ready(P, p, base, v)
    ensures var q := PartsOf(P, p, base, v);
            var d := FinalDirectory(P, p, base, v);
            var m := MetaStep(P, base, v, p, q.body);
            && q.h.major == VERSION_MAJOR && q.f.major == VERSION_MAJOR
            && q.h.minor == v.header.minor && q.f.minor == VERSION_MINOR
            && q.h.footerOffset == HEADER_SIZE + |q.mid| && q.f.fileLen == FRAME_SIZE + |q.mid|
            && q.h.dirOffset == HEADER_SIZE + |m.0| && q.h.dirLen == RECORD_SIZE * |d|
            && q.f.nodeCount == v.footer.nodeCount && q.h.Shape() == v.header.Shape()
            && q.h.metaOffset == m.1.metaOffset && q.h.metaLen == m.1.metaLen && q.h.extOffset == m.1.extOffset
            && q.h.extLen == v.header.extLen && q.h.lodCount == v.header.lodCount && q.h.chunkSize == v.header.chunkSize
            && q.mid == m.0 + Flatten(d, RecordBytes) && |Flatten(d, RecordBytes)| == RECORD_SIZE * |d|
            && HEADER_SIZE + |q.mid| < 0x1_0000_0000_0000_0000
            && HEADER_SIZE + |m.0| < 0x1_0000_0000_0000_0000
  {
    BaseVersion(P, base, v);
    RecordsParse(FinalDirectory(P, p, base, v));
    PatchedIsSealed(P, p, base, v);
    hide WellFormed, Seal, MetaStep, FinalBody, FinalDirectory, Flatten, Patched, NewMeta, TlvFits;
    hide WM.Cast32, WM.Cast64;
  }

  /** A patched image taken apart: `m` is the body before the directory, `place` its meta addresses. */
  ghost predicate Laid(
    P: Primitives, base: seq<byte>, v: MapView, img: seq<byte>, q: Parts, m: seq<byte>, place: MetaPlace, d: seq<ChunkRecord>)
  {
    && |base| >= FRAME_SIZE && img == Seal(P, q.h, q.mid, q.f)
    && q.h.major == VERSION_MAJOR && q.f.major == VERSION_MAJOR
    && q.h.minor == v.header.minor && q.f.minor == VERSION_MINOR
    && q.h.footerOffset == HEADER_SIZE + |q.mid| && q.f.fileLen == FRAME_SIZE + |q.mid|
    && q.h.dirOffset == HEADER_SIZE + |m| && q.h.dirLen == RECORD_SIZE * |d|
    && q.f.nodeCount == v.footer.nodeCount == |v.skeleton| && q.h.Shape() == v.header.Shape()
    && q.h.metaOffset == place.metaOffset && q.h.metaLen == place.metaLen && q.h.extOffset == place.extOffset
    && q.h.extLen == v.header.extLen && q.h.lodCount == v.header.lodCount && q.h.chunkSize == v.header.chunkSize
    && q.mid == m + Flatten(d, RecordBytes) && |Flatten(d, RecordBytes)| == RECORD_SIZE * |d|
    && Directory.Strict(d) && KeptBody(base) <= q.body && q.body <= m
    && HEADER_SIZE + |m| < 0x1_0000_0000_0000_0000
  }

  lemma PatchedLaid(P: Primitives, p: Patch, base: seq<byte>, v: MapView)
    requires Ready(P, p, base, v)
    ensures var q := PartsOf(P, p, base, v);
            var m := MetaStep(P, base, v, p, q.body);
            Laid(P, base, v, Patched(P, p, base, v), q, m.0, m.1, FinalDirectory(P, p, base, v))
  {
    hide PartsOf, MetaStep, FinalDirectory, FinalBody, Patched, Seal, Open, Flatten, PatchFits;
    PatchedAddresses(P, p, base, v);
    PatchedIsSealed(P, p, base, v);
    BodyKept(P, p, base, v);
    FinalOrdered(P, p, base, v);
  }

  lemma FinalOrdered(P: Primitives, p: Patch, base: seq<byte>, v: MapView)
    requires |base| >= FRAME_SIZE && Directory.Strict(v.directory)
    ensures Directory.Strict(FinalDirectory(P, p, base, v))
  {
    AppendedShape(P, KeptBody(base), v.directory, p.replacements, |p.replacements|);
  }

  lemma BodyKept(P: Primitives, p: Patch, base: seq<byte>, v: MapView)
    requires |base| >= FRAME_SIZE && Directory.Strict(v.directory)
    ensures var q := PartsOf(P, p, base, v);
            KeptBody(base) <= q.body && q.body <= MetaStep(P, base, v, p, q.body).0
  {
    AppendedShape(P, KeptBody(base), v.directory, p.replacements, |p.replacements|);
    hide Appended, NewHeader, NewFooter, Flatten;
  }

  /** A range inside the base reads the same bytes after patching. */
  lemma RangeKept(
    P: Primitives, base: seq<byte>, v: MapView, img: seq<byte>, q: Parts, m: seq<byte>, place: MetaPlace,
    d: seq<ChunkRecord>, off: nat, len: nat)
    requires Laid(P, base, v, img, q, m, place, d) && Inside(base, off, len)
    ensures Region(img, off, len) == Region(base, off, len) == Ok(base[off..off + len])
  {
    hide Seal, Flatten, Directory.Strict;
    var kept, at := KeptBody(base), off - HEADER_SIZE;
    assert forall i :: at <= i < at + len ==> kept[i] == base[i + HEADER_SIZE];
    assert kept[at..at + len] == base[off..off + len];
    assert kept <= q.mid;
    PrefixSlice(kept, q.mid, at, at + len);
    SealLocated(P, q.h, q.mid, q.f, at, base[off..off + len]);
  }

  lemma LaidDirectory(
    P: Primitives, base: seq<byte>, v: MapView, img: seq<byte>, q: Parts, m: seq<byte>, place: MetaPlace, d: seq<ChunkRecord>)
    requires Laid(P, base, v, img, q, m, place, d)
    ensures ReadDirectory(img, q.h) == Ok(d)
  {
    hide Seal, Flatten, Directory.Strict, Region, ReadDirectory;
    assert q.mid[|m|..|m| + |Flatten(d, RecordBytes)|] == Flatten(d, RecordBytes);
    SealLocated(P, q.h, q.mid, q.f, |m|, Flatten(d, RecordBytes));
    DirectoryReads(P, img, q.h, d);
  }

  /** The re-emitted areas: meta block first, the skeleton at the aligned address. */
  lemma MetaStepLayout(P: Primitives, base: seq<byte>, v: MapView, p: Patch, body: seq<byte>)
    requires p.metaPatch != []
    ensures var (m, place) := MetaStep(P, base, v, p, body);
            var meta, ext := P.zstd(TlvBytes(NewMeta(v, p))), ExtBytes(base, v.header);
            var nodes := Flatten(v.skeleton, NodeBytes);
            var at := Align8(HEADER_SIZE + |body| + |meta| + |ext|) - HEADER_SIZE;
            && |body| + |meta| + |ext| <= at && at + |nodes| == |m|
            && m[|body|..|body| + |meta|] == meta && m[at..] == nodes
            && place.metaOffset == WM.Cast64(HEADER_SIZE + |body|) && place.metaLen == WM.Cast32(|meta|)
            && place.extOffset == WM.Cast64(HEADER_SIZE + |body| + |meta|)
  {
    hide TlvBytes, NewMeta, ExtBytes, Flatten, WM.Cast32, WM.Cast64;
    var meta, ext := P.zstd(TlvBytes(NewMeta(v, p))), ExtBytes(base, v.header);
    var end := HEADER_SIZE + |body| + |meta| + |ext|;
    var m := MetaStep(P, base, v, p, body).0;
    var front := body + meta + ext + Zeros(Align8(end) - end);
    assert m == front + Flatten(v.skeleton, NodeBytes);
    assert front[|body|..|body| + |meta|] == meta;
    assert m[|body|..|body| + |meta|] == front[|body|..|body| + |meta|];
  }

  /** The base's meta block, skeleton and extension area as the reader found them. */
  lemma BaseReads(P: Primitives, base: seq<byte>, v: MapView)
    requires WellFormed(P, base, v)
    ensures ReadMeta(P, base, v.header) == Ok(v.meta) && LayersOf(v.meta) == Ok(v.layers)
    ensures ReadDirectory(base, v.header) == Ok(v.directory)
    ensures ReadSkeleton(base, v.header, v.footer) == Ok(v.skeleton)
    ensures P.gridOk(v.header.Shape()) && FindStale(P, v.layers, v.directory, v.meta) == Ok(v.stale)
    ensures v.dict == DictOf(v.meta)
  {
    BaseVersion(P, base, v);
    BodySplits(P, base, v.header, v.footer);
    hide Open, OpenFrame, OpenBody, ReadMeta, LayersOf, ReadDirectory, ReadSkeleton, FindStale, DictOf;
  }

  lemma BodySplits(P: Primitives, img: seq<byte>, h: Header, f: Footer)
    requires OpenBody(P, img, h, f).Ok?
    ensures var v := OpenBody(P, img, h, f).value;
            && ReadMeta(P, img, h) == Ok(v.meta) && LayersOf(v.meta) == Ok(v.layers)
            && ReadDirectory(img, h) == Ok(v.directory) && ReadSkeleton(img, h, f) == Ok(v.skeleton)
            && P.gridOk(h.Shape()) && FindStale(P, v.layers, v.directory, v.meta) == Ok(v.stale) && v.dict == DictOf(v.meta)
  {
    hide ReadMeta, LayersOf, ReadDirectory, ReadSkeleton, FindStale, DictOf;
  }

  lemma LaidMetaKept(
    P: Primitives, base: seq<byte>, v: MapView, img: seq<byte>, q: Parts, m: seq<byte>, place: MetaPlace, d: seq<ChunkRecord>)
    requires Laid(P, base, v, img, q, m, place, d) && WellFormed(P, base, v)
    requires place == MetaPlace(v.header.metaOffset, v.header.metaLen, v.header.extOffset)
    ensures ReadMeta(P, img, q.h) == Ok(v.meta)
    ensures ReadSkeleton(img, q.h, SealedFooter(P, q.h, q.mid, q.f)) == Ok(v.skeleton)
  {
    hide Seal, Flatten, Directory.Strict, Open, Region, ParseTlv, ParseMany, BuildSkeleton, Align8, ComposeHash;
    BaseReads(P, base, v);
    RangeKept(P, base, v, img, q, m, place, d, v.header.metaOffset, v.header.metaLen);
    if v.footer.nodeCount > 0 {
      RangeKept(P, base, v, img, q, m, place, d, SkeletonOffset(v.header), v.footer.nodeCount * NODE_SIZE);
    }
  }

  /** The new meta block and the re-emitted skeleton, found where the new header leads. */
  ghost predicate Moved(P: Primitives, base: seq<byte>, v: MapView, q: Parts, m: seq<byte>, meta: seq<byte>) {
    var nodes := Flatten(v.skeleton, NodeBytes);
    var at := Align8(HEADER_SIZE + |q.body| + |meta| + |ExtBytes(base, v.header)|) - HEADER_SIZE;
    && |q.body| + |meta| + |ExtBytes(base, v.header)| <= at && at + |nodes| == |m|
    && m[|q.body|..|q.body| + |meta|] == meta && m[at..] == nodes
    && q.h.metaOffset == HEADER_SIZE + |q.body| && q.h.metaLen == |meta|
    && q.h.extOffset == HEADER_SIZE + |q.body| + |meta|
  }

  lemma PatchedMoved(P: Primitives, p: Patch, base: seq<byte>, v: MapView)
    requires Ready(P, p, base, v) && p.metaPatch != []
    ensures var q := PartsOf(P, p, base, v);
            Moved(P, base, v, q, MetaStep(P, base, v, p, q.body).0, P.zstd(TlvBytes(NewMeta(v, p))))
  {
    hide PartsOf, MetaStep, FinalDirectory, FinalBody, Patched, Seal, Open, Flatten, NewMeta, TlvBytes, ExtBytes, Align8;
    hide WM.Cast32, WM.Cast64;
    PatchedLaid(P, p, base, v);
    MetaStepLayout(P, base, v, p, PartsOf(P, p, base, v).body);
  }

  lemma ExtKept(P: Primitives, base: seq<byte>, v: MapView)
    requires WellFormed(P, base, v)
    ensures |ExtBytes(base, v.header)| == v.header.extLen
  {
    hide Open;
  }

  lemma LaidMetaMoved(
    P: Primitives, base: seq<byte>, v: MapView, img: seq<byte>, q: Parts, m: seq<byte>, place: MetaPlace, d: seq<ChunkRecord>,
    meta: seq<TlvRecord>)
    requires Laid(P, base, v, img, q, m, place, d) && P.Lawful() && TlvFits(meta)
    requires Moved(P, base, v, q, m, P.zstd(TlvBytes(meta)))
    ensures ReadMeta(P, img, q.h) == Ok(meta)
  {
    hide Seal, Flatten, Directory.Strict, Region, ParseTlv, TlvBytes, ExtBytes, Align8;
    var block := P.zstd(TlvBytes(meta));
    PrefixSlice(m, q.mid, |q.body|, |q.body| + |block|);
    SealLocated(P, q.h, q.mid, q.f, |q.body|, block);
    TlvRoundTrip(meta);
  }

  lemma LaidSkeletonMoved(
    P: Primitives, base: seq<byte>, v: MapView, img: seq<byte>, q: Parts, m: seq<byte>, place: MetaPlace, d: seq<ChunkRecord>,
    block: seq<byte>)
    requires Laid(P, base, v, img, q, m, place, d) && WellFormed(P, base, v)
    requires Moved(P, base, v, q, m, block)
    ensures ReadSkeleton(img, q.h, SealedFooter(P, q.h, q.mid, q.f)) == Ok(v.skeleton)
  {
    hide Seal, Flatten, Directory.Strict, Open, Region, ReadSkeleton, BuildSkeleton, ExtBytes, Align8, ComposeHash;
    ExtKept(P, base, v);
    var nodes := Flatten(v.skeleton, NodeBytes);
    var at := SkeletonOffset(q.h) - HEADER_SIZE;
    assert at == Align8(HEADER_SIZE + |q.body| + |block| + |ExtBytes(base, v.header)|) - HEADER_SIZE;
    PrefixSlice(m, q.mid, at, |m|);
    SealLocated(P, q.h, q.mid, q.f, at, nodes);
    NodesLength(v.skeleton);
    SkeletonReads(img, q.h, SealedFooter(P, q.h, q.mid, q.f), v.skeleton);
    SkeletonSorted(P, base, v);
  }

  /** Sorting a sorted skeleton again changes nothing. */
  lemma SkeletonSorted(P: Primitives, base: seq<byte>, v: MapView)
    requires WellFormed(P, base, v)
    ensures BuildSkeleton(v.skeleton) == Ok(v.skeleton)
  {
    hide Open, OpenFrame, OpenBody, ReadSkeleton, BuildSkeleton;
    BaseReads(P, base, v);
    BuiltIsSorted(base, v.header, v.footer);
  }

  lemma BuiltIsSorted(img: seq<byte>, h: Header, f: Footer)
    requires ReadSkeleton(img, h, f).Ok?
    ensures BuildSkeleton(ReadSkeleton(img, h, f).value) == Ok(ReadSkeleton(img, h, f).value)
  {
    hide ParseMany, Region, NodeBytes;
    var sorted := ReadSkeleton(img, h, f).value;
    if f.nodeCount != 0 {
      var nodes := ParseMany(Region(img, SkeletonOffset(h), f.nodeCount * NODE_SIZE).value, NODE_SIZE, ParseNode).value;
      assert BuildSkeleton(nodes) == Ok(sorted);
      BuildTwice(nodes);
    }
  }

  lemma BuildTwice(nodes: seq<QNode>)
    requires BuildSkeleton(nodes).Ok?
    ensures BuildSkeleton(BuildSkeleton(nodes).value) == Ok(BuildSkeleton(nodes).value)
  {
    var sorted := SortBy(nodes, Morton);
    SortByCorrect(nodes, Morton);
    StrictFromNeighbours(sorted, |sorted|);
    SortOfStrict(sorted, Morton);
  }

  /** A meta block the reader can use: its layer table decodes, and its fingerprint table if one is needed. */
  predicate Readable(P: Primitives, meta: seq<TlvRecord>) {
    LayersOf(meta).Ok? && (HasDerived(LayersOf(meta).value) ==> EntriesOf(P, meta).Ok?)
  }

  /** The view a patched image opens to. */
  function PatchedView(P: Primitives, p: Patch, base: seq<byte>, v: MapView): MapView
    requires |base| >= FRAME_SIZE && Readable(P, NewMeta(v, p))
  {
    var q, meta, d := PartsOf(P, p, base, v), NewMeta(v, p), FinalDirectory(P, p, base, v);
    var layers := LayersOf(meta).value;
    MapView(q.h, SealedFooter(P, q.h, q.mid, q.f), meta, layers, d, v.skeleton, DictOf(meta),
            FindStale(P, layers, d, meta).value)
  }

  lemma BodyFromPieces(P: Primitives, img: seq<byte>, h: Header, f: Footer, meta: seq<TlvRecord>, d: seq<ChunkRecord>, nodes: seq<QNode>)
    requires ReadMeta(P, img, h) == Ok(meta) && ReadDirectory(img, h) == Ok(d) && ReadSkeleton(img, h, f) == Ok(nodes)
    requires P.gridOk(h.Shape())
    ensures OpenBody(P, img, h, f).Ok? <==> Readable(P, meta)
    ensures Readable(P, meta) ==>
        FindStale(P, LayersOf(meta).value, d, meta).Ok? &&
        OpenBody(P, img, h, f) == Ok(MapView(h, f, meta, LayersOf(meta).value, d, nodes, DictOf(meta),
                                             FindStale(P, LayersOf(meta).value, d, meta).value))
  {
    hide ReadMeta, ReadDirectory, ReadSkeleton, LayersOf, EntriesOf, DictOf, Fingerprint.Verifies;
  }

  lemma PatchedPieces(P: Primitives, p: Patch, base: seq<byte>, v: MapView)
    requires Ready(P, p, base, v)
    ensures var q, img := PartsOf(P, p, base, v), Patched(P, p, base, v);
            && ReadMeta(P, img, q.h) == Ok(NewMeta(v, p))
            && ReadSkeleton(img, q.h, SealedFooter(P, q.h, q.mid, q.f)) == Ok(v.skeleton)
            && ReadDirectory(img, q.h) == Ok(FinalDirectory(P, p, base, v))
            && P.gridOk(q.h.Shape())
  {
    PatchedLaid(P, p, base, v);
    BaseReads(P, base, v);
    var q, img, d := PartsOf(P, p, base, v), Patched(P, p, base, v), FinalDirectory(P, p, base, v);
    var m := MetaStep(P, base, v, p, q.body);
    assert p.metaPatch == [] ==> m.1 == MetaPlace(v.header.metaOffset, v.header.metaLen, v.header.extOffset) && NewMeta(v, p) == v.meta;
    if p.metaPatch != [] { PatchedMoved(P, p, base, v); }
    hide PartsOf, MetaStep, FinalDirectory, Patched, NewMeta, Seal, Open, ReadMeta, ReadSkeleton, ReadDirectory, Moved;
    LaidDirectory(P, base, v, img, q, m.0, m.1, d);
    if p.metaPatch == [] {
      LaidMetaKept(P, base, v, img, q, m.0, m.1, d);
    } else {
      LaidMetaMoved(P, base, v, img, q, m.0, m.1, d, NewMeta(v, p));
      LaidSkeletonMoved(P, base, v, img, q, m.0, m.1, d, P.zstd(TlvBytes(NewMeta(v, p))));
    }
  }

  /**
   * A patched image opens exactly when the base's minor version is the one this crate writes
   * and the merged metadata decodes. The first condition is there because the new header keeps
   * the base's minor version while the new footer carries the constant.
   */
  lemma PatchOpensExactly(P: Primitives, p: Patch, base: seq<byte>, v: MapView)
    requires Ready(P, p, base, v)
    ensures Open(P, Patched(P, p, base, v)).Ok? <==> v.header.minor == VERSION_MINOR && Readable(P, NewMeta(v, p))
    ensures Open(P, Patched(P, p, base, v)).Ok? ==> Open(P, Patched(P, p, base, v)) == Ok(PatchedView(P, p, base, v))
  {
    hide PartsOf, MetaStep, FinalDirectory, Patched, NewMeta, Seal, ReadMeta, ReadSkeleton, ReadDirectory, OpenBody, OpenFrame;
    hide Readable, WellFormed, PatchFits, FindStale, Directory.Strict;
    PatchedLaid(P, p, base, v);
    PatchedPieces(P, p, base, v);
    var q, img, d := PartsOf(P, p, base, v), Patched(P, p, base, v), FinalDirectory(P, p, base, v);
    SealedFrameOpens(P, q.h, q.mid, q.f);
    BodyFromPieces(P, img, q.h, SealedFooter(P, q.h, q.mid, q.f), NewMeta(v, p), d, v.skeleton);
  }

  /** The patch's metadata changes do not name this tag. */
  predicate Spares(p: Patch, tag: u32) {
    forall i :: 0 <= i < |p.metaPatch| ==> p.metaPatch[i].tag != tag
  }

  /** It replaces neither the layer table nor the fingerprint table; any other tag it may set. */
  predicate SparesTables(p: Patch) { Spares(p, TAG_LAYER_TABLE) && Spares(p, TAG_DERIVED_LAYERS) }

  lemma {:induction false} TagMerged(meta: seq<TlvRecord>, changes: seq<TlvRecord>, n: nat, tag: u32)
    requires n <= |changes| && forall i :: 0 <= i < |changes| ==> changes[i].tag != tag
    ensures TlvGet(MergedMeta(meta, changes, n), tag) == TlvGet(meta, tag)
  {
    hide TlvGet, TlvSet;
    if n > 0 {
      TagMerged(meta, changes, n - 1, tag);
      TlvSetGet(MergedMeta(meta, changes, n - 1), changes[n - 1], tag);
    }
  }

  /** A patch that spares the two tables leaves them as they were, and they decoded already. */
  lemma KeptMetaReadable(P: Primitives, p: Patch, base: seq<byte>, v: MapView)
    requires WellFormed(P, base, v) && SparesTables(p)
    ensures LayersOf(NewMeta(v, p)) == Ok(v.layers) && EntriesOf(P, NewMeta(v, p)) == EntriesOf(P, v.meta)
    ensures Readable(P, v.meta) && Readable(P, NewMeta(v, p))
  {
    TagMerged(v.meta, p.metaPatch, |p.metaPatch|, TAG_LAYER_TABLE);
    TagMerged(v.meta, p.metaPatch, |p.metaPatch|, TAG_DERIVED_LAYERS);
    hide Open, ReadMeta, ReadDirectory, ReadSkeleton, TlvGet, MergedMeta, ParseLayerTable, WellFormed;
    BaseReads(P, base, v);
    StaleReadable(P, v.layers, v.directory, v.meta);
  }

  /** Metadata from which the stale layers were found is readable. */
  lemma StaleReadable(P: Primitives, layers: seq<LayerDesc>, d: seq<ChunkRecord>, meta: seq<TlvRecord>)
    requires LayersOf(meta) == Ok(layers) && FindStale(P, layers, d, meta).Ok?
    ensures Readable(P, meta)
  {
    hide LayersOf, EntriesOf, Fingerprint.Verifies;
  }

  /** When a patch is applied at all: right base, and every target a registered source layer. */
  lemma AppliesExactly(P: Primitives, p: Patch, base: seq<byte>, v: MapView)
    requires Open(P, base) == Ok(v)
    ensures Apply(P, p, base).Ok? <==>
        && p.baseHash == Hash64(v.footer.fileHash)
        && forall r :: r in p.replacements ==> Patchable(v.layers, r.key.layer)
    ensures Apply(P, p, base).Ok? ==> |base| >= FRAME_SIZE && Apply(P, p, base).value == Patched(P, p, base, v)
  {
    hide Open, Patched;
    OpenIsFramed(P, base);
    CheckAllExactly(v.layers, p.replacements);
  }

  predicate Patchable(layers: seq<LayerDesc>, id: LayerId) {
    !IsDerived(id) && DescOf(layers, id).Some?
  }

  lemma {:induction false} CheckAllExactly(layers: seq<LayerDesc>, rs: seq<Replacement>)
    ensures CheckAll(layers, rs).Ok? <==> forall r :: r in rs ==> Patchable(layers, r.key.layer)
  {
    if rs != [] {
      CheckAllExactly(layers, rs[1..]);
      assert rs == [rs[0]] + rs[1..];
    }
  }

  /** Records of the patched directory lie inside the patched body. */
  lemma PatchedRecordsInside(P: Primitives, p: Patch, base: seq<byte>, v: MapView)
    requires Ready(P, p, base, v)
    ensures forall r :: r in FinalDirectory(P, p, base, v) ==>
        HEADER_SIZE <= r.offset && r.offset + r.compLen <= HEADER_SIZE + |FinalBody(P, p, base, v)|
  {
    hide PartsOf, MetaStep, Patched, Open, Flatten, TlvFits, NewMeta, Appended, Directory.Strict;
    BodyAddressable(P, p, base, v);
    AppendedInside(P, KeptBody(base), v.directory, p.replacements, |p.replacements|);
  }

  lemma BodyAddressable(P: Primitives, p: Patch, base: seq<byte>, v: MapView)
    requires Ready(P, p, base, v)
    ensures HEADER_SIZE + |FinalBody(P, p, base, v)| < 0x1_0000_0000_0000_0000
    ensures PartsOf(P, p, base, v).body == FinalBody(P, p, base, v)
  {
    hide MetaStep, Patched, Open, Flatten, NewMeta, FinalBody, NewHeader, NewFooter;
    PatchedLaid(P, p, base, v);
  }

  /** Patching keeps an image well formed, so patches can be chained. */
  lemma PatchKeepsWellFormed(P: Primitives, p: Patch, base: seq<byte>, v: MapView)
    requires Ready(P, p, base, v) && v.header.minor == VERSION_MINOR && Readable(P, NewMeta(v, p))
    ensures WellFormed(P, Patched(P, p, base, v), PatchedView(P, p, base, v))
  {
    hide PartsOf, MetaStep, FinalDirectory, FinalBody, Patched, NewMeta, Open, OpenBody, OpenFrame, Readable, Seal, PatchFits;
    hide FindStale, Directory.Strict, Flatten, Align8;
    PatchOpensExactly(P, p, base, v);
    PatchedLaid(P, p, base, v);
    PatchedRecordsInside(P, p, base, v);
    BodyAddressable(P, p, base, v);
    var q, img := PartsOf(P, p, base, v), Patched(P, p, base, v);
    assert |img| == FRAME_SIZE + |q.mid|;
    MetaInside(P, p, base, v);
    assert MetaAreasInside(img, q.h, v.footer.nodeCount);
  }

  lemma MetaInside(P: Primitives, p: Patch, base: seq<byte>, v: MapView)
    requires Ready(P, p, base, v)
    ensures var q, img := PartsOf(P, p, base, v), Patched(P, p, base, v); MetaAreasInside(img, q.h, v.footer.nodeCount)
  {
    hide PartsOf, MetaStep, FinalDirectory, FinalBody, Patched, NewMeta, Open, PatchFits, Flatten, Seal, MetaAreasInside, Moved;
    PatchedLaid(P, p, base, v);
    var q := PartsOf(P, p, base, v);
    var m := MetaStep(P, base, v, p, q.body);
    if p.metaPatch == [] {
      PlaceKept(P, base, v, p, q.body);
      KeptInside(P, base, v, Patched(P, p, base, v), q, m.0, m.1, FinalDirectory(P, p, base, v));
    } else {
      PatchedMoved(P, p, base, v);
      MovedInside(P, base, v, Patched(P, p, base, v), q, m.0, m.1, FinalDirectory(P, p, base, v), P.zstd(TlvBytes(NewMeta(v, p))));
    }
  }

  ghost predicate MetaAreasInside(img: seq<byte>, h: Header, nodeCount: nat) {
    && Inside(img, h.metaOffset, h.metaLen)
    && h.extOffset + h.extLen <= |img| - FOOTER_SIZE
    && (nodeCount > 0 ==> SkeletonOffset(h) + nodeCount * NODE_SIZE <= |img| - FOOTER_SIZE)
  }

  lemma PlaceKept(P: Primitives, base: seq<byte>, v: MapView, p: Patch, body: seq<byte>)
    requires p.metaPatch == []
    ensures MetaStep(P, base, v, p, body).1 == MetaPlace(v.header.metaOffset, v.header.metaLen, v.header.extOffset)
  {
  }

  lemma KeptInside(
    P: Primitives, base: seq<byte>, v: MapView, img: seq<byte>, q: Parts, m: seq<byte>, place: MetaPlace, d: seq<ChunkRecord>)
    requires Laid(P, base, v, img, q, m, place, d) && WellFormed(P, base, v)
    requires place == MetaPlace(v.header.metaOffset, v.header.metaLen, v.header.extOffset)
    ensures MetaAreasInside(img, q.h, v.footer.nodeCount)
  {
    hide Open, Seal, Flatten, Align8, Directory.Strict;
    assert |KeptBody(base)| <= |q.mid| && |img| == FRAME_SIZE + |q.mid|;
  }

  lemma MovedInside(
    P: Primitives, base: seq<byte>, v: MapView, img: seq<byte>, q: Parts, m: seq<byte>, place: MetaPlace, d: seq<ChunkRecord>,
    meta: seq<byte>)
    requires Laid(P, base, v, img, q, m, place, d) && WellFormed(P, base, v) && Moved(P, base, v, q, m, meta)
    ensures MetaAreasInside(img, q.h, v.footer.nodeCount)
  {
    hide Open, Seal, Flatten, Align8, Directory.Strict, ExtBytes;
    ExtKept(P, base, v);
    NodesLength(v.skeleton);
    assert |m| <= |q.mid| && |img| == FRAME_SIZE + |q.mid|;
  }

  /**
   * Reading after a patch: an address named by the patch reads its last replacement, any other
   * address keeps its record and its exact stored bytes.
   */
  lemma PatchedReads(P: Primitives, p: Patch, base: seq<byte>, v: MapView, key: Key)
    requires Ready(P, p, base, v)
    ensures var d, img := FinalDirectory(P, p, base, v), Patched(P, p, base, v);
            match LastNamed(p.replacements, |p.replacements|, key)
            case None =>
              && Directory.Find(d, key) == Directory.Find(v.directory, key)
              && (Directory.Find(d, key).Some? ==>
                    var r := Directory.Find(d, key).value;
                    ReadStored(P, img, r) == ReadStored(P, base, r))
            case Some(rep) =>
              && Directory.Find(d, key).Some?
              && var r := Directory.Find(d, key).value;
              && r.codec == rep.codec && r.rawLen == rep.rawLen && !r.Tombstone()
              && ReadStored(P, img, r) == Ok(rep.payload)
  {
    hide PartsOf, MetaStep, Patched, NewMeta, Open, Seal, Flatten, TlvFits, Appended, Directory.Strict, Directory.Find, Region;
    PatchedLaid(P, p, base, v);
    BodyAddressable(P, p, base, v);
    AppendedReads(P, KeptBody(base), v.directory, p.replacements, |p.replacements|, key);
    var q, img, d := PartsOf(P, p, base, v), Patched(P, p, base, v), FinalDirectory(P, p, base, v);
    var m := MetaStep(P, base, v, p, q.body);
    match LastNamed(p.replacements, |p.replacements|, key) {
      case None =>
        if Directory.Find(v.directory, key).Some? {
          var r := Directory.Find(v.directory, key).value;
          RangeKept(P, base, v, img, q, m.0, m.1, d, r.offset, r.compLen);
        }
      case Some(rep) =>
        var r := Directory.Find(d, key).value;
        assert q.body <= q.mid;
        PrefixSlice(q.body, q.mid, r.offset - HEADER_SIZE, r.offset - HEADER_SIZE + r.compLen);
        SealLocated(P, q.h, q.mid, q.f, r.offset - HEADER_SIZE, rep.payload);
    }
  }

  /** No old byte moves: everything between the base's header and footer is still there. */
  lemma PatchOnlyAppends(P: Primitives, p: Patch, base: seq<byte>, v: MapView)
    requires Ready(P, p, base, v)
    ensures |Patched(P, p, base, v)| >= |base|
    ensures Patched(P, p, base, v)[HEADER_SIZE..|base| - FOOTER_SIZE] == base[HEADER_SIZE..|base| - FOOTER_SIZE]
  {
    hide PartsOf, MetaStep, FinalDirectory, Patched, NewMeta, Open, Seal, Flatten, PatchFits, Directory.Strict;
    PatchedLaid(P, p, base, v);
    var q := PartsOf(P, p, base, v);
    var m := MetaStep(P, base, v, p, q.body);
    RangeKept(P, base, v, Patched(P, p, base, v), q, m.0, m.1, FinalDirectory(P, p, base, v),
              HEADER_SIZE, |base| - FOOTER_SIZE - HEADER_SIZE);
  }

  /**
   * Frame condition at the level a caller sees: after a patch that leaves the two tables and the
   * compression dictionary alone, every chunk of a source layer that the patch does not name
   * decodes to what it decoded to before.
   */
  lemma UnnamedChunksUnchanged(P: Primitives, p: Patch, base: seq<byte>, v: MapView, key: Key)
    requires Ready(P, p, base, v) && v.header.minor == VERSION_MINOR
    requires SparesTables(p) && Spares(p, TAG_ZSTD_DICT)
    requires !IsDerived(key.layer) && LastNamed(p.replacements, |p.replacements|, key).None?
    ensures Open(P, Patched(P, p, base, v)).Ok?
    ensures ChunkPayload(P, Open(P, Patched(P, p, base, v)).value, Patched(P, p, base, v), key) == ChunkPayload(P, v, base, key)
  {
    hide PartsOf, MetaStep, FinalDirectory, Patched, NewMeta, Open, PatchFits, Directory.Find, ReadStored, FindStale, DictOf;
    hide LayersOf, Readable, DecodeStored, SealedFooter, PatchedView, Directory.Strict;
    DictKept(v, p);
    UnnamedView(P, p, base, v);
    var w := Open(P, Patched(P, p, base, v)).value;
    PatchedReads(P, p, base, v, key);
    BaseReads(P, base, v);
    SourcesNotStale(P, v.layers, v.directory, v.meta, key.layer);
    SourcesNotStale(P, v.layers, w.directory, v.meta, key.layer);
    SameHeaderSameDecoding(P, v.header, w.header, key.level);
  }

  lemma DictKept(v: MapView, p: Patch)
    requires Spares(p, TAG_ZSTD_DICT)
    ensures DictOf(NewMeta(v, p)) == DictOf(v.meta)
  {
    TagMerged(v.meta, p.metaPatch, |p.metaPatch|, TAG_ZSTD_DICT);
  }

  /** The stale layers follow from the two tables and the directory. */
  lemma SameTablesSameStale(P: Primitives, layers: seq<LayerDesc>, d: seq<ChunkRecord>, a: seq<TlvRecord>, b: seq<TlvRecord>)
    requires EntriesOf(P, a) == EntriesOf(P, b)
    ensures FindStale(P, layers, d, a) == FindStale(P, layers, d, b)
  {
    hide EntriesOf, Fingerprint.Verifies;
  }

  /** What stays the same in the view when the two tables are not patched. */
  lemma UnnamedView(P: Primitives, p: Patch, base: seq<byte>, v: MapView)
    requires Ready(P, p, base, v) && v.header.minor == VERSION_MINOR && SparesTables(p)
    ensures Open(P, Patched(P, p, base, v)).Ok?
    ensures var w := Open(P, Patched(P, p, base, v)).value;
            && w.layers == v.layers && w.dict == DictOf(NewMeta(v, p)) && w.directory == FinalDirectory(P, p, base, v)
            && w.header.lodCount == v.header.lodCount && w.header.chunkSize == v.header.chunkSize
            && FindStale(P, v.layers, w.directory, v.meta) == Ok(w.stale)
  {
    hide PartsOf, MetaStep, FinalDirectory, Patched, NewMeta, Open, Seal, ReadMeta, ReadSkeleton, ReadDirectory, Directory.Strict;
    hide DictOf, LayersOf, SealedFooter;
    KeptMetaReadable(P, p, base, v);
    PatchOpensExactly(P, p, base, v);
    BaseReads(P, base, v);
    SameDecoding(P, p, base, v);
    StaleKnown(P, v.layers, FinalDirectory(P, p, base, v), v.meta);
    SameTablesSameStale(P, v.layers, FinalDirectory(P, p, base, v), v.meta, NewMeta(v, p));
  }

  lemma StaleKnown(P: Primitives, layers: seq<LayerDesc>, d: seq<ChunkRecord>, meta: seq<TlvRecord>)
    requires LayersOf(meta) == Ok(layers) && Readable(P, meta)
    ensures FindStale(P, layers, d, meta).Ok?
  {
    hide LayersOf, EntriesOf, Fingerprint.Verifies;
  }

  lemma SourcesNotStale(P: Primitives, layers: seq<LayerDesc>, d: seq<ChunkRecord>, meta: seq<TlvRecord>, id: LayerId)
    requires !IsDerived(id)
    ensures FindStale(P, layers, d, meta).Ok? ==> id !in FindStale(P, layers, d, meta).value
  {
    hide EntriesOf, Fingerprint.Verifies;
  }

  lemma SameDecoding(P: Primitives, p: Patch, base: seq<byte>, v: MapView)
    requires Ready(P, p, base, v)
    ensures var h := PartsOf(P, p, base, v).h; h.lodCount == v.header.lodCount && h.chunkSize == v.header.chunkSize
  {
    hide PartsOf, MetaStep, FinalDirectory, Patched, NewMeta, Open, Seal;
    PatchedLaid(P, p, base, v);
  }

  /** Decoding looks at two header fields only. */
  lemma SameHeaderSameDecoding(P: Primitives, a: Header, b: Header, level: u8)
    requires a.lodCount == b.lodCount && a.chunkSize == b.chunkSize
    ensures forall desc, dict, codec, rawLen, stored {:trigger DecodeStored(P, a, desc, dict, level, codec, rawLen, stored)} ::
        DecodeStored(P, a, desc, dict, level, codec, rawLen, stored) == DecodeStored(P, b, desc, dict, level, codec, rawLen, stored)
  {
  }

  lemma StaleMember(P: Primitives, layers: seq<LayerDesc>, d: seq<ChunkRecord>, meta: seq<TlvRecord>, id: LayerId)
    requires FindStale(P, layers, d, meta).Ok? && IsDerived(id) && DescOf(layers, id).Some?
    ensures EntriesOf(P, meta).Ok?
    ensures id in FindStale(P, layers, d, meta).value <==> !Fingerprint.Verifies(P, layers, d, EntriesOf(P, meta).value, id)
  {
    hide EntriesOf, Fingerprint.Verifies;
    var k :| 0 <= k < |layers| && layers[k] == DescOf(layers, id).value;
    assert IsDerived(layers[k].id);
  }

  /**
   * Exact invalidation by a patch that leaves the layer and fingerprint tables alone: a derived
   * layer served before is refused afterwards exactly when the patch changed what one of its
   * registered direct sources holds.
   */
  lemma PatchStalesExactly(P: Primitives, p: Patch, base: seq<byte>, v: MapView, id: LayerId, entries: seq<DerivedEntry>)
    requires Ready(P, p, base, v) && v.header.minor == VERSION_MINOR && SparesTables(p)
    requires Fingerprint.DistinctIds(v.layers) && IsDerived(id) && DescOf(v.layers, id).Some? && id !in v.stale
    requires EntriesOf(P, v.meta) == Ok(Some(entries)) && Fingerprint.EntryOf(entries, id).Some?
    requires Fingerprint.CollisionFree(P,
        Fingerprint.HashedStrings(P, v.layers, v.directory, id, Fingerprint.EntryOf(entries, id).value)
        + Fingerprint.HashedStrings(P, v.layers, FinalDirectory(P, p, base, v), id, Fingerprint.EntryOf(entries, id).value))
    ensures Open(P, Patched(P, p, base, v)).Ok?
    ensures id in Open(P, Patched(P, p, base, v)).value.stale <==>
        exists s :: s in Fingerprint.SourcesIn(v.layers, id)
            && Fingerprint.Content(v.directory, s) != Fingerprint.Content(FinalDirectory(P, p, base, v), s)
  {
    hide PartsOf, FinalDirectory, Patched, NewMeta, Open, PatchFits, FindStale, EntriesOf, Fingerprint.Verifies;
    hide Fingerprint.HashedStrings, Fingerprint.Content, Fingerprint.CollisionFree, Directory.Strict;
    UnnamedView(P, p, base, v);
    BaseReads(P, base, v);
    FinalOrdered(P, p, base, v);
    StaleMember(P, v.layers, v.directory, v.meta, id);
    StaleMember(P, v.layers, FinalDirectory(P, p, base, v), v.meta, id);
    Fingerprint.StaleExactly(P, v.layers, v.directory, FinalDirectory(P, p, base, v), entries, id);
  }

  /** An image and its view reached from a base by applying patches one after another. */
  ghost predicate Reaches(P: Primitives, base: seq<byte>, v: MapView, ps: seq<Patch>, img: seq<byte>, w: MapView) {
    if ps == [] then img == base && w == v
    else
      var p := ps[|ps| - 1];
      exists mid, u ::
        && Reaches(P, base, v, ps[..|ps| - 1], mid, u)
        && |mid| >= FRAME_SIZE && Ready(P, p, mid, u) && Readable(P, NewMeta(u, p))
        && img == Patched(P, p, mid, u) && w == PatchedView(P, p, mid, u)
  }

  /** The last replacement of an address over a whole chain. */
  function LastInChain(ps: seq<Patch>, key: Key): Option<Replacement> {
    if ps == [] then None else
    var rs := ps[|ps| - 1].replacements;
    match LastNamed(rs, |rs|, key)
    case Some(r) => Some(r)
    case None => LastInChain(ps[..|ps| - 1], key)
  }

  /** The bytes and codec an address resolves to, or nothing. */
  ghost predicate Resolves(P: Primitives, img: seq<byte>, w: MapView, key: Key, codec: u8, rawLen: u32, stored: seq<byte>) {
    && Directory.Find(w.directory, key).Some?
    && var r := Directory.Find(w.directory, key).value;
    && r.codec == codec && r.rawLen == rawLen && ReadStored(P, img, r) == Ok(stored)
  }

  lemma StepReads(P: Primitives, p: Patch, base: seq<byte>, v: MapView, key: Key)
    requires Ready(P, p, base, v) && Readable(P, NewMeta(v, p))
    ensures var img, w := Patched(P, p, base, v), PatchedView(P, p, base, v);
            match LastNamed(p.replacements, |p.replacements|, key)
            case Some(rep) => Resolves(P, img, w, key, rep.codec, rep.rawLen, rep.payload)
            case None =>
              && Directory.Find(w.directory, key) == Directory.Find(v.directory, key)
              && (Directory.Find(v.directory, key).Some? ==>
                    ReadStored(P, img, Directory.Find(v.directory, key).value) == ReadStored(P, base, Directory.Find(v.directory, key).value))
  {
    hide PartsOf, FinalDirectory, Patched, NewMeta, Ready, Readable, Directory.Find, ReadStored, FindStale, SealedFooter;
    PatchedReads(P, p, base, v, key);
  }

  lemma StepKeeps(P: Primitives, p: Patch, base: seq<byte>, v: MapView)
    requires Ready(P, p, base, v) && Readable(P, NewMeta(v, p)) && v.header.minor == VERSION_MINOR
    ensures var img, w := Patched(P, p, base, v), PatchedView(P, p, base, v);
            WellFormed(P, img, w) && w.header.minor == VERSION_MINOR && w.skeleton == v.skeleton
  {
    hide PartsOf, FinalDirectory, Patched, NewMeta, Readable, WellFormed, PatchFits, FindStale, SealedFooter, MetaStep, Seal;
    PatchKeepsWellFormed(P, p, base, v);
    PatchedLaid(P, p, base, v);
  }

  /**
   * Along any chain of patches every image opens, the skeleton never changes, and each address
   * reads its last replacement anywhere in the chain, or else the base's own bytes.
   */
  lemma {:induction false} ChainReads(
    P: Primitives, base: seq<byte>, v: MapView, ps: seq<Patch>, img: seq<byte>, w: MapView, key: Key)
    requires WellFormed(P, base, v) && v.header.minor == VERSION_MINOR
    requires Reaches(P, base, v, ps, img, w)
    ensures WellFormed(P, img, w) && w.header.minor == VERSION_MINOR && w.skeleton == v.skeleton
    ensures match LastInChain(ps, key)
            case Some(rep) => Resolves(P, img, w, key, rep.codec, rep.rawLen, rep.payload)
            case None =>
              && Directory.Find(w.directory, key) == Directory.Find(v.directory, key)
              && (Directory.Find(v.directory, key).Some? ==>
                    ReadStored(P, img, Directory.Find(v.directory, key).value) == ReadStored(P, base, Directory.Find(v.directory, key).value))
  {
    hide WellFormed, Ready, Readable, NewMeta, Patched, PatchedView, ReadStored, Directory.Find, LastNamed;
    if ps != [] {
      var p := ps[|ps| - 1];
      var mid, u :|
        && Reaches(P, base, v, ps[..|ps| - 1], mid, u)
        && |mid| >= FRAME_SIZE && Ready(P, p, mid, u) && Readable(P, NewMeta(u, p))
        && img == Patched(P, p, mid, u) && w == PatchedView(P, p, mid, u);
      ChainReads(P, base, v, ps[..|ps| - 1], mid, u, key);
      StepKeeps(P, p, mid, u);
      StepReads(P, p, mid, u, key);
    }
  }
}
