/**
 * Files of another minor version. A file laid out as the writer lays it out opens under any
 * minor version its header and footer agree on; a patch of it opens only for version 0.
 */
module Versions {
  import opened Bytes
  import opened Layout
  import opened Records
  import opened Sorting
  import opened Reader
  import opened WriterModel
  import opened Written
  import opened Patching
  import opened PatchLaws = Patched
  import Directory
  import Fingerprint

  /** The finished file of a state, with another minor version in header and footer. */
  function Reversioned(P: Primitives, t: State, minor: u16): seq<byte>
    requires t.prologue.Some?
  {
    Seal(P, HeaderOf(P, t).(minor := minor), Mid(t), FooterOf(t).(minor := minor))
  }

  /** What lies between header and footer is found at the same place. */
  lemma SameRegion(P: Primitives, h: Header, g: Header, mid: seq<byte>, e: Footer, f: Footer, off: nat, len: nat)
    requires HEADER_SIZE <= off && off + len <= HEADER_SIZE + |mid|
    ensures Region(Seal(P, h, mid, e), off, len) == Region(Seal(P, g, mid, f), off, len)
  {
    hide Seal;
    SealCovers(P, h, mid, e);
    SealCovers(P, g, mid, f);
    SealMiddle(P, h, mid, e, off, len);
    SealMiddle(P, g, mid, f, off, len);
  }

  lemma SealMiddle(P: Primitives, h: Header, mid: seq<byte>, f: Footer, off: nat, len: nat)
    requires HEADER_SIZE <= off && off + len <= HEADER_SIZE + |mid|
    ensures Region(Seal(P, h, mid, f), off, len) == Ok(mid[off - HEADER_SIZE..off - HEADER_SIZE + len])
  {
    var at := off - HEADER_SIZE;
    SealLocated(P, h, mid, f, at, mid[at..at + len]);
  }

  lemma PieceStays(P: Primitives, t: State, minor: u16, off: nat, len: nat)
    requires t.prologue.Some? && HEADER_SIZE <= off && off + len <= HEADER_SIZE + |Mid(t)|
    ensures Region(Reversioned(P, t, minor), off, len) == Region(SealedImage(P, t), off, len)
  {
    hide Seal, HeaderOf, FooterOf, Region, Mid;
    var h, f := HeaderOf(P, t), FooterOf(t);
    SameRegion(P, h, h.(minor := minor), Mid(t), f, f.(minor := minor), off, len);
  }

  lemma ReversionedHolds(P: Primitives, t: State, ops: seq<Op>, minor: u16)
    requires Over(P, t, ops)
    ensures var h, f := HeaderOf(P, t).(minor := minor), FooterOf(t).(minor := minor);
            BodyHolds(P, Reversioned(P, t, minor), h, SealedFooter(P, h, Mid(t), f), t.meta, t.directory, t.skeleton)
  {
    Addresses(P, t, ops);
    RunBodyHolds(P, t, ops);
    NodesLength(t.skeleton);
    hide SealedImage, Reversioned, HeaderOf, FooterOf, Region, MetaBytes, PrologueBody, DirBytes, Flatten, TlvBytes, Align8, Over;
    var h := HeaderOf(P, t);
    PieceStays(P, t, minor, h.metaOffset, h.metaLen);
    PieceStays(P, t, minor, h.dirOffset, h.dirLen);
    PieceStays(P, t, minor, SkeletonOffset(h), |t.skeleton| * NODE_SIZE);
  }

  lemma ReversionedAssembles(P: Primitives, t: State, ops: seq<Op>, minor: u16)
    requires P.Lawful() && Over(P, t, ops)
    ensures var h, f := HeaderOf(P, t).(minor := minor), FooterOf(t).(minor := minor);
            Open(P, Reversioned(P, t, minor))
              == Assembled(P, h, SealedFooter(P, h, Mid(t), f), t.meta, t.directory, t.skeleton)
  {
    var h, f := HeaderOf(P, t).(minor := minor), FooterOf(t).(minor := minor);
    Addresses(P, t, ops);
    ReversionedHolds(P, t, ops, minor);
    hide HeaderOf, FooterOf, Seal, OpenFrame, OpenBody, PrologueBody, MetaBytes, DirBytes, Assembled, BodyHolds, RecordedAt;
    SealedFrameOpens(P, h, Mid(t), f);
    BodyOpens(P, Reversioned(P, t, minor), h, SealedFooter(P, h, Mid(t), f), t.meta, t.directory, t.skeleton);
  }

  /** The grid, the layers and the fingerprint table do not depend on the version. */
  lemma AssemblesAlike(P: Primitives, t: State, ops: seq<Op>, h: Header, f: Footer)
    requires P.Lawful() && Over(P, t, ops) && Acceptable(P, t) && h.Shape() == HeaderOf(P, t).Shape()
    ensures var r := Assembled(P, h, f, t.meta, t.directory, t.skeleton);
            && r.Ok?
            && r.value.header == h && r.value.footer == f && r.value.layers == t.layers && r.value.meta == t.meta
            && r.value.directory == t.directory && |r.value.skeleton| == |t.skeleton|
  {
    FinishedAssembles(P, t, ops);
    SkeletonAccepted(t.skeleton);
    SortByCorrect(t.skeleton, Morton);
    hide HeaderOf, Open, LayersOf, EntriesOf, BuildSkeleton, SortBy, Over, Fingerprint.Verifies;
  }

  /** It opens, to the same contents, and is a well-formed base for a patch. */
  lemma ReversionedOpens(P: Primitives, t: State, ops: seq<Op>, minor: u16)
    requires P.Lawful() && Over(P, t, ops) && Acceptable(P, t)
    ensures var img := Reversioned(P, t, minor);
            && Open(P, img).Ok?
            && var v := Open(P, img).value;
            && WellFormed(P, img, v) && v.header.minor == minor
            && v.layers == t.layers && v.meta == t.meta && v.directory == t.directory
  {
    var h, f := HeaderOf(P, t).(minor := minor), FooterOf(t).(minor := minor);
    var img := Reversioned(P, t, minor);
    Addresses(P, t, ops);
    hide HeaderOf, FooterOf, Seal, Open, PrologueBody, MetaBytes, DirBytes, Assembled, Inv, Representable, Acceptable, WellFormed;
    ReversionedAssembles(P, t, ops, minor);
    AssemblesAlike(P, t, ops, h, SealedFooter(P, h, Mid(t), f));
    AlikeWellFormed(P, t, ops, img, Open(P, img).value);
  }

  /**
   * Patching any such file of a minor version other than 0 gives a file that does not open,
   * whatever the patch replaces.
   */
  lemma PatchBreaksOtherVersions(P: Primitives, t: State, ops: seq<Op>, minor: u16, p: Patch)
    requires P.Lawful() && Over(P, t, ops) && Acceptable(P, t) && minor != VERSION_MINOR
    ensures Open(P, Reversioned(P, t, minor)).Ok? && |Reversioned(P, t, minor)| >= FRAME_SIZE
    ensures var base := Reversioned(P, t, minor); var v := Open(P, base).value;
            PatchFits(P, p, base, v) ==> Ready(P, p, base, v) && Open(P, Patched(P, p, base, v)).Err?
  {
    hide Seal, HeaderOf, FooterOf, Open, WellFormed, PatchFits, Patched, Inv, Representable, Acceptable, Readable;
    ReversionedOpens(P, t, ops, minor);
    var base := Reversioned(P, t, minor);
    var v := Open(P, base).value;
    if PatchFits(P, p, base, v) {
      PatchOpensExactly(P, p, base, v);
    }
  }

  // ----------------------------------------------------------------- patches that fit

  lemma {:induction false} AppendedSize(P: Primitives, body: seq<byte>, d: seq<ChunkRecord>, rs: seq<Replacement>, n: nat, most: nat)
    requires n <= |rs| && Directory.Strict(d)
    requires forall k :: 0 <= k < |rs| ==> |rs[k].payload| <= most
    ensures var a := Appended(P, body, d, rs, n);
            Directory.Strict(a.1) && |a.1| <= |d| + n && |a.0| <= |body| + n * most
  {
    hide Directory.Upsert, Directory.Strict;
    if n > 0 {
      AppendedSize(P, body, d, rs, n - 1, most);
      var prior := Appended(P, body, d, rs, n - 1);
      Directory.UpsertKeepsOrder(prior.1, RecordAt(P, HEADER_SIZE + |prior.0|, rs[n - 1]));
      assert n * most == (n - 1) * most + most;
    }
  }

  /** A patch of a small file by a few small payloads meets every size condition. */
  lemma SmallPatchFits(P: Primitives, p: Patch, base: seq<byte>, v: MapView, most: nat)
    requires |base| >= FRAME_SIZE && Directory.Strict(v.directory) && p.metaPatch == []
    requires TlvFits(v.meta) && |P.zstd(TlvBytes(v.meta))| < 0x1_0000_0000
    requires forall k :: 0 <= k < |p.replacements| ==> |p.replacements[k].payload| <= most
    requires most < 0x1_0000_0000 && RECORD_SIZE * (|v.directory| + |p.replacements|) < 0x1_0000_0000
    requires |base| + |p.replacements| * most < 0x1_0000_0000
    ensures PatchFits(P, p, base, v)
  {
    hide Appended, TlvBytes, Directory.Strict, Seal, TlvFits, NewHeader, NewFooter;
    AppendedSize(P, KeptBody(base), v.directory, p.replacements, |p.replacements|, most);
    RecordsLength(FinalDirectory(P, p, base, v));
    assert NewMeta(v, p) == v.meta;
  }

  lemma RecordsLength(d: seq<ChunkRecord>)
    ensures |Flatten(d, RecordBytes)| == RECORD_SIZE * |d|
  {
    hide RecordBytes;
    forall r | r in d ensures |RecordBytes(r)| == RECORD_SIZE { assert |RecordBytes(r)| == RECORD_SIZE; }
    FlattenLength(d, RECORD_SIZE, RecordBytes);
  }
}
