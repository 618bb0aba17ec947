/**
 * The hypotheses of the container theorems can be met: there are primitives that satisfy the
 * assumed laws, and with them the empty map is written, representable and opened.
 */
module Consistency {
  import opened Bytes
  import opened Layout
  import opened Records
  import opened Reader
  import opened WriterModel
  import opened Written
  import opened Patching
  import opened PatchLaws = Patched
  import opened Versions

  // ------------------------------------------------- a prefix code for lists of numbers

  function Unary(n: nat): seq<byte> { if n == 0 then [0] else [1] + Unary(n - 1) }

  function Code(ns: seq<nat>): seq<byte> { if ns == [] then [] else Unary(ns[0]) + Code(ns[1..]) }

  lemma {:induction false} UnaryPrefix(a: nat, b: nat, s: seq<byte>, t: seq<byte>)
    requires Unary(a) + s == Unary(b) + t
    ensures a == b && s == t
  {
    var x, y := Unary(a) + s, Unary(b) + t;
    assert x[0] == Unary(a)[0] && y[0] == Unary(b)[0];
    if a == 0 || b == 0 {
      assert a == 0 && b == 0;
      assert s == x[1..] && t == y[1..];
    } else {
      assert x[1..] == Unary(a - 1) + s && y[1..] == Unary(b - 1) + t;
      UnaryPrefix(a - 1, b - 1, s, t);
    }
  }

  lemma {:induction false} CodeInjective(a: seq<nat>, b: seq<nat>)
    requires Code(a) == Code(b)
    ensures a == b
  {
    if a != [] && b != [] {
      UnaryPrefix(a[0], b[0], Code(a[1..]), Code(b[1..]));
      CodeInjective(a[1..], b[1..]);
      assert a == [a[0]] + a[1..] && b == [b[0]] + b[1..];
    } else {
      assert Code([]) == [];
      NotEmpty(a);
      NotEmpty(b);
    }
  }

  lemma NotEmpty(a: seq<nat>)
    ensures a != [] ==> Code(a) != []
  {
    if a != [] {
      assert |Unary(a[0])| >= 1 by { assert a[0] >= 0; }
    }
  }

  /** An entry as numbers: its fields, the number of its seeds, and the seeds. */
  function Numbers(es: seq<DerivedEntry>): seq<nat> {
    if es == [] then []
    else
      [es[0].layer, es[0].fingerprint, es[0].paramsHash, es[0].algo, |es[0].seeds|]
      + (es[0].seeds + Numbers(es[1..]))
  }

  lemma {:induction false} NumbersInjective(a: seq<DerivedEntry>, b: seq<DerivedEntry>)
    requires Numbers(a) == Numbers(b)
    ensures a == b
  {
    if a != [] && b != [] {
      var x, y := Numbers(a), Numbers(b);
      var n := |a[0].seeds|;
      assert x[4] == n && y[4] == |b[0].seeds|;
      assert x[5..] == a[0].seeds + Numbers(a[1..]) && y[5..] == b[0].seeds + Numbers(b[1..]);
      assert x[5..][..n] == a[0].seeds && y[5..][..n] == b[0].seeds;
      assert x[5..][n..] == Numbers(a[1..]) && y[5..][n..] == Numbers(b[1..]);
      assert x[0] == a[0].layer && y[0] == b[0].layer;
      assert x[1] == a[0].fingerprint && y[1] == b[0].fingerprint;
      assert x[2] == a[0].paramsHash && y[2] == b[0].paramsHash;
      assert x[3] == a[0].algo && y[3] == b[0].algo;
      NumbersInjective(a[1..], b[1..]);
      assert a == [a[0]] + a[1..] && b == [b[0]] + b[1..];
    }
  }

  function EncodeTable(es: seq<DerivedEntry>): seq<byte> { Code(Numbers(es)) }

  ghost function DecodeTable(bytes: seq<byte>): Result<seq<DerivedEntry>> {
    if exists es :: EncodeTable(es) == bytes then
      var es :| EncodeTable(es) == bytes; Ok(es)
    else Err(Invalid)
  }

  lemma TableInjective(a: seq<DerivedEntry>, b: seq<DerivedEntry>)
    requires EncodeTable(a) == EncodeTable(b)
    ensures a == b
  {
    hide Code, Numbers;
    CodeInjective(Numbers(a), Numbers(b));
    NumbersInjective(a, b);
  }

  lemma TableRoundTrip(es: seq<DerivedEntry>)
    ensures DecodeTable(EncodeTable(es)) == Ok(es)
  {
    hide EncodeTable;
    var got := DecodeTable(EncodeTable(es)).value;
    assert EncodeTable(got) == EncodeTable(es);
    TableInjective(got, es);
  }

  // ------------------------------------------------------------------------ witnesses

  ghost function Plain(): Primitives {
    Primitives(b => 0, b => 0, b => 0, b => b, b => Ok(b), (c, s, b, d) => Ok(b), c => true,
               EncodeTable, DecodeTable, s => 0, g => true)
  }

  /** The laws assumed of the primitives can hold. */
  lemma LawsCanHold()
    ensures Plain().Lawful()
  {
    forall e ensures Plain().decodeDerived(Plain().encodeDerived(e)) == Ok(e) {
      TableRoundTrip(e);
    }
  }

  /** A map to which nothing was added meets the hypotheses of the writer and reader theorems. */
  lemma EmptyMapOpens(spec: Spec)
    ensures Plain().Lawful() && Representable(Plain(), Run(Plain(), spec, []))
    ensures Open(Plain(), Image(Plain(), spec, [])).Ok?
  {
    LawsCanHold();
    EmptyRepresentable(spec);
    WriteThenOpen(Plain(), spec, []);
  }

  lemma EmptyRepresentable(spec: Spec)
    ensures Representable(Plain(), Run(Plain(), spec, []))
    ensures Acceptable(Plain(), Final(Plain(), spec, []))
  {
  }

  // ------------------------------------------------------------- a base that can be patched

  const SPEC := Spec(0, 0, 0, 0, 0, 0, 0, 100, 4, 1)
  const SURFACE := LayerDesc(ELEVATION, RASTER, 1, DTYPE_U8, 0, 0, 0, false)
  const CALLS := [SetLayer(SURFACE)]
  const TABLE := TlvRecord(TAG_LAYER_TABLE, LayerTableBytes([SURFACE]))

  /** One layer and no chunk: the finished state, and sizes far below every field's width. */
  lemma OneLayerState()
    ensures var t := Final(Plain(), SPEC, CALLS);
            && t.prologue.Some? && t.layers == [SURFACE] && t.skeleton == [] && t.directory == []
            && t.meta == [TABLE] && |t.hashed| <= 100
  {
    hide LayerTableBytes, Zeros;
    assert CALLS[..0] == [];
    assert Run(Plain(), SPEC, []) == Init(SPEC);
    assert DescAccepted(SPEC, SURFACE);
    TableSize();
  }

  lemma TableSize()
    ensures |TABLE.value| == 26 && |TlvBytes([TABLE])| == 34
  {
    assert |Flatten([SURFACE], DescBytes)| == DESC_SIZE by {
      assert Flatten([SURFACE][1..], DescBytes) == [];
    }
    assert [TABLE][1..] == [];
  }

  lemma OneLayerOver()
    ensures var t := Final(Plain(), SPEC, CALLS); Over(Plain(), t, CALLS) && Acceptable(Plain(), t)
  {
    OneLayerState();
    TableSize();
    FinalInv(Plain(), SPEC, CALLS);
    hide Run, EnsurePrologue, LayerTableBytes, Inv, PrologueBody, Zeros;
    var t := Final(Plain(), SPEC, CALLS);
    assert FinalMeta(t) == [TABLE];
    NoExtension();
    AlreadyFrozen(t);
    assert TlvBytes(t.ext) == [];
    assert TlvFits([TABLE]);
  }

  lemma AlreadyFrozen(t: State)
    requires t.sink.Valid() && t.prologue.Some?
    ensures EnsurePrologue(Plain(), t) == t
  {
  }

  lemma NoExtension()
    ensures Final(Plain(), SPEC, CALLS).ext == []
  {
    assert CALLS[..0] == [];
    assert Run(Plain(), SPEC, []) == Init(SPEC);
  }

  /** The file of that state under a given minor version. */
  ghost function Base(minor: u16): seq<byte> {
    FinalInv(Plain(), SPEC, CALLS);
    Reversioned(Plain(), Final(Plain(), SPEC, CALLS), minor)
  }

  const ONE_CHUNK := Replacement(Key(ELEVATION, 0, 0), 0, [7], 1)

  /**
   * One file under every minor version, each a well-formed base to which a patch that adds one
   * chunk applies: the result opens for version 0 and for no other.
   */
  lemma PatchedBase(minor: u16)
    ensures Open(Plain(), Base(minor)).Ok?
    ensures var v := Open(Plain(), Base(minor)).value;
            var p := Patch(Hash64(v.footer.fileHash), [ONE_CHUNK], []);
            && v.header.minor == minor && Ready(Plain(), p, Base(minor), v)
            && Apply(Plain(), p, Base(minor)).Ok?
            && (Open(Plain(), Apply(Plain(), p, Base(minor)).value).Ok? <==> minor == VERSION_MINOR)
  {
    LawsCanHold();
    OneLayerState();
    OneLayerOver();
    TableSize();
    hide Final, Open, Over, Acceptable, Seal, WellFormed, Apply, PatchFits, Readable, TlvBytes, LayerTableBytes;
    var t := Final(Plain(), SPEC, CALLS);
    ReversionedOpens(Plain(), t, CALLS, minor);
    var v := Open(Plain(), Base(minor)).value;
    var p := Patch(Hash64(v.footer.fileHash), [ONE_CHUNK], []);
    SmallPatchFits(Plain(), p, Base(minor), v, 1);
    AppliesExactly(Plain(), p, Base(minor), v);
    KeptMetaReadable(Plain(), p, Base(minor), v);
    PatchOpensExactly(Plain(), p, Base(minor), v);
  }
}
