/** The patch file format, its sequential reader and writer, and when a patch survives a round trip. */
module PatchCodec {
  import opened Bytes
  import opened Records
  import opened Patching

  const PATCH_MAGIC: nat := 0x5046_4D4F
  const PATCH_HEADER := 24
  /** Bytes an encoded replacement has before its payload. */
  const RECORD_BYTES := 20
  /** Bytes per replacement the decoder budgets for. */
  const BUDGET := 22

  function ReplacementBytes(r: Replacement): seq<byte> {
    LE(r.key.layer, 2) + LE(r.key.level, 1) + LE(0, 1) + LE(r.key.chunk, 4) + LE(r.codec, 1) + LE(0, 1) + LE(0, 2)
    + LE(r.rawLen, 4) + LE(|r.payload|, 4) + r.payload
  }

  /** The first `n` records, one after another. */
  function AllReplacements(rs: seq<Replacement>, n: nat): seq<byte>
    requires n <= |rs|
  {
    if n == 0 then [] else AllReplacements(rs, n - 1) + ReplacementBytes(rs[n - 1])
  }

  function Encode(p: Patch): seq<byte> {
    LE(PATCH_MAGIC, 4) + LE(VERSION_MAJOR, 2) + LE(VERSION_MINOR, 2) + LE(p.baseHash, 8)
    + LE(if |p.replacements| <= 0xFFFF_FFFF then |p.replacements| else 0xFFFF_FFFF, 4) + LE(|TlvBytes(p.metaPatch)|, 4)
    + AllReplacements(p.replacements, |p.replacements|) + TlvBytes(p.metaPatch)
  }

  function TotalPayload(rs: seq<Replacement>, n: nat): nat
    requires n <= |rs|
  {
    if n == 0 then 0 else TotalPayload(rs, n - 1) + |rs[n - 1].payload|
  }

  /** Counts and lengths fit their fields. */
  ghost predicate Encodable(p: Patch) {
    && |p.replacements| < 0x1_0000_0000 && |TlvBytes(p.metaPatch)| < 0x1_0000_0000 && TlvFits(p.metaPatch)
    && forall k :: 0 <= k < |p.replacements| ==> |p.replacements[k].payload| < 0x1_0000_0000
  }

  /** Sequential little-endian reader over one buffer. */
  class ByteReader {
    const buf: seq<byte>
    var pos: nat

    ghost predicate Valid() reads this { pos <= |buf| }

    constructor (buf: seq<byte>)
      ensures Valid() && this.buf == buf && pos == 0
    {
      this.buf := buf;
      pos := 0;
    }

    method ReadBytes(n: nat) returns (r: Result<seq<byte>>)
      requires Valid()
      modifies this
      ensures Valid()
      ensures old(pos) + n <= |buf| ==> r == Ok(buf[old(pos)..old(pos) + n]) && pos == old(pos) + n
      ensures old(pos) + n > |buf| ==> r == Err(Truncated) && pos == old(pos)
    {
      if pos + n > |buf| { return Err(Truncated); }
      r := Ok(buf[pos..pos + n]);
      pos := pos + n;
    }

    method ReadWord(width: nat) returns (r: Result<nat>)
      requires Valid()
      modifies this
      ensures Valid()
      ensures old(pos) + width <= |buf| ==> r == Ok(Get(buf, old(pos), width)) && pos == old(pos) + width
      ensures old(pos) + width > |buf| ==> r == Err(Truncated) && pos == old(pos)
    {
      var s := ReadBytes(width);
      if s.Err? { return Err(s.error); }
      r := Ok(UnLE(s.value));
    }
  }

  /** The replacement record at a position and the position after it. */
  function ParseReplacement(s: seq<byte>, at: nat): Result<(Replacement, nat)> {
    if at + RECORD_BYTES > |s| then Err(Truncated) else
    var len := GetU32(s, at + 16);
    if at + RECORD_BYTES + len > |s| then Err(Truncated)
    else Ok((Replacement(Key(GetU16(s, at), GetU8(s, at + 2), GetU32(s, at + 4)), GetU8(s, at + 8),
                         s[at + 20..at + 20 + len], GetU32(s, at + 12)),
             at + 20 + len))
  }

  function ParseReplacements(s: seq<byte>, at: nat, count: nat): Result<(seq<Replacement>, nat)> {
    if count == 0 then Ok(([], at)) else
    var prior :- ParseReplacements(s, at, count - 1);
    var one :- ParseReplacement(s, prior.1);
    Ok((prior.0 + [one.0], one.1))
  }

  /** The count is checked against the bytes left before any record is read. */
  predicate WithinBudget(budget: nat, size: nat, count: nat, metaLen: nat) {
    budget * count <= (if size < PATCH_HEADER + metaLen then 0 else size - PATCH_HEADER - metaLen)
  }

  function Decode(s: seq<byte>): Result<Patch> { DecodeWith(BUDGET, s) }

  /** The decoder, with the bytes it budgets for one record. */
  function DecodeWith(budget: nat, s: seq<byte>): Result<Patch> {
    if |s| < 4 then Err(Truncated)
    else if Get(s, 0, 4) != PATCH_MAGIC then Err(BadMagic)
    else if |s| < PATCH_HEADER then Err(Truncated)
    else
      var count, metaLen := GetU32(s, 16), GetU32(s, 20);
      if !WithinBudget(budget, |s|, count, metaLen) then Err(Truncated)
      else
        var parsed :- ParseReplacements(s, PATCH_HEADER, count);
        if parsed.1 + metaLen > |s| then Err(Truncated)
        else
          var meta :- ParseTlv(s[parsed.1..parsed.1 + metaLen]);
          Ok(Patch(GetU64(s, 8), parsed.0, meta))
  }

  lemma GetAt(s: seq<byte>, off: nat, width: nat, v: nat)
    requires off + width <= |s| && s[off..off + width] == LE(v, width) && v < Pow256(width)
    ensures Get(s, off, width) == v
  {
    WordRoundTrip(v, width);
  }

  /** The fields of one encoded record, by offset. */
  lemma ReplacementFields(r: Replacement)
    ensures var b := ReplacementBytes(r);
            && |b| == RECORD_BYTES + |r.payload|
            && b[0..2] == LE(r.key.layer, 2) && b[2..3] == LE(r.key.level, 1) && b[4..8] == LE(r.key.chunk, 4)
            && b[8..9] == LE(r.codec, 1) && b[12..16] == LE(r.rawLen, 4) && b[16..20] == LE(|r.payload|, 4)
            && b[20..20 + |r.payload|] == r.payload
  {
    hide LE;
    var front := LE(r.key.layer, 2) + LE(r.key.level, 1) + LE(0, 1) + LE(r.key.chunk, 4) + LE(r.codec, 1) + LE(0, 1)
               + LE(0, 2) + LE(r.rawLen, 4) + LE(|r.payload|, 4);
    var b := ReplacementBytes(r);
    assert b == front + r.payload && |front| == 20;
    assert forall i, j :: 0 <= i <= j <= 20 ==> b[i..j] == front[i..j];
  }

  lemma WordAt(s: seq<byte>, at: nat, b: seq<byte>, off: nat, width: nat, v: nat)
    requires at + |b| <= |s| && s[at..at + |b|] == b
    requires off + width <= |b| && b[off..off + width] == LE(v, width) && v < Pow256(width)
    ensures Get(s, at + off, width) == v
  {
    SubSlice(s, at, at + |b|, off, off + width);
    GetAt(s, at + off, width, v);
  }

  lemma ReplacementReads(s: seq<byte>, at: nat, r: Replacement)
    requires |r.payload| < 0x1_0000_0000
    requires Carries(s, at, ReplacementBytes(r))
    ensures ParseReplacement(s, at) == Ok((r, at + |ReplacementBytes(r)|))
  {
    hide LE, UnLE, Pow256, Get, ReplacementBytes;
    Widths();
    var b := ReplacementBytes(r);
    ReplacementFields(r);
    WordAt(s, at, b, 0, 2, r.key.layer);
    WordAt(s, at, b, 2, 1, r.key.level);
    WordAt(s, at, b, 4, 4, r.key.chunk);
    WordAt(s, at, b, 8, 1, r.codec);
    WordAt(s, at, b, 12, 4, r.rawLen);
    WordAt(s, at, b, 16, 4, |r.payload|);
    SubSlice(s, at, at + |b|, 20, 20 + |r.payload|);
  }

  lemma {:induction false} ReplacementsRead(s: seq<byte>, at: nat, rs: seq<Replacement>, n: nat)
    requires n <= |rs| && forall k :: 0 <= k < |rs| ==> |rs[k].payload| < 0x1_0000_0000
    requires Carries(s, at, AllReplacements(rs, n))
    ensures ParseReplacements(s, at, n) == Ok((rs[..n], at + |AllReplacements(rs, n)|))
  {
    hide AllReplacements, ParseReplacement, ParseReplacements, ReplacementBytes, Carries;
    EncodedPrefix(rs, n);
    if n == 0 {
      ParseNone(s, at);
    } else {
      var prior, last := AllReplacements(rs, n - 1), ReplacementBytes(rs[n - 1]);
      SplitSlice(s, at, prior, last);
      ReplacementsRead(s, at, rs, n - 1);
      ReplacementReads(s, at + |prior|, rs[n - 1]);
      ParseOneMore(s, at, n - 1, rs[..n - 1], at + |prior|, rs[n - 1], at + |prior| + |last|);
      assert rs[..n] == rs[..n - 1] + [rs[n - 1]];
    }
  }

  lemma EncodedPrefix(rs: seq<Replacement>, n: nat)
    requires n <= |rs|
    ensures AllReplacements(rs, n) == if n == 0 then [] else AllReplacements(rs, n - 1) + ReplacementBytes(rs[n - 1])
  {
  }

  lemma ParseNone(s: seq<byte>, at: nat)
    ensures ParseReplacements(s, at, 0) == Ok(([], at))
  {
  }

  lemma ParseOneMore(s: seq<byte>, at: nat, n: nat, xs: seq<Replacement>, mid: nat, x: Replacement, end: nat)
    requires ParseReplacements(s, at, n) == Ok((xs, mid)) && ParseReplacement(s, mid) == Ok((x, end))
    ensures ParseReplacements(s, at, n + 1) == Ok((xs + [x], end))
  {
    hide ParseReplacement;
  }

  /** The bytes `x` lie in `s` at a position. */
  ghost predicate Carries(s: seq<byte>, at: nat, x: seq<byte>) {
    at + |x| <= |s| && s[at..at + |x|] == x
  }

  lemma SplitSlice(s: seq<byte>, at: nat, a: seq<byte>, b: seq<byte>)
    requires Carries(s, at, a + b)
    ensures Carries(s, at, a) && Carries(s, at + |a|, b)
  {
    SubSlice(s, at, at + |a + b|, 0, |a|);
    SubSlice(s, at, at + |a + b|, |a|, |a + b|);
  }

  lemma {:induction false} ReplacementsLength(rs: seq<Replacement>, n: nat)
    requires n <= |rs|
    ensures |AllReplacements(rs, n)| == RECORD_BYTES * n + TotalPayload(rs, n)
  {
    if n > 0 {
      ReplacementsLength(rs, n - 1);
      ReplacementFields(rs[n - 1]);
    }
  }

  lemma HeaderReads(p: Patch)
    requires Encodable(p)
    ensures var s := Encode(p);
            && |s| == PATCH_HEADER + |AllReplacements(p.replacements, |p.replacements|)| + |TlvBytes(p.metaPatch)|
            && Get(s, 0, 4) == PATCH_MAGIC && Get(s, 8, 8) == p.baseHash
            && Get(s, 16, 4) == |p.replacements| && Get(s, 20, 4) == |TlvBytes(p.metaPatch)|
            && s[PATCH_HEADER..] == AllReplacements(p.replacements, |p.replacements|) + TlvBytes(p.metaPatch)
  {
    hide LE, UnLE, Pow256, Get, AllReplacements, TlvBytes;
    Widths();
    var s := Encode(p);
    assert s[0..4] == LE(PATCH_MAGIC, 4); GetAt(s, 0, 4, PATCH_MAGIC);
    assert s[8..16] == LE(p.baseHash, 8); GetAt(s, 8, 8, p.baseHash);
    assert s[16..20] == LE(|p.replacements|, 4); GetAt(s, 16, 4, |p.replacements|);
    assert s[20..24] == LE(|TlvBytes(p.metaPatch)|, 4); GetAt(s, 20, 4, |TlvBytes(p.metaPatch)|);
  }

  /** With a budget of at least the bytes written, a patch survives encoding and decoding exactly
      when its payloads make up for what the budget asks for beyond them. */
  lemma RoundTripWith(budget: nat, p: Patch)
    requires Encodable(p) && budget >= RECORD_BYTES
    ensures DecodeWith(budget, Encode(p)) == Ok(p)
       <==> TotalPayload(p.replacements, |p.replacements|) >= (budget - RECORD_BYTES) * |p.replacements|
    ensures TotalPayload(p.replacements, |p.replacements|) < (budget - RECORD_BYTES) * |p.replacements|
        ==> DecodeWith(budget, Encode(p)) == Err(Truncated)
  {
    hide Encode, Get, AllReplacements, TlvBytes, ParseReplacements, ParseTlv, TotalPayload;
    var s, body, meta := Encode(p), AllReplacements(p.replacements, |p.replacements|), TlvBytes(p.metaPatch);
    HeaderReads(p);
    ReplacementsLength(p.replacements, |p.replacements|);
    assert s[PATCH_HEADER..|s|] == s[PATCH_HEADER..];
    assert Carries(s, PATCH_HEADER, body + meta);
    SplitSlice(s, PATCH_HEADER, body, meta);
    ReplacementsRead(s, PATCH_HEADER, p.replacements, |p.replacements|);
    TlvRoundTrip(p.metaPatch);
    assert p.replacements[..|p.replacements|] == p.replacements;
    BudgetSplit(budget, |p.replacements|);
  }

  lemma BudgetSplit(budget: nat, count: nat)
    requires budget >= RECORD_BYTES
    ensures budget * count == RECORD_BYTES * count + (budget - RECORD_BYTES) * count
  {
  }

  /**
   * A patch survives encoding and decoding exactly when its payloads total at least two bytes
   * per replacement: the decoder budgets 22 bytes for a record the encoder writes in 20.
   */
  lemma RoundTripExactly(p: Patch)
    requires Encodable(p)
    ensures Decode(Encode(p)) == Ok(p) <==> TotalPayload(p.replacements, |p.replacements|) >= 2 * |p.replacements|
    ensures TotalPayload(p.replacements, |p.replacements|) < 2 * |p.replacements| ==> Decode(Encode(p)) == Err(Truncated)
  {
    hide Encode, DecodeWith;
    RoundTripWith(BUDGET, p);
  }

  /** The smallest failing patch: one replacement with an empty payload. */
  lemma EmptyPayloadRejected(key: Key, codec: u8, hash: u64)
    ensures Decode(Encode(Patch(hash, [Replacement(key, codec, [], 0)], []))) == Err(Truncated)
  {
    var p := Patch(hash, [Replacement(key, codec, [], 0)], []);
    RoundTripExactly(p);
  }

  /** With a budget of the 20 bytes written every patch survives. */
  lemma TwentyAlwaysFits(p: Patch)
    requires Encodable(p)
    ensures DecodeWith(RECORD_BYTES, Encode(p)) == Ok(p)
  {
    hide Encode, DecodeWith;
    RoundTripWith(RECORD_BYTES, p);
  }

  /** The decoder's loop over one shared reader. */
  method DecodeStream(s: seq<byte>) returns (r: Result<Patch>)
    ensures r == Decode(s)
  {
    hide Get, ParseTlv, ParseReplacement;
    var reader := new ByteReader(s);
    var magic := reader.ReadWord(4);
    if magic.Err? { return Err(magic.error); }
    if magic.value != PATCH_MAGIC { return Err(BadMagic); }
    var major := reader.ReadWord(2);
    if major.Err? { return Err(major.error); }
    var minor := reader.ReadWord(2);
    if minor.Err? { return Err(minor.error); }
    var hash := reader.ReadWord(8);
    if hash.Err? { return Err(hash.error); }
    var count := reader.ReadWord(4);
    if count.Err? { return Err(count.error); }
    var metaLen := reader.ReadWord(4);
    if metaLen.Err? { return Err(metaLen.error); }
    if !WithinBudget(BUDGET, |s|, count.value, metaLen.value) { return Err(Truncated); }
    var rs := [];
    for n := 0 to count.value
      invariant reader.Valid()
      invariant ParseReplacements(s, PATCH_HEADER, n) == Ok((rs, reader.pos))
    {
      var one := ReadReplacement(reader);
      if one.Err? {
        ParseStops(s, PATCH_HEADER, n, count.value);
        return Err(one.error);
      }
      rs := rs + [one.value];
    }
    var metaBytes := reader.ReadBytes(metaLen.value);
    if metaBytes.Err? { return Err(metaBytes.error); }
    var meta := ParseTlv(metaBytes.value);
    if meta.Err? { return Err(meta.error); }
    Widths();
    r := Ok(Patch(hash.value, rs, meta.value));
  }

  lemma {:induction false} ParseStops(s: seq<byte>, at: nat, n: nat, count: nat)
    requires n < count
    requires ParseReplacements(s, at, n).Ok? && ParseReplacement(s, ParseReplacements(s, at, n).value.1).Err?
    ensures ParseReplacements(s, at, count) == Err(ParseReplacement(s, ParseReplacements(s, at, n).value.1).error)
    decreases count
  {
    hide ParseReplacement;
    if n < count - 1 { ParseStops(s, at, n, count - 1); }
  }

  /** The first eight bytes of a record: its address, with one reserved byte. */
  method ReadKey(reader: ByteReader) returns (r: Result<Key>)
    requires reader.Valid()
    modifies reader
    ensures reader.Valid()
    ensures var s, at := reader.buf, old(reader.pos);
      if at + 8 > |s| then r == Err(Truncated)
      else r == Ok(Key(GetU16(s, at), GetU8(s, at + 2), GetU32(s, at + 4))) && reader.pos == at + 8
  {
    hide Get;
    Widths();
    var layer := reader.ReadWord(2);
    if layer.Err? { return Err(layer.error); }
    var level := reader.ReadWord(1);
    if level.Err? { return Err(level.error); }
    var reserved0 := reader.ReadWord(1);
    if reserved0.Err? { return Err(reserved0.error); }
    var chunk := reader.ReadWord(4);
    if chunk.Err? { return Err(chunk.error); }
    r := Ok(Key(layer.value, level.value, chunk.value));
  }

  method ReadReplacement(reader: ByteReader) returns (r: Result<Replacement>)
    requires reader.Valid()
    modifies reader
    ensures reader.Valid()
    ensures match ParseReplacement(reader.buf, old(reader.pos))
            case Ok(pair) => r == Ok(pair.0) && reader.pos == pair.1
            case Err(e) => r == Err(e)
  {
    hide Get;
    Widths();
    var key := ReadKey(reader);
    if key.Err? { return Err(key.error); }
    var codec := reader.ReadWord(1);
    if codec.Err? { return Err(codec.error); }
    var reserved1 := reader.ReadWord(1);
    if reserved1.Err? { return Err(reserved1.error); }
    var reserved2 := reader.ReadWord(2);
    if reserved2.Err? { return Err(reserved2.error); }
    var rawLen := reader.ReadWord(4);
    if rawLen.Err? { return Err(rawLen.error); }
    var len := reader.ReadWord(4);
    if len.Err? { return Err(len.error); }
    var payload := reader.ReadBytes(len.value);
    if payload.Err? { return Err(payload.error); }
    r := Ok(Replacement(key.value, codec.value, payload.value, rawLen.value));
  }
}
