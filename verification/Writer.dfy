/** The streaming writer object; each method is one step of the state machine. */
module Writer {
  import opened Bytes
  import opened Layout
  import opened Records
  import opened Reader
  import opened WriterModel
  import Directory

  /** Between calls: nothing written yet, or the blank header and then exactly what was hashed. */
  ghost predicate InStep(s: State) {
    && Directory.Strict(s.directory)
    && (s.prologue.None? ==> s.sink == Sink([], 0) && s.hashed == [])
    && (s.prologue.Some? ==> s.sink.bytes == Zeros(HEADER_SIZE) + s.hashed && s.sink.pos == |s.sink.bytes|)
  }

  class MapWriter {
    const P: Primitives
    const spec: Spec
    const directory: Directory.ChunkDirectory
    var sink: Sink
    var meta: seq<TlvRecord>
    var extMeta: seq<TlvRecord>
    var skeleton: seq<QNode>
    var layers: seq<LayerDesc>
    /** Everything fed to the streaming body hash so far. */
    var hashed: seq<byte>
    var prologue: Option<Prologue>

    ghost predicate Valid()
      reads this, directory
    {
      directory.Valid() && InStep(Current())
    }

    function Current(): State
      reads this, directory
    {
      State(spec, meta, extMeta, skeleton, layers, directory.records, sink, hashed, prologue)
    }

    constructor (P: Primitives, spec: Spec)
      ensures Valid() && fresh(directory)
      ensures this.P == P && Current() == Init(spec)
    {
      this.P := P;
      this.spec := spec;
      directory := new Directory.ChunkDirectory();
      sink := Sink([], 0);
      meta, extMeta, skeleton, layers, hashed, prologue := [], [], [], [], [], None;
    }

    method SetMeta(record: TlvRecord) returns (ok: bool)
      requires Valid()
      modifies this
      ensures Valid() && (Current(), ok) == Step(P, old(Current()), Op.SetMeta(record))
    {
      ok := prologue.None?;
      if ok { meta := TlvSet(meta, record); }
    }

    method PushExtMeta(record: TlvRecord) returns (ok: bool)
      requires Valid()
      modifies this
      ensures Valid() && (Current(), ok) == Step(P, old(Current()), PushExt(record))
    {
      ok := prologue.None?;
      if ok { extMeta := extMeta + [record]; }
    }

    method RegisterLayer(desc: LayerDesc) returns (ok: bool)
      requires Valid()
      modifies this
      ensures Valid() && (Current(), ok) == Step(P, old(Current()), SetLayer(desc))
    {
      ok := prologue.None? && DescAccepted(spec, desc);
      if ok { layers := SetDesc(layers, desc); }
    }

    method ReplaceSkeleton(nodes: seq<QNode>) returns (ok: bool)
      requires Valid()
      modifies this
      ensures Valid() && (Current(), ok) == Step(P, old(Current()), SetSkeleton(nodes))
    {
      ok := prologue.None?;
      if ok { skeleton := nodes; }
    }

    /** Writes bytes and feeds them to the body hash. */
    method WriteHashed(data: seq<byte>)
      requires sink.Valid()
      modifies this`sink, this`hashed
      ensures sink == old(sink).Write(data) && hashed == old(hashed) + data
    {
      sink := sink.Write(data);
      hashed := hashed + data;
    }

    method WritePrologue()
      requires Valid()
      modifies this
      ensures Valid() && Current() == EnsurePrologue(P, old(Current()))
    {
      hide TlvBytes, TlvSet, Flatten, LayerTableBytes, Align8, NodeBytes, Zeros, Sink.Write, Cast32, Cast64, InStep,
           EnsurePrologue;
      if prologue.Some? {
        StepsAreSound(Current());
        PrologueOnce(P, Current());
        return;
      }
      ghost var before := Current();
      StepsAreSound(before);
      PrologueInStep(P, before);
      meta := TlvSet(meta, TlvRecord(TAG_LAYER_TABLE, LayerTableBytes(layers)));
      var compressed := P.zstd(TlvBytes(meta));
      var ext := TlvBytes(extMeta);
      var skeletonBytes := Flatten(skeleton, NodeBytes);
      var written := HEADER_SIZE + |compressed| + |ext|;
      var padding := Zeros(Align8(written) - written);

      sink := sink.Rewind();
      sink := sink.Write(Zeros(HEADER_SIZE));
      WriteHashed(compressed);
      WriteHashed(ext);
      WriteHashed(padding);
      WriteHashed(skeletonBytes);
      PrologueInPieces(P, before, compressed, ext, padding, skeletonBytes);
      prologue := Some(Prologue(HEADER_SIZE, Cast32(|compressed|),
                                if ext == [] then 0 else Cast64(HEADER_SIZE + |compressed|), Cast32(|ext|)));
    }

    /** Appends an encoded chunk and records it; the bytes are written before the lengths are checked. */
    method WriteEncodedChunk(key: Key, codec: u8, stored: seq<byte>, rawLen: nat) returns (ok: bool)
      requires Valid()
      modifies this, directory
      ensures Valid() && (Current(), ok) == Step(P, old(Current()), WriteChunk(key, codec, stored, rawLen))
    {
      hide EnsurePrologue, InStep, Directory.Upsert, Sink.Write, Cast64;
      ChunkKeepsStep(P, Current(), WriteChunk(key, codec, stored, rawLen));
      WritePrologue();
      StepsAreSound(Current());
      var offset := sink.pos;
      WriteHashed(stored);
      ok := SizesFit(stored, rawLen);
      if ok {
        directory.Store(RecordFor(P, offset, key, codec, stored, rawLen));
      }
    }

    /** Directory, footer with a blank hash, then the hash, then the header over its placeholder. */
    method Finish() returns (img: seq<byte>)
      requires Valid()
      modifies this
      ensures img == Finished(P, old(Current()))
      ensures hashed == img[HEADER_SIZE..|img| - HASH_SIZE]
    {
      hide HeaderOf, FooterOf, HeaderBytes, FooterBytes, Flatten, RecordBytes, Zeros, LE, Sink.Write;
      WritePrologue();
      ghost var t := Current();
      PrologueKeepsShape(P, old(Current()));
      var header := HeaderOf(P, Current());
      var footer := FooterOf(Current());
      var dirBytes := Flatten(directory.records, RecordBytes);
      WriteHashed(dirBytes);
      var headerBytes := HeaderBytes(P, header);
      var footerBytes := FooterBytes(footer);
      WriteHashed(footerBytes[..HASH_OFFSET]);
      var hash := P.hash128(headerBytes + LE(P.hash128(hashed), HASH_SIZE));
      footerBytes := FooterBytes(footer.(fileHash := hash));
      sink := sink.Write(footerBytes[HASH_OFFSET..]);
      sink := sink.Rewind();
      sink := sink.Write(headerBytes);
      img := sink.bytes;
      SealedBySink(P, t.sink, header, t.hashed, dirBytes, footer);
      SealCovers(P, header, t.hashed + dirBytes, footer);
    }
  }

  /** What `InStep` says to a caller that does not look inside. */
  lemma StepsAreSound(s: State)
    requires InStep(s)
    ensures s.sink.Valid() && Directory.Strict(s.directory)
  {
  }

  lemma PrologueOnce(P: Primitives, s: State)
    requires s.sink.Valid() && s.prologue.Some?
    ensures EnsurePrologue(P, s) == s
  {
  }

  /** The pieces, hashed and written one after another, make up the prologue. */
  lemma PrologueInPieces(P: Primitives, s: State, meta: seq<byte>, ext: seq<byte>, padding: seq<byte>, nodes: seq<byte>)
    requires s.sink.Valid() && s.prologue.None?
    requires meta == P.zstd(TlvBytes(FinalMeta(s))) && ext == TlvBytes(s.ext) && nodes == Flatten(s.skeleton, NodeBytes)
    requires var end := HEADER_SIZE + |meta| + |ext|; padding == Zeros(Align8(end) - end)
    ensures EnsurePrologue(P, s) == s.(
      meta := FinalMeta(s),
      sink := s.sink.Rewind().Write(Zeros(HEADER_SIZE)).Write(meta).Write(ext).Write(padding).Write(nodes),
      hashed := s.hashed + meta + ext + padding + nodes,
      prologue := Some(Prologue(HEADER_SIZE, Cast32(|meta|), if ext == [] then 0 else Cast64(HEADER_SIZE + |meta|), Cast32(|ext|))))
  {
    hide TlvBytes, FinalMeta, Flatten, Align8, NodeBytes, Zeros, Sink.Write, Cast32, Cast64;
    assert |meta + ext| == |meta| + |ext|;
    assert PrologueBody(P, s) == meta + ext + padding + nodes;
    WrittenInPieces(s.sink.Rewind().Write(Zeros(HEADER_SIZE)), meta, ext, padding, nodes);
    assert s.hashed + (meta + ext + padding + nodes) == s.hashed + meta + ext + padding + nodes;
  }

  lemma PrologueInStep(P: Primitives, s: State)
    requires InStep(s)
    ensures s.sink.Valid() && InStep(EnsurePrologue(P, s))
  {
    PrologueKeepsShape(P, s);
    PrologueIsThere(P, s);
    hide EnsurePrologue, Directory.Strict, Zeros;
  }

  lemma ChunkKeepsStep(P: Primitives, s: State, op: Op)
    requires InStep(s) && op.WriteChunk?
    ensures s.sink.Valid() && InStep(Step(P, s, op).0)
  {
    hide EnsurePrologue, Directory.Upsert, Directory.Strict, Zeros, Cast64;
    PrologueKeepsShape(P, s);
    PrologueIsThere(P, s);
    var t := EnsurePrologue(P, s);
    assert Zeros(HEADER_SIZE) + t.hashed + op.stored == Zeros(HEADER_SIZE) + (t.hashed + op.stored);
    if SizesFit(op.stored, op.rawLen) {
      Directory.UpsertKeepsOrder(t.directory, RecordFor(P, t.sink.pos, op.key, op.codec, op.stored, op.rawLen));
    }
  }

  lemma PrologueIsThere(P: Primitives, s: State)
    requires InStep(s)
    ensures var t := EnsurePrologue(P, s); t.prologue.Some? && t.directory == s.directory
  {
    hide PrologueBody, FinalMeta, PrologueOf;
  }

  lemma PrologueKeepsShape(P: Primitives, s: State)
    requires InStep(s)
    ensures var t := EnsurePrologue(P, s);
            t.sink == Sink(Zeros(HEADER_SIZE) + t.hashed, HEADER_SIZE + |t.hashed|)
  {
    hide PrologueBody, FinalMeta, PrologueOf;
  }

  /** The finishing writes, taken together, leave a sealed image in the sink. */
  lemma SealedBySink(P: Primitives, s: Sink, h: Header, hashed: seq<byte>, dirBytes: seq<byte>, f: Footer)
    requires s == Sink(Zeros(HEADER_SIZE) + hashed, HEADER_SIZE + |hashed|)
    ensures var blank := FooterBytes(f)[..HASH_OFFSET];
            var hash := ComposeHash(P, HeaderBytes(P, h), hashed + dirBytes + blank);
            s.Write(dirBytes).Write(blank).Write(FooterBytes(f.(fileHash := hash))[HASH_OFFSET..]).Rewind().Write(HeaderBytes(P, h)).bytes
              == Seal(P, h, hashed + dirBytes, f)
  {
    var hash := ComposeHash(P, HeaderBytes(P, h), hashed + dirBytes + FooterBytes(f)[..HASH_OFFSET]);
    var whole := FooterBytes(f.(fileHash := hash));
    FooterSplit(f, hash);
    hide HeaderBytes, FooterBytes, ComposeHash, Zeros;
    HeaderPatched(HeaderBytes(P, h), hashed, dirBytes, FooterBytes(f)[..HASH_OFFSET], whole[HASH_OFFSET..]);
    assert whole == FooterBytes(f)[..HASH_OFFSET] + whole[HASH_OFFSET..];
  }

  lemma WrittenInPieces(s: Sink, a: seq<byte>, b: seq<byte>, c: seq<byte>, d: seq<byte>)
    requires s.Valid()
    ensures s.Write(a).Write(b).Write(c).Write(d) == s.Write(a + b + c + d)
  {
    TwoWrites(s, a, b);
    TwoWrites(s, a + b, c);
    TwoWrites(s, a + b + c, d);
  }

  lemma TwoWrites(s: Sink, a: seq<byte>, b: seq<byte>)
    requires s.Valid()
    ensures s.Write(a).Write(b) == s.Write(a + b)
  {
  }

  /** Writing the header at the start replaces the placeholder and nothing else. */
  lemma HeaderPatched(header: seq<byte>, a: seq<byte>, b: seq<byte>, c: seq<byte>, d: seq<byte>)
    requires |header| == HEADER_SIZE
    ensures Sink(Zeros(HEADER_SIZE) + a, HEADER_SIZE + |a|).Write(b).Write(c).Write(d).Rewind().Write(header).bytes
         == header + (a + b) + (c + d)
  {
    var s := Sink(Zeros(HEADER_SIZE) + a, HEADER_SIZE + |a|).Write(b).Write(c).Write(d);
    assert s.bytes == Zeros(HEADER_SIZE) + (a + b) + (c + d);
  }
}
