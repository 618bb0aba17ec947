/**
 * Fixed layouts: a table of (offset, width) fields written into a zeroed buffer one after
 * another and read back by offset. Header, footer, directory record, skeleton node and layer
 * descriptor are all instances, so one round trip covers the five.
 */
module Layout {
  import opened Bytes

  datatype Field = Field(off: nat, width: nat)

  /** Fields ascend without overlap and end inside the buffer. */
  ghost predicate Disjoint(layout: seq<Field>, size: nat) {
    && (forall i :: 0 <= i < |layout| ==> layout[i].off + layout[i].width <= size)
    && (forall i, j :: 0 <= i < j < |layout| ==> layout[i].off + layout[i].width <= layout[j].off)
  }

  ghost predicate Fits(layout: seq<Field>, words: seq<nat>) {
    && |words| == |layout|
    && forall i :: 0 <= i < |layout| ==> words[i] < Pow256(layout[i].width)
  }

  ghost predicate Abut(layout: seq<Field>, i: int)
    requires 0 <= i < |layout| - 1
  {
    layout[i].off + layout[i].width == layout[i + 1].off
  }

  /** Fields laid back to back are disjoint. */
  lemma Contiguous(layout: seq<Field>, size: nat)
    requires layout != []
    requires forall i :: 0 <= i < |layout| - 1 ==> Abut(layout, i)
    requires layout[|layout| - 1].off + layout[|layout| - 1].width <= size
    ensures Disjoint(layout, size)
  {
    Ascend(layout, |layout| - 1);
  }

  lemma {:induction false} Ascend(layout: seq<Field>, n: nat)
    requires n < |layout|
    requires forall i :: 0 <= i < |layout| - 1 ==> Abut(layout, i)
    ensures forall i, j :: 0 <= i < j <= n ==> layout[i].off + layout[i].width <= layout[j].off
  {
    if n > 0 {
      Ascend(layout, n - 1);
      assert Abut(layout, n - 1);
      assert forall i :: 0 <= i < n - 1 ==> layout[i].off + layout[i].width <= layout[n - 1].off;
    }
  }

  function Put(buf: seq<byte>, off: nat, data: seq<byte>): (r: seq<byte>)
    requires off + |data| <= |buf|
    ensures |r| == |buf|
  {
    buf[..off] + data + buf[off + |data|..]
  }

  /** The buffer after the first `n` fields were written. */
  function PutWords(buf: seq<byte>, layout: seq<Field>, words: seq<nat>, n: nat): (r: seq<byte>)
    requires n <= |layout| == |words|
    requires forall i :: 0 <= i < |layout| ==> layout[i].off + layout[i].width <= |buf|
    ensures |r| == |buf|
  {
    if n == 0 then buf
    else Put(PutWords(buf, layout, words, n - 1), layout[n - 1].off, LE(words[n - 1], layout[n - 1].width))
  }

  function GetWord(buf: seq<byte>, field: Field): nat
    requires field.off + field.width <= |buf|
  {
    UnLE(buf[field.off..field.off + field.width])
  }

  function Pack(size: nat, layout: seq<Field>, words: seq<nat>): (r: seq<byte>)
    requires |layout| == |words|
    requires forall i :: 0 <= i < |layout| ==> layout[i].off + layout[i].width <= size
    ensures |r| == size
  {
    PutWords(Zeros(size), layout, words, |layout|)
  }

  /** A field keeps the bytes it was given through all later writes. */
  lemma {:induction false} FieldKept(buf: seq<byte>, layout: seq<Field>, words: seq<nat>, n: nat, i: nat)
    requires i < n <= |layout| == |words|
    requires Disjoint(layout, |buf|)
    ensures PutWords(buf, layout, words, n)[layout[i].off..layout[i].off + layout[i].width]
         == LE(words[i], layout[i].width)
  {
    if i < n - 1 {
      FieldKept(buf, layout, words, n - 1, i);
      var before := PutWords(buf, layout, words, n - 1);
      assert PutWords(buf, layout, words, n)[..layout[n - 1].off] == before[..layout[n - 1].off];
      assert layout[i].off + layout[i].width <= layout[n - 1].off;
      assert forall k :: layout[i].off <= k < layout[i].off + layout[i].width ==>
          PutWords(buf, layout, words, n)[k] == before[k];
    }
  }

  /** Fields at or after position `from` leave the bytes before it alone. */
  lemma {:induction false} PrefixKept(buf: seq<byte>, layout: seq<Field>, words: seq<nat>, k: nat, n: nat)
    requires k <= n <= |layout| == |words|
    requires Disjoint(layout, |buf|)
    ensures forall p :: k < |layout| && 0 <= p < layout[k].off ==>
        PutWords(buf, layout, words, n)[p] == PutWords(buf, layout, words, k)[p]
  {
    if k < n {
      PrefixKept(buf, layout, words, k, n - 1);
      assert layout[k].off <= layout[n - 1].off;
    }
  }

  /** Reading every field of a packed record gives back the words. */
  lemma Unpacked(size: nat, layout: seq<Field>, words: seq<nat>)
    requires Disjoint(layout, size) && Fits(layout, words)
    ensures forall i :: 0 <= i < |layout| ==> GetWord(Pack(size, layout, words), layout[i]) == words[i]
  {
    forall i | 0 <= i < |layout|
      ensures GetWord(Pack(size, layout, words), layout[i]) == words[i]
    {
      FieldKept(Zeros(size), layout, words, |layout|, i);
      WordRoundTrip(words[i], layout[i].width);
    }
  }

  lemma Overwritten(before: seq<byte>, after: seq<byte>, off: nat, data: seq<byte>)
    requires off + |data| <= |before| == |after|
    requires forall k :: 0 <= k < |data| ==> after[off + k] == data[k]
    requires forall k :: 0 <= k < |before| && !(off <= k < off + |data|) ==> after[k] == before[k]
    ensures after == Put(before, off, data)
  {
    forall k | off <= k < off + |data| ensures after[k] == data[k - off] {
      assert after[off + (k - off)] == data[k - off];
    }
  }

  method PutSlice(buf: array<byte>, off: nat, data: seq<byte>)
    requires off + |data| <= buf.Length
    modifies buf
    ensures buf[..] == Put(old(buf[..]), off, data)
  {
    forall k | 0 <= k < |data| {
      buf[off + k] := data[k];
    }
    Overwritten(old(buf[..]), buf[..], off, data);
  }

  /** The code's own form: one buffer, overwritten field by field. */
  method PackInPlace(buf: array<byte>, layout: seq<Field>, words: seq<nat>)
    requires |layout| == |words|
    requires forall i :: 0 <= i < |layout| ==> layout[i].off + layout[i].width <= buf.Length
    modifies buf
    ensures buf[..] == PutWords(old(buf[..]), layout, words, |layout|)
  {
    for n := 0 to |layout|
      invariant buf[..] == PutWords(old(buf[..]), layout, words, n)
    {
      PutSlice(buf, layout[n].off, LE(words[n], layout[n].width));
    }
  }

  /** Records of one size laid end to end. */
  function Flatten<T>(xs: seq<T>, enc: T -> seq<byte>): seq<byte> {
    if xs == [] then [] else enc(xs[0]) + Flatten(xs[1..], enc)
  }

  function ParseMany<T>(bytes: seq<byte>, size: nat, dec: seq<byte> -> Result<T>): Result<seq<T>>
    requires size > 0
    decreases |bytes|
  {
    if |bytes| < size then
      if bytes == [] then Ok([]) else Err(Invalid)
    else
      var x :- dec(bytes[..size]);
      var rest :- ParseMany(bytes[size..], size, dec);
      Ok([x] + rest)
  }

  lemma ParseCons<T>(head: seq<byte>, tail: seq<byte>, size: nat, dec: seq<byte> -> Result<T>, x: T, xs: seq<T>)
    requires size > 0 && |head| == size
    requires dec(head) == Ok(x) && ParseMany(tail, size, dec) == Ok(xs)
    ensures ParseMany(head + tail, size, dec) == Ok([x] + xs)
  {
    var bytes := head + tail;
    assert bytes[..size] == head && bytes[size..] == tail;
  }

  lemma {:induction false} FlattenLength<T>(xs: seq<T>, size: nat, enc: T -> seq<byte>)
    requires forall x :: x in xs ==> |enc(x)| == size
    ensures |Flatten(xs, enc)| == size * |xs|
  {
    if xs != [] {
      FlattenLength(xs[1..], size, enc);
      Distribute(size, |xs[1..]|);
    }
  }

  lemma Distribute(size: nat, n: nat)
    ensures size * (n + 1) == size * n + size
  {
  }

  lemma {:induction false} ParseFlatten<T>(xs: seq<T>, size: nat, enc: T -> seq<byte>, dec: seq<byte> -> Result<T>)
    requires size > 0
    requires forall x :: x in xs ==> |enc(x)| == size && dec(enc(x)) == Ok(x)
    ensures ParseMany(Flatten(xs, enc), size, dec) == Ok(xs)
  {
    if xs != [] {
      var tail := xs[1..];
      assert forall x :: x in tail ==> x in xs;
      ParseFlatten(tail, size, enc, dec);
      ParseCons(enc(xs[0]), Flatten(tail, enc), size, dec, xs[0], tail);
      assert xs == [xs[0]] + tail;
    }
  }
}
