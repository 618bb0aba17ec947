/** Bytes, fixed-width words and results shared by the container modules. */
module Bytes {

  newtype byte = b: int | 0 <= b < 256

  type u8 = v: nat | v < 0x100
  type u16 = v: nat | v < 0x1_0000
  type u32 = v: nat | v < 0x1_0000_0000
  type u64 = v: nat | v < 0x1_0000_0000_0000_0000
  type u128 = v: nat | v < 0x1_0000_0000_0000_0000_0000_0000_0000_0000

  datatype Option<+T> = None | Some(value: T)

  /** The failures the container code distinguishes. */
  datatype MapError =
    | Invalid
    | Truncated
    | BadMagic
    | UnsupportedVersion
    | HeaderCrc
    | FileHash
    | ChunkCrc
    | UnsupportedCodec
    | LayerNotFound
    | StaleDerived
    | PatchBaseMismatch
    | PatchDerivedLayer

  datatype Result<+T> = Ok(value: T) | Err(error: MapError) {
    predicate IsFailure() { Err? }

    function PropagateFailure<U>(): Result<U>
      requires Err?
    {
      Err(error)
    }

    function Extract(): T
      requires Ok?
    {
      value
    }
  }

  function Pow256(k: nat): (p: nat)
    ensures p > 0
  {
    if k == 0 then 1 else 256 * Pow256(k - 1)
  }

  lemma Widths()
    ensures Pow256(1) == 0x100
    ensures Pow256(2) == 0x1_0000
    ensures Pow256(4) == 0x1_0000_0000
    ensures Pow256(8) == 0x1_0000_0000_0000_0000
    ensures Pow256(16) == 0x1_0000_0000_0000_0000_0000_0000_0000_0000
  {
    assert Pow256(3) == 0x100_0000;
    assert Pow256(6) == 0x1_0000_0000_0000;
    assert Pow256(10) == 0x1_0000_0000_0000_0000_0000;
    assert Pow256(13) == 0x100_0000_0000_0000_0000_0000_0000;
  }

  /** The `k` low bytes of `v`, least significant first; higher bytes are dropped as a cast does. */
  function LE(v: nat, k: nat): (s: seq<byte>)
    ensures |s| == k
  {
    if k == 0 then [] else [(v % 256) as byte] + LE(v / 256, k - 1)
  }

  function UnLE(s: seq<byte>): nat {
    if s == [] then 0 else s[0] as nat + 256 * UnLE(s[1..])
  }

  /** Reading back a word gives the word when it fits its width. */
  lemma {:induction false} WordRoundTrip(v: nat, k: nat)
    requires v < Pow256(k)
    ensures UnLE(LE(v, k)) == v
  {
    if k > 0 {
      assert v / 256 < Pow256(k - 1);
      WordRoundTrip(v / 256, k - 1);
      assert LE(v, k)[1..] == LE(v / 256, k - 1);
    }
  }

  /** Every byte string of length `k` is the encoding of exactly one word below 256^k. */
  lemma {:induction false} WordInverse(s: seq<byte>)
    ensures UnLE(s) < Pow256(|s|)
    ensures LE(UnLE(s), |s|) == s
  {
    if s != [] {
      WordInverse(s[1..]);
      var t := UnLE(s[1..]);
      assert UnLE(s) == s[0] as nat + 256 * t;
      assert UnLE(s) % 256 == s[0] as nat && UnLE(s) / 256 == t;
      assert s == [s[0]] + s[1..];
    }
  }

  /** A slice of a slice. */
  lemma SubSlice<T>(s: seq<T>, a: nat, b: nat, i: nat, j: nat)
    requires a <= b <= |s| && i <= j <= b - a
    ensures s[a..b][i..j] == s[a + i..a + j]
  {
    var t := s[a..b];
    forall k | 0 <= k < j - i ensures t[i..j][k] == s[a + i..a + j][k] {
      assert t[i + k] == s[a + i + k];
    }
  }

  /** Sequences that agree up to `n` agree on every slice before it. */
  lemma SameSlice<T>(s: seq<T>, t: seq<T>, n: nat, i: nat, j: nat)
    requires i <= j <= n <= |s| && n <= |t| && s[..n] == t[..n]
    ensures s[i..j] == t[i..j]
  {
    forall k | i <= k < j ensures s[k] == t[k] {
      assert s[..n][k] == t[..n][k];
    }
  }

  function Zeros(n: nat): (s: seq<byte>)
    ensures |s| == n
  {
    seq(n, i => 0 as byte)
  }

  /** The smallest multiple of eight not below `v`. */
  function Align8(v: nat): (a: nat)
    ensures v <= a < v + 8 && a % 8 == 0
  {
    (v + 7) / 8 * 8
  }
}
