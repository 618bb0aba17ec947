/**
 * What an image must be for the reader to open it, in its own bytes, and what its hash binds: an
 * image that differs anywhere but in the hash itself is refused, unless the hash collides.
 */
module Tampering {
  import opened Bytes
  import opened Layout
  import opened Records
  import opened Reader
  import opened Patching
  import Grid

  /** The string the stored hash is taken of: the header, then the digest of all between the
      header and the hash. */
  function HashedString(P: Primitives, img: seq<byte>): seq<byte>
    requires |img| >= 192
  {
    img[..128] + LE(P.hash128(img[128..|img| - 16]), 16)
  }

  /** The number of a byte string, lowest byte first. */
  lemma {:induction false} ByteOf(v: nat, k: nat, i: nat)
    requires i < k
    ensures LE(v, k)[i] as nat == v / Pow256(i) % 256
    decreases i
  {
    if i > 0 {
      ByteOf(v / 256, k - 1, i - 1);
      Quotients(v, Pow256(i - 1));
    }
  }

  lemma Quotients(v: nat, p: nat)
    requires p > 0
    ensures v / 256 / p == v / (256 * p)
  {
    var a, r := v / 256, v % 256;
    var q, s := a / p, a % p;
    assert a == q * p + s && v == 256 * a + r;
    assert v == q * (256 * p) + (256 * s + r);
    assert 256 * s + r < 256 * p;
    Unique(v, 256 * p, q, 256 * s + r);
  }

  lemma Unique(v: nat, d: nat, q: nat, r: nat)
    requires v == q * d + r && r < d
    ensures v / d == q
  {
    Grid.OneQuotient(v / d, v % d, q, r, d);
  }

  /** An image that opens, byte by byte. */
  lemma OpenedBytes(P: Primitives, img: seq<byte>)
    requires Open(P, img).Ok?
    ensures |img| >= 192
    ensures var end := |img| - 64;
      && UnLE(img[0..4]) == 0x0046_4D4F && UnLE(img[4..6]) == 1
      && UnLE(img[100..104]) == P.crc32(img[..100])
      && UnLE(img[end..end + 4]) == 0x4646_4D4F && UnLE(img[end + 4..end + 6]) == 1
      && UnLE(img[6..8]) == UnLE(img[end + 6..end + 8])
      && (UnLE(img[80..88]) == 0 || UnLE(img[80..88]) == end)
      && UnLE(img[end + 40..end + 48]) == |img|
      && UnLE(img[end + 48..]) == P.hash128(HashedString(P, img))
  {
    hide UnLE, LE, Pow256, OpenBody;
    var head, foot := img[..128], img[|img| - 64..];
    HeadSlices(img, 0, 4);
    HeadSlices(img, 4, 6);
    HeadSlices(img, 6, 8);
    HeadSlices(img, 80, 88);
    HeadSlices(img, 100, 104);
    assert head[..100] == img[..100];
    FootSlices(img, 0, 4);
    FootSlices(img, 4, 6);
    FootSlices(img, 6, 8);
    FootSlices(img, 40, 48);
    FootSlices(img, 48, 64);
    assert img[|img| - 64 + 48..|img|] == img[|img| - 64 + 48..];
  }

  lemma HeadSlices(img: seq<byte>, a: nat, b: nat)
    requires a <= b <= 128 <= |img|
    ensures img[..128][a..b] == img[a..b]
  {
  }

  lemma FootSlices(img: seq<byte>, a: nat, b: nat)
    requires a <= b <= 64 <= |img|
    ensures img[|img| - 64..][a..b] == img[|img| - 64 + a..|img| - 64 + b]
  {
  }

  /**
   * Two images of one length with the same stored hash, of which the first opens: if they differ
   * at all, and the hash collides neither on their bodies nor on the strings it is taken of, the
   * second is refused.
   */
  lemma ChangesAreRefused(P: Primitives, a: seq<byte>, b: seq<byte>)
    requires Open(P, a).Ok? && |b| == |a| >= 192 && b != a
    requires b[|b| - 16..] == a[|a| - 16..]
    requires P.hash128(a[128..|a| - 16]) == P.hash128(b[128..|b| - 16]) ==> a[128..|a| - 16] == b[128..|b| - 16]
    requires P.hash128(HashedString(P, a)) == P.hash128(HashedString(P, b)) ==> HashedString(P, a) == HashedString(P, b)
    ensures Open(P, b).Err?
  {
    hide Open, UnLE, LE, Pow256;
    if Open(P, b).Ok? {
      OpenedBytes(P, a);
      OpenedBytes(P, b);
      assert a[|a| - 64 + 48..] == a[|a| - 16..] && b[|b| - 64 + 48..] == b[|b| - 16..];
      var m, n := P.hash128(a[128..|a| - 16]), P.hash128(b[128..|b| - 16]);
      SplitString(a[..128], LE(m, 16), b[..128], LE(n, 16));
      HashRoundTrip(m);
      HashRoundTrip(n);
      ThreePieces(a);
      ThreePieces(b);
      assert false;
    }
  }

  lemma HashRoundTrip(hash: u128)
    ensures UnLE(LE(hash, 16)) == hash
  {
    Widths();
    WordRoundTrip(hash, 16);
  }

  lemma SplitString(a: seq<byte>, s: seq<byte>, b: seq<byte>, t: seq<byte>)
    requires |a| == |b| && a + s == b + t
    ensures a == b && s == t
  {
    assert (a + s)[..|a|] == a && (b + t)[..|b|] == b;
    assert (a + s)[|a|..] == s && (b + t)[|b|..] == t;
  }

  lemma ThreePieces(img: seq<byte>)
    requires |img| >= 192
    ensures img == img[..128] + img[128..|img| - 16] + img[|img| - 16..]
  {
  }

  /** The hash a patch names its base by is the first eight bytes of the stored one. */
  lemma BaseHashIsPrefix(hash: u128)
    ensures LE(Hash64(hash), 8) == LE(hash, 16)[..8]
  {
    LowBytes(hash, 16, 8);
    Widths();
  }

  lemma {:induction false} LowBytes(v: nat, k: nat, n: nat)
    requires n <= k
    ensures LE(v, k)[..n] == LE(v % Pow256(n), n)
    decreases n
  {
    if n > 0 {
      LowBytes(v / 256, k - 1, n - 1);
      Remainders(v, Pow256(n - 1));
      assert LE(v, k)[..n] == [LE(v, k)[0]] + LE(v, k)[1..][..n - 1];
    }
  }

  lemma Remainders(v: nat, p: nat)
    requires p > 0
    ensures v % (256 * p) / 256 == v / 256 % p && v % (256 * p) % 256 == v % 256
  {
    var q, s, r := v / 256 / p, v / 256 % p, v % 256;
    assert v / 256 == q * p + s;
    assert v == q * (256 * p) + (256 * s + r);
    Unique(v, 256 * p, q, 256 * s + r);
    assert v % (256 * p) == 256 * s + r;
  }
}
