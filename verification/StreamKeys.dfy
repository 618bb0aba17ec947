/**
 * The mixing of a stream key into the seed of a generator.  Words are numbers below 2^64, and
 * sums and products are taken modulo 2^64.  Every step can be undone, so no two keys that differ
 * in one component only share a seed.
 */
module StreamKeys {
  import opened Bits
  import opened Bytes
  import Grid
  import MortonCodes

  const WORDS := 0x1_0000_0000_0000_0000
  const KEY_GOLDEN: u64 := 0x9E37_79B9_7F4A_7C15

  lemma Eight()
    ensures Pow2(8) == 256
  {
  }

  lemma WordsIsPower()
    ensures Pow2(64) == WORDS
  {
    hide Pow2;
    Eight();
    PowSum(8, 8);
    PowSum(16, 16);
    PowSum(32, 32);
  }

  // ---------------------------------------------------------------------- the steps

  function Plus(a: u64, b: u64): u64 { (a + b) % WORDS }

  function Times(a: u64, b: u64): u64 { a * b % WORDS }

  /** Multiplying by a number that gives one with `inverse` is undone by `inverse`. */
  lemma TimesUndone(a: u64, factor: u64, inverse: u64, k: nat)
    requires factor * inverse == k * WORDS + 1
    ensures Times(Times(a, factor), inverse) == a
  {
    var q, r := a * factor / WORDS, a * factor % WORDS;
    assert a * factor == q * WORDS + r;
    Regroup(a, factor, inverse, k, q, r);
    var s, t := r * inverse / WORDS, r * inverse % WORDS;
    assert r * inverse == s * WORDS + t;
    assert (s + q * inverse) * WORDS + t == (a * k) * WORDS + a by {
      assert (s + q * inverse) * WORDS == s * WORDS + q * inverse * WORDS;
    }
    Grid.OneQuotient(s + q * inverse, t, a * k, a, WORDS);
  }

  lemma Regroup(a: nat, factor: nat, inverse: nat, k: nat, q: nat, r: nat)
    requires a * factor == q * WORDS + r && factor * inverse == k * WORDS + 1
    ensures q * inverse * WORDS + r * inverse == a * k * WORDS + a
  {
    assert a * factor * inverse == (q * WORDS + r) * inverse == q * WORDS * inverse + r * inverse;
    assert a * factor * inverse == a * (factor * inverse) == a * (k * WORDS + 1);
    assert a * (k * WORDS + 1) == a * k * WORDS + a;
    assert q * WORDS * inverse == q * inverse * WORDS;
  }

  lemma {:induction false} UnshiftShift(z: nat, shift: nat)
    requires shift > 0
    ensures Unshift(XorShift(z, shift), shift) == z
  {
    hide Xor, Pow2;
    if z == 0 {
      ShiftZero(shift);
    } else {
      UnshiftShift(z / 2, shift);
      ShiftStep(z, shift);
      UnshiftStep(XorShift(z, shift), shift);
    }
  }

  lemma ShiftZero(shift: nat)
    requires shift > 0
    ensures XorShift(0, shift) == 0 && Unshift(0, shift) == 0
  {
    assert Shr(0, shift) == 0;
  }

  /** The last bit of the fold, and the fold of the rest. */
  lemma ShiftStep(z: nat, shift: nat)
    requires shift > 0
    ensures XorShift(z, shift) / 2 == XorShift(z / 2, shift)
    ensures XorShift(z, shift) % 2 == XorBit(z, Shr(z / 2, shift - 1))
  {
    hide Xor, Pow2;
    XorStep(z, Shr(z, shift));
    PowStep(shift);
    MortonCodes.Nested(z, 2, Pow2(shift - 1));
    MortonCodes.Nested(z, Pow2(shift), 2);
    MortonCodes.Nested(z, 2, Pow2(shift));
    assert Pow2(shift) * 2 == 2 * Pow2(shift);
  }

  lemma UnshiftStep(y: nat, shift: nat)
    requires shift > 0
    ensures var rest := Unshift(y / 2, shift);
      Unshift(y, shift) == 2 * rest + XorBit(y, Shr(rest, shift - 1))
  {
    if y == 0 {
      assert Shr(0, shift - 1) == 0;
    }
  }

  lemma {:induction false} ShiftUnshift(y: nat, shift: nat)
    requires shift > 0
    ensures XorShift(Unshift(y, shift), shift) == y
  {
    hide XorShift, Unshift, Shr;
    if y == 0 {
      ShiftZero(shift);
    } else {
      var rest, z := Unshift(y / 2, shift), Unshift(y, shift);
      ShiftUnshift(y / 2, shift);
      UnshiftStep(y, shift);
      LastAndRest(XorBit(y, Shr(rest, shift - 1)), rest);
      ShiftStep(z, shift);
    }
  }

  lemma ShiftBelow(z: u64, shift: nat)
    ensures XorShift(z, shift) < WORDS
  {
    hide Xor, Pow2;
    WordsIsPower();
    ShrLess(z, shift);
    XorBelow(z, Shr(z, shift), 64);
  }

  lemma ShrLess(z: nat, shift: nat)
    ensures Shr(z, shift) <= z
  {
    hide Pow2;
    var p, q := Pow2(shift), z / Pow2(shift);
    assert z == q * p + z % p;
    assert q * p >= q by { assert q * p == q + q * (p - 1); }
  }

  lemma {:induction false} UnshiftBelow(y: nat, shift: nat, n: nat)
    requires shift > 0 && y < Pow2(n)
    ensures Unshift(y, shift) < Pow2(n)
  {
    hide Unshift, Shr;
    if y == 0 {
      ShiftZero(shift);
    } else {
      UnshiftBelow(y / 2, shift, n - 1);
      UnshiftStep(y, shift);
    }
  }

  function Folded(z: u64, shift: nat): u64 {
    ShiftBelow(z, shift);
    XorShift(z, shift)
  }

  function Unfolded(y: u64, shift: nat): u64
    requires shift > 0
  {
    WordsIsPower();
    UnshiftBelow(y, shift, 64);
    Unshift(y, shift)
  }

  lemma FoldUndone(z: u64, shift: nat)
    requires shift > 0
    ensures Unfolded(Folded(z, shift), shift) == z && Folded(Unfolded(z, shift), shift) == z
  {
    UnshiftShift(z, shift);
    ShiftUnshift(z, shift);
  }

  // ----------------------------------------------------------------------- finaliser

  const GAMMA: u64 := 0x9E37_79B9_7F4A_7C15
  const FIRST: u64 := 0xBF58_476D_1CE4_E5B9
  const SECOND: u64 := 0x94D0_49BB_1331_11EB

  /** The inverses of the odd multipliers modulo 2^64. */
  const FIRST_INVERSE: u64 := 0x96de_1b17_3f11_9089
  const SECOND_INVERSE: u64 := 0x3196_42b2_d24d_8ec3
  const GOLDEN_INVERSE: u64 := 0xf1de_83e1_9937_733d

  lemma FirstUndone(z: u64)
    ensures Times(Times(z, FIRST), FIRST_INVERSE) == z
    ensures Times(Times(z, FIRST_INVERSE), FIRST) == z
  {
    var k := FIRST * FIRST_INVERSE / WORDS;
    assert FIRST * FIRST_INVERSE == k * WORDS + 1;
    TimesUndone(z, FIRST, FIRST_INVERSE, k);
    TimesUndone(z, FIRST_INVERSE, FIRST, k);
  }

  lemma SecondUndone(z: u64)
    ensures Times(Times(z, SECOND), SECOND_INVERSE) == z
    ensures Times(Times(z, SECOND_INVERSE), SECOND) == z
  {
    var k := SECOND * SECOND_INVERSE / WORDS;
    assert SECOND * SECOND_INVERSE == k * WORDS + 1;
    TimesUndone(z, SECOND, SECOND_INVERSE, k);
    TimesUndone(z, SECOND_INVERSE, SECOND, k);
  }

  lemma GoldenUndone(z: u64)
    ensures Times(Times(z, KEY_GOLDEN), GOLDEN_INVERSE) == z
  {
    var k := KEY_GOLDEN * GOLDEN_INVERSE / WORDS;
    assert KEY_GOLDEN * GOLDEN_INVERSE == k * WORDS + 1;
    TimesUndone(z, KEY_GOLDEN, GOLDEN_INVERSE, k);
  }

  /** The SplitMix64 finaliser. */
  function Mix64(value: u64): u64 {
    var a := Plus(value, GAMMA);
    var b := Times(Folded(a, 30), FIRST);
    var c := Times(Folded(b, 27), SECOND);
    Folded(c, 31)
  }

  function Unmix64(mixed: u64): u64 {
    var c := Unfolded(mixed, 31);
    var b := Unfolded(Times(c, SECOND_INVERSE), 27);
    var a := Unfolded(Times(b, FIRST_INVERSE), 30);
    Plus(a, WORDS - GAMMA)
  }

  /** The finaliser is a bijection on 64-bit words: mixing can be undone from either side. */
  lemma MixIsBijection(value: u64)
    ensures Unmix64(Mix64(value)) == value && Mix64(Unmix64(value)) == value
  {
    hide Times, Folded, Unfolded;
    var a := Plus(value, GAMMA);
    var b := Times(Folded(a, 30), FIRST);
    var c := Times(Folded(b, 27), SECOND);
    FoldUndone(a, 30);
    FirstUndone(Folded(a, 30));
    FoldUndone(b, 27);
    SecondUndone(Folded(b, 27));
    FoldUndone(c, 31);
    var d := Unfolded(value, 31);
    var e := Unfolded(Times(d, SECOND_INVERSE), 27);
    FoldUndone(value, 31);
    SecondUndone(d);
    FoldUndone(Times(d, SECOND_INVERSE), 27);
    FirstUndone(e);
    FoldUndone(Times(e, FIRST_INVERSE), 30);
  }

  lemma MixInjective(a: u64, b: u64)
    requires Mix64(a) == Mix64(b)
    ensures a == b
  {
    hide Mix64, Unmix64;
    MixIsBijection(a);
    MixIsBijection(b);
  }

  // ---------------------------------------------------------------------- stream keys

  /** What a stream is derived from; the purpose is a tag between 1 and 15. */
  datatype StreamKey = StreamKey(seed: u64, purpose: u32, individual: u32, channel: u32)

  function WordXor(a: u64, b: u64): u64 {
    WordsIsPower();
    XorBelow(a, b, 64);
    Xor(a, b)
  }

  function Fold(mixed: u64, part: u64): u64 { Mix64(WordXor(mixed, Times(part, KEY_GOLDEN))) }

  /** `Rng::stream`: the seed of the generator, one component of the key folded in after the
      other. */
  function StreamSeed(key: StreamKey): u64 {
    Fold(Fold(Fold(Mix64(key.seed), key.purpose), key.individual), key.channel)
  }

  lemma XorCancels(a: u64, b: u64, c: u64)
    requires WordXor(a, c) == WordXor(b, c)
    ensures a == b
  {
    hide Xor;
    XorTwice(a, c);
    XorTwice(b, c);
  }

  lemma {:induction false} XorSwaps(a: nat, b: nat)
    ensures Xor(a, b) == Xor(b, a)
    decreases a + b
  {
    if a + b > 0 {
      XorSwaps(a / 2, b / 2);
    }
  }

  /** Folding keeps different words apart, and different components. */
  lemma FoldInjective(m: u64, n: u64, a: u64, b: u64)
    requires Fold(m, a) == Fold(n, b)
    ensures a == b ==> m == n
    ensures m == n ==> a == b
  {
    hide Mix64, Times, Xor;
    var ta, tb := Times(a, KEY_GOLDEN), Times(b, KEY_GOLDEN);
    MixInjective(WordXor(m, ta), WordXor(n, tb));
    if a == b {
      XorCancels(m, n, ta);
    }
    if m == n {
      XorSwaps(m, ta);
      XorSwaps(m, tb);
      XorCancels(ta, tb, m);
      GoldenUndone(a);
      GoldenUndone(b);
    }
  }

  /** How many components two keys differ in. */
  function Differences(a: StreamKey, b: StreamKey): nat {
    (if a.seed == b.seed then 0 else 1) + (if a.purpose == b.purpose then 0 else 1)
    + (if a.individual == b.individual then 0 else 1) + (if a.channel == b.channel then 0 else 1)
  }

  /** Keys that differ in exactly one component never give the same generator seed. */
  lemma NeighboursDiffer(a: StreamKey, b: StreamKey)
    requires Differences(a, b) == 1
    ensures StreamSeed(a) != StreamSeed(b)
  {
    hide Mix64, Fold;
    if StreamSeed(a) == StreamSeed(b) {
      var p, q := Fold(Mix64(a.seed), a.purpose), Fold(Mix64(b.seed), b.purpose);
      var r, s := Fold(p, a.individual), Fold(q, b.individual);
      FoldInjective(r, s, a.channel, b.channel);
      if a.channel == b.channel {
        FoldInjective(p, q, a.individual, b.individual);
        if a.individual == b.individual {
          FoldInjective(Mix64(a.seed), Mix64(b.seed), a.purpose, b.purpose);
          if a.purpose == b.purpose {
            MixInjective(a.seed, b.seed);
          }
        }
      }
    }
  }

  /** Whatever the other three components are, any seed at all can come out. */
  lemma EverySeedReached(target: u64, purpose: u32, individual: u32, channel: u32)
    returns (seed: u64)
    ensures StreamSeed(StreamKey(seed, purpose, individual, channel)) == target
  {
    hide Mix64, Unmix64, Fold, WordXor, Times;
    var r := WordXor(Unmix64(target), Times(channel, KEY_GOLDEN));
    var p := WordXor(Unmix64(r), Times(individual, KEY_GOLDEN));
    var m := WordXor(Unmix64(p), Times(purpose, KEY_GOLDEN));
    seed := Unmix64(m);
    Reached(target, channel);
    Reached(r, individual);
    Reached(p, purpose);
    MixIsBijection(m);
  }

  lemma Reached(target: u64, part: u64)
    ensures Fold(WordXor(Unmix64(target), Times(part, KEY_GOLDEN)), part) == target
  {
    hide Mix64, Unmix64, Times, Xor;
    XorTwice(Unmix64(target), Times(part, KEY_GOLDEN));
    MixIsBijection(target);
  }

  /** What was mixed before `part` was folded in. */
  function Unfold(seed: u64, part: u64): u64 { WordXor(Unmix64(seed), Times(part, KEY_GOLDEN)) }

  /** The parts come off a generator seed in the reverse order: channel, individual, purpose, and
      what is left is the mixed master seed. */
  lemma SeedRecovered(key: StreamKey)
    ensures Unmix64(Unfold(Unfold(Unfold(StreamSeed(key), key.channel), key.individual), key.purpose)) == key.seed
  {
    hide Mix64, Unmix64, Fold, Unfold;
    var m := Mix64(key.seed);
    var p := Fold(m, key.purpose);
    var r := Fold(p, key.individual);
    Unfolds(r, key.channel);
    Unfolds(p, key.individual);
    Unfolds(m, key.purpose);
    MixIsBijection(key.seed);
  }

  lemma Unfolds(mixed: u64, part: u64)
    ensures Unfold(Fold(mixed, part), part) == mixed
  {
    hide Mix64, Unmix64, Times, Xor;
    MixIsBijection(WordXor(mixed, Times(part, KEY_GOLDEN)));
    XorTwice(mixed, Times(part, KEY_GOLDEN));
  }
}
