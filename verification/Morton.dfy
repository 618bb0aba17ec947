/**
 * Morton codes and the keys of the linear quadtree.  Words are natural numbers: no code of
 * coordinates that fit their depth overflows 64 bits.
 */
module MortonCodes {
  import opened Bits
  import Grid

  /** Bit 2i of the code is bit i of `x`, bit 2i + 1 is bit i of `y`. */
  function Interleave(x: nat, y: nat): nat
    decreases x + y
  {
    if x == 0 && y == 0 then 0 else x % 2 + 2 * (y % 2) + 4 * Interleave(x / 2, y / 2)
  }

  function EvenBits(code: nat): nat {
    if code == 0 then 0 else code % 2 + 2 * EvenBits(code / 4)
  }

  function OddBits(code: nat): nat {
    if code == 0 then 0 else code / 2 % 2 + 2 * OddBits(code / 4)
  }

  lemma Digits(a: nat, b: nat, r: nat)
    requires a < 2 && b < 2
    ensures var c := a + 2 * b + 4 * r; c / 4 == r && c % 2 == a && c / 2 % 2 == b
  {
  }

  lemma InterleaveUnfold(x: nat, y: nat)
    ensures Interleave(x, y) == x % 2 + 2 * (y % 2) + 4 * Interleave(x / 2, y / 2)
  {
  }

  /** The parts of a code: two bits and the code of the halves. */
  lemma InterleaveStep(x: nat, y: nat)
    ensures var c := Interleave(x, y);
      c / 4 == Interleave(x / 2, y / 2) && c % 2 == x % 2 && c / 2 % 2 == y % 2
      && c == x % 2 + 2 * (y % 2) + 4 * Interleave(x / 2, y / 2)
  {
    hide Interleave;
    InterleaveUnfold(x, y);
    Digits(x % 2, y % 2, Interleave(x / 2, y / 2));
  }

  lemma TwoDigits(a: nat, r: nat)
    requires a < 2
    ensures (a + 2 * r) % 2 == a && (a + 2 * r) / 2 == r
  {
  }

  lemma EvenUnfold(code: nat)
    ensures EvenBits(code) == code % 2 + 2 * EvenBits(code / 4)
  {
  }

  lemma OddUnfold(code: nat)
    ensures OddBits(code) == code / 2 % 2 + 2 * OddBits(code / 4)
  {
  }

  lemma BitsStep(code: nat)
    ensures EvenBits(code) % 2 == code % 2 && EvenBits(code) / 2 == EvenBits(code / 4)
    ensures OddBits(code) % 2 == code / 2 % 2 && OddBits(code) / 2 == OddBits(code / 4)
  {
    hide EvenBits, OddBits;
    EvenUnfold(code);
    OddUnfold(code);
    TwoDigits(code % 2, EvenBits(code / 4));
    TwoDigits(code / 2 % 2, OddBits(code / 4));
  }

  /** Decoding undoes encoding: the code determines the coordinates. */
  lemma {:induction false} DecodeEncode(x: nat, y: nat)
    ensures EvenBits(Interleave(x, y)) == x && OddBits(Interleave(x, y)) == y
    decreases x + y
  {
    if x + y > 0 {
      DecodeEncode(x / 2, y / 2);
      InterleaveStep(x, y);
      BitsStep(Interleave(x, y));
    }
  }

  lemma CodeOfZero()
    ensures Interleave(0, 0) == 0 && EvenBits(0) == 0 && OddBits(0) == 0
  {
  }

  lemma FourParts(code: nat)
    ensures code == code % 2 + 2 * (code / 2 % 2) + 4 * (code / 4)
  {
    var h := code / 2;
    assert code == 2 * h + code % 2;
    assert h == 2 * (h / 2) + h % 2;
    assert code == code / 4 * 4 + code % 4;
    Grid.OneQuotient(code / 4, code % 4, h / 2, 2 * (h % 2) + code % 2, 4);
  }

  /** Encoding undoes decoding: every word is a code. */
  lemma {:induction false} EncodeDecode(code: nat)
    ensures Interleave(EvenBits(code), OddBits(code)) == code
  {
    hide Interleave, EvenBits, OddBits;
    if code == 0 {
      CodeOfZero();
    } else {
      EncodeDecode(code / 4);
      BitsStep(code);
      InterleaveStep(EvenBits(code), OddBits(code));
      FourParts(code);
    }
  }

  lemma TwoSteps(m: nat)
    ensures Pow2(m + 2) == 4 * Pow2(m)
  {
    PowStep(m + 2);
    PowStep(m + 1);
  }

  lemma FourTimes(n: nat)
    requires n > 0
    ensures Pow2(2 * n) == 4 * Pow2(2 * (n - 1))
  {
    hide Pow2;
    var m := 2 * (n - 1);
    TwoSteps(m);
    assert m + 2 == 2 * n;
  }

  lemma PowFour(n: nat)
    requires n > 0
    ensures Pow2(2 * n) == 4 * Pow2(2 * (n - 1)) && Pow2(n) == 2 * Pow2(n - 1)
  {
    hide Pow2;
    FourTimes(n);
    PowStep(n);
  }

  lemma PowZero()
    ensures Pow2(0) == 1
  {
  }

  /** The coordinates fit `n` bits exactly when the code fits `2n`. */
  lemma {:induction false} InterleaveBound(x: nat, y: nat, n: nat)
    ensures x < Pow2(n) && y < Pow2(n) <==> Interleave(x, y) < Pow2(2 * n)
  {
    hide Interleave, Pow2;
    if n == 0 {
      PowZero();
      CodeOfZero();
      DecodeEncode(x, y);
    } else {
      InterleaveStep(x, y);
      InterleaveBound(x / 2, y / 2, n - 1);
      PowFour(n);
      var p := Pow2(n - 1);
      assert x < 2 * p <==> x / 2 < p;
      assert y < 2 * p <==> y / 2 < p;
    }
  }

  // ------------------------------------------------------------------------- loops

  /** The low `n` bits. */
  function Low(x: nat, n: nat): nat { x % Pow2(n) }

  lemma LowStep(x: nat, n: nat)
    ensures Low(x, n + 1) == Low(x, n) + Bit(x, n) * Pow2(n)
  {
    var p, q := Pow2(n), x / Pow2(n);
    assert x == q * p + x % p;
    assert q == 2 * (q / 2) + q % 2;
    assert x == (q / 2) * (2 * p) + (q % 2 * p + x % p) by {
      assert q * p == (2 * (q / 2)) * p + (q % 2) * p;
      assert (2 * (q / 2)) * p == (q / 2) * (2 * p);
    }
    Grid.OneQuotient(x / (2 * p), x % (2 * p), q / 2, q % 2 * p + x % p, 2 * p);
  }

  /** Prepending one more bit of each coordinate. */
  lemma {:induction false} InterleaveOn(x: nat, y: nat, a: nat, b: nat, n: nat)
    requires x < Pow2(n) && y < Pow2(n)
    ensures Interleave(x + a * Pow2(n), y + b * Pow2(n))
         == Interleave(x, y) + Interleave(a, b) * Pow2(2 * n)
  {
    hide Interleave, Pow2;
    if n == 0 {
      PowZero();
      CodeOfZero();
    } else {
      var p, q := Pow2(n - 1), Pow2(2 * (n - 1));
      PowFour(n);
      InterleaveOn(x / 2, y / 2, a, b, n - 1);
      OnHalves(x, y, a, b, p, q);
    }
  }

  lemma OnHalves(x: nat, y: nat, a: nat, b: nat, p: nat, q: nat)
    requires Interleave(x / 2 + a * p, y / 2 + b * p)
          == Interleave(x / 2, y / 2) + Interleave(a, b) * q
    ensures Interleave(x + a * (2 * p), y + b * (2 * p))
         == Interleave(x, y) + Interleave(a, b) * (4 * q)
  {
    hide Interleave;
    Doubled(a, p);
    Doubled(b, p);
    var c, d := a * p, b * p;
    HalvesOf(x, c);
    HalvesOf(y, d);
    InterleaveStep(x, y);
    InterleaveStep(x + 2 * c, y + 2 * d);
    Quadrupled(Interleave(a, b), q);
  }

  lemma HalvesOf(x: nat, c: nat)
    ensures (x + 2 * c) / 2 == x / 2 + c && (x + 2 * c) % 2 == x % 2
  {
  }

  lemma Quadrupled(b: nat, p: nat)
    ensures b * (4 * p) == 4 * (b * p)
  {
  }

  lemma OneBit(a: nat, b: nat)
    requires a < 2 && b < 2
    ensures Interleave(a, b) == a + 2 * b
  {
    assert Interleave(0, 0) == 0;
  }

  /** The loop of the encoders: 32 turns for coordinates, 16 for chunk indices. */
  method EncodeLoop(x: nat, y: nat, bits: nat) returns (out: nat)
    ensures out == Interleave(Low(x, bits), Low(y, bits))
  {
    hide Interleave, Low, Pow2, Or, Bit;
    out := 0;
    StartCode(x, y);
    for i := 0 to bits
      invariant out == Interleave(Low(x, i), Low(y, i))
    {
      EncodeTurn(x, y, i);
      out := Or(out, Bit(x, i) * Pow2(2 * i));
      out := Or(out, Bit(y, i) * Pow2(2 * i + 1));
    }
  }

  lemma StartCode(x: nat, y: nat)
    ensures Interleave(Low(x, 0), Low(y, 0)) == 0
  {
  }

  lemma EncodeTurn(x: nat, y: nat, i: nat)
    ensures var c := Interleave(Low(x, i), Low(y, i));
      Or(Or(c, Bit(x, i) * Pow2(2 * i)), Bit(y, i) * Pow2(2 * i + 1))
      == Interleave(Low(x, i + 1), Low(y, i + 1))
  {
    hide Interleave, Low, Pow2, Or, Bit;
    var c, a, b, p := Interleave(Low(x, i), Low(y, i)), Bit(x, i), Bit(y, i), Pow2(2 * i);
    LowBelow(x, i);
    LowBelow(y, i);
    InterleaveBound(Low(x, i), Low(y, i), i);
    OrAbove(c, 2 * i, a);
    BitBelow(x, i);
    BitBelow(y, i);
    PowStep(2 * i + 1);
    OrAbove(c + a * p, 2 * i + 1, b);
    LowStep(x, i);
    LowStep(y, i);
    InterleaveOn(Low(x, i), Low(y, i), a, b, i);
    OneBit(a, b);
    Spread(a, b, p);
  }

  lemma LowBelow(x: nat, i: nat)
    ensures Low(x, i) < Pow2(i)
  {
  }

  lemma BitBelow(x: nat, i: nat)
    ensures Bit(x, i) < 2
  {
  }

  lemma Spread(a: nat, b: nat, p: nat)
    requires a < 2 && b < 2
    ensures (a + 2 * b) * p == a * p + b * (2 * p) && a * p <= p
  {
  }

  /** For words no wider than the loop, the loop computes the code. */
  method Encode(x: nat, y: nat, bits: nat) returns (out: nat)
    requires x < Pow2(bits) && y < Pow2(bits)
    ensures out == Interleave(x, y) && out < Pow2(2 * bits)
  {
    hide Interleave, Pow2, Low;
    out := EncodeLoop(x, y, bits);
    LowAll(x, bits);
    LowAll(y, bits);
    InterleaveBound(x, y, bits);
  }

  /** The loop of the decoders. */
  method DecodeLoop(code: nat, bits: nat) returns (x: nat, y: nat)
    requires code < Pow2(2 * bits)
    ensures x == EvenBits(code) && y == OddBits(code)
    ensures Interleave(x, y) == code && x < Pow2(bits) && y < Pow2(bits)
  {
    hide EvenBits, OddBits, Pow2, Or, Bit, Interleave, Low;
    x, y := 0, 0;
    StartBits(EvenBits(code), OddBits(code));
    for i := 0 to bits
      invariant x == Low(EvenBits(code), i) && y == Low(OddBits(code), i)
    {
      DecodeTurn(code, i);
      x := Or(x, Bit(code, 2 * i) * Pow2(i));
      y := Or(y, Bit(code, 2 * i + 1) * Pow2(i));
    }
    EncodeDecode(code);
    InterleaveBound(EvenBits(code), OddBits(code), bits);
    LowAll(EvenBits(code), bits);
    LowAll(OddBits(code), bits);
  }

  lemma StartBits(x: nat, y: nat)
    ensures Low(x, 0) == 0 && Low(y, 0) == 0
  {
  }

  lemma LowAll(x: nat, bits: nat)
    requires x < Pow2(bits)
    ensures Low(x, bits) == x
  {
    hide Pow2;
    SmallMod(x, Pow2(bits));
  }

  lemma SmallMod(x: nat, p: nat)
    requires x < p
    ensures x % p == x
  {
  }

  lemma {:induction false} BitsOfCode(code: nat, i: nat)
    ensures Bit(code, 2 * i) == Bit(EvenBits(code), i)
    ensures Bit(code, 2 * i + 1) == Bit(OddBits(code), i)
  {
    hide EvenBits, OddBits, Pow2, Bit;
    BitsStep(code);
    if i == 0 {
      LastBit(code);
      LastBit(EvenBits(code));
      LastBit(OddBits(code));
      UpBit(code, 0);
      LastBit(code / 2);
    } else {
      BitsOfCode(code / 4, i - 1);
      UpBit(EvenBits(code), i - 1);
      UpBit(OddBits(code), i - 1);
      UpTwo(code, 2 * (i - 1));
      UpTwo(code, 2 * (i - 1) + 1);
    }
  }

  lemma LastBit(x: nat)
    ensures Bit(x, 0) == x % 2
  {
  }

  lemma UpBit(x: nat, i: nat)
    ensures Bit(x, i + 1) == Bit(x / 2, i)
  {
    Nested(x, 2, Pow2(i));
  }

  lemma UpTwo(x: nat, i: nat)
    ensures Bit(x, i + 2) == Bit(x / 4, i)
  {
    hide Bit;
    UpBit(x, i + 1);
    UpBit(x / 2, i);
    Nested(x, 2, 2);
  }

  /** Dividing twice is dividing by the product. */
  lemma Nested(x: nat, a: nat, b: nat)
    requires a > 0 && b > 0
    ensures a * b > 0 && x / (a * b) == x / a / b
  {
    Grid.Multiple(b, 0, a);
    Recompose(x, a, b, x / a, x % a, x / a / b, x / a % b);
    Quotient(x, a * b, x / a / b, x / a % b * a + x % a);
  }

  lemma Quotient(x: nat, n: nat, q: nat, r: nat)
    requires n > 0 && x == q * n + r && r < n
    ensures x / n == q
  {
    Grid.OneQuotient(x / n, x % n, q, r, n);
  }

  lemma Recompose(x: nat, a: nat, b: nat, q: nat, r: nat, s: nat, t: nat)
    requires x == q * a + r && r < a && q == s * b + t && t < b
    ensures x == s * (a * b) + (t * a + r) && t * a + r < a * b
  {
    assert q * a == (s * b) * a + t * a;
    assert (s * b) * a == s * (a * b);
    Grid.Multiple(b, t, a);
  }

  lemma DecodeTurn(code: nat, i: nat)
    ensures Or(Low(EvenBits(code), i), Bit(code, 2 * i) * Pow2(i)) == Low(EvenBits(code), i + 1)
    ensures Or(Low(OddBits(code), i), Bit(code, 2 * i + 1) * Pow2(i)) == Low(OddBits(code), i + 1)
  {
    hide EvenBits, OddBits, Pow2, Bit, Low, Or;
    var x, y := EvenBits(code), OddBits(code);
    BitsOfCode(code, i);
    LowBelow(x, i);
    LowBelow(y, i);
    OrAbove(Low(x, i), i, Bit(x, i));
    OrAbove(Low(y, i), i, Bit(y, i));
    LowStep(x, i);
    LowStep(y, i);
  }
}
