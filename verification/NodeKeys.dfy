/** The keys of the linear quadtree: a leading one bit above the Morton code of the cell. */
module NodeKeys {
  import opened Bits
  import opened MortonCodes
  import opened Bytes
  import Grid

  const MAX_DEPTH := 31

  function Capped(depth: nat): nat { if depth < MAX_DEPTH then depth else MAX_DEPTH }

  function NodeKey(x: nat, y: nat, depth: nat): nat {
    Or(Pow2(2 * Capped(depth)), Interleave(x, y))
  }

  /** The position of the leading one bit. */
  function Log2(key: nat): nat
    requires key > 0
  {
    if key == 1 then 0 else 1 + Log2(key / 2)
  }

  function KeyDepth(key: nat): nat { if key == 0 then 0 else Log2(key) / 2 }

  function KeyXY(key: nat): (nat, nat) {
    var depth := KeyDepth(key);
    if depth == 0 then (0, 0)
    else
      var code := key % Pow2(2 * depth);
      (EvenBits(code), OddBits(code))
  }

  function KeyParent(key: nat): Option<nat> {
    var depth := KeyDepth(key);
    if depth == 0 then None
    else
      var (x, y) := KeyXY(key);
      Some(NodeKey(x / 2, y / 2, depth - 1))
  }

  function KeyChild(key: nat, quadrant: nat): nat {
    var (x, y) := KeyXY(key);
    var q := quadrant % 4;
    NodeKey(2 * x + q % 2, 2 * y + q / 2, KeyDepth(key) + 1)
  }

  /** The cell exists at its depth. */
  predicate Fits(x: nat, y: nat, depth: nat) {
    depth <= MAX_DEPTH && x < Pow2(depth) && y < Pow2(depth)
  }

  lemma KeyValue(x: nat, y: nat, depth: nat)
    requires Fits(x, y, depth)
    ensures NodeKey(x, y, depth) == Pow2(2 * depth) + Interleave(x, y)
    ensures Interleave(x, y) < Pow2(2 * depth)
  {
    hide Or, Interleave, Pow2;
    InterleaveBound(x, y, depth);
    OrAbove(Interleave(x, y), 2 * depth, 1);
  }

  lemma {:induction false} Log2Of(key: nat, n: nat)
    requires Pow2(n) <= key < Pow2(n + 1)
    ensures Log2(key) == n
  {
    if n > 0 {
      Log2Of(key / 2, n - 1);
    }
  }

  lemma {:induction false} Log2Bounds(key: nat)
    requires key > 0
    ensures Pow2(Log2(key)) <= key < Pow2(Log2(key) + 1)
  {
    if key > 1 {
      Log2Bounds(key / 2);
    }
  }

  /** Depth and cell can be read back from a key. */
  lemma KeyRoundTrip(x: nat, y: nat, depth: nat)
    requires Fits(x, y, depth)
    ensures KeyDepth(NodeKey(x, y, depth)) == depth && KeyXY(NodeKey(x, y, depth)) == (x, y)
  {
    hide NodeKey, Interleave, EvenBits, OddBits, Pow2, Log2;
    var key, code, p := NodeKey(x, y, depth), Interleave(x, y), Pow2(2 * depth);
    KeyValue(x, y, depth);
    PowStep(2 * depth + 1);
    Log2Of(key, 2 * depth);
    Remainder(p, code);
    DecodeEncode(x, y);
    if depth == 0 {
      PowZero();
    }
  }

  lemma Remainder(p: nat, c: nat)
    requires c < p
    ensures (p + c) % p == c
  {
    Grid.OneQuotient((p + c) / p, (p + c) % p, 1, c, p);
  }

  /** No two cells, of the same depth or of different depths, share a key. */
  lemma KeysInjective(x: nat, y: nat, d: nat, x': nat, y': nat, d': nat)
    requires Fits(x, y, d) && Fits(x', y', d') && NodeKey(x, y, d) == NodeKey(x', y', d')
    ensures x == x' && y == y' && d == d'
  {
    hide NodeKey, KeyDepth, KeyXY;
    KeyRoundTrip(x, y, d);
    KeyRoundTrip(x', y', d');
  }

  /** A word is the key of a cell exactly when its leading one bit stands at an even place. */
  lemma KeyExactly(key: nat)
    requires 0 < key < Pow2(64)
    ensures Log2(key) % 2 == 0 <==>
              (Fits(KeyXY(key).0, KeyXY(key).1, KeyDepth(key))
               && NodeKey(KeyXY(key).0, KeyXY(key).1, KeyDepth(key)) == key)
  {
    hide NodeKey, Interleave, EvenBits, OddBits, Pow2, Log2;
    var d, x, y := KeyDepth(key), KeyXY(key).0, KeyXY(key).1;
    Log2Bounds(key);
    if Log2(key) % 2 == 0 {
      LeadingBelow(key);
      var p := Pow2(2 * d);
      PowStep(2 * d + 1);
      var code := key - p;
      Remainder(p, code);
      EncodeDecode(code);
      if d == 0 {
        PowZero();
        CodeOfZero();
      } else {
        assert (x, y) == (EvenBits(code), OddBits(code));
      }
      InterleaveBound(x, y, d);
      KeyValue(x, y, d);
    } else if Fits(x, y, d) && NodeKey(x, y, d) == key {
      KeyValue(x, y, d);
      PowStep(2 * d + 1);
      Log2Of(key, 2 * d);
    }
  }

  lemma LeadingBelow(key: nat)
    requires 0 < key < Pow2(64)
    ensures Log2(key) < 64
  {
    hide Pow2, Log2;
    Log2Bounds(key);
    if Log2(key) >= 64 {
      PowLess(64, Log2(key));
    }
  }

  /** The four children of a key are 4k, 4k + 1, 4k + 2 and 4k + 3. */
  lemma ChildKeys(x: nat, y: nat, depth: nat, quadrant: nat)
    requires Fits(x, y, depth) && depth < MAX_DEPTH
    ensures var key := NodeKey(x, y, depth);
      && KeyChild(key, quadrant) == 4 * key + quadrant % 4
      && Fits(2 * x + quadrant % 4 % 2, 2 * y + quadrant % 4 / 2, depth + 1)
  {
    hide NodeKey, Interleave, KeyDepth, KeyXY, Pow2;
    var q := quadrant % 4;
    var a, b := q % 2, q / 2;
    KeyRoundTrip(x, y, depth);
    PowStep(depth + 1);
    KeyValue(x, y, depth);
    KeyValue(2 * x + a, 2 * y + b, depth + 1);
    InterleaveStep(2 * x + a, 2 * y + b);
    TwoDigits(a, x);
    TwoDigits(b, y);
    PowFour(depth + 1);
  }

  /** The parent of a key is the key divided by four, the cell that holds the halves. */
  lemma ParentKey(x: nat, y: nat, depth: nat)
    requires Fits(x, y, depth) && depth > 0
    ensures KeyParent(NodeKey(x, y, depth)) == Some(NodeKey(x, y, depth) / 4)
    ensures NodeKey(x, y, depth) / 4 == NodeKey(x / 2, y / 2, depth - 1)
    ensures Fits(x / 2, y / 2, depth - 1)
  {
    hide NodeKey, Interleave, KeyDepth, KeyXY, Pow2;
    KeyRoundTrip(x, y, depth);
    PowStep(depth);
    KeyValue(x, y, depth);
    KeyValue(x / 2, y / 2, depth - 1);
    InterleaveStep(x, y);
    PowFour(depth);
  }

  /** Every key but the root's is a child of its parent. */
  lemma ChildOfParent(x: nat, y: nat, depth: nat)
    requires Fits(x, y, depth) && depth > 0
    ensures var key := NodeKey(x, y, depth);
      KeyParent(key).Some? && KeyChild(KeyParent(key).value, key % 4) == key
  {
    hide NodeKey, KeyDepth, KeyXY, KeyParent, KeyChild, Pow2;
    ParentKey(x, y, depth);
    ChildKeys(x / 2, y / 2, depth - 1, NodeKey(x, y, depth) % 4);
  }
}
