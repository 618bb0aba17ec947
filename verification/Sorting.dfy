/**
 * Sorting by a numeric key. The code calls unstable library sorts; the lemmas show which
 * freedom of such a sort cannot be observed: when keys tell elements apart, every sorted
 * arrangement of the same elements is the same sequence.
 */
module Sorting {

  ghost predicate Sorted<T>(s: seq<T>, key: T -> nat) {
    forall i, j :: 0 <= i < j < |s| ==> key(s[i]) <= key(s[j])
  }

  ghost predicate Strict<T>(s: seq<T>, key: T -> nat) {
    forall i, j :: 0 <= i < j < |s| ==> key(s[i]) < key(s[j])
  }

  /** The key tells the members of `s` apart. */
  ghost predicate Tells<T>(s: seq<T>, key: T -> nat) {
    forall x, y :: x in s && y in s && key(x) == key(y) ==> x == y
  }

  function Insert<T>(x: T, s: seq<T>, key: T -> nat): seq<T> {
    if s == [] || key(x) <= key(s[0]) then [x] + s else [s[0]] + Insert(x, s[1..], key)
  }

  function SortBy<T>(s: seq<T>, key: T -> nat): seq<T> {
    if s == [] then [] else Insert(s[0], SortBy(s[1..], key), key)
  }

  lemma Head<T>(s: seq<T>)
    requires s != []
    ensures multiset(s) == multiset{s[0]} + multiset(s[1..])
    ensures multiset(s[1..]) == multiset(s) - multiset{s[0]}
  {
    assert s == [s[0]] + s[1..];
  }

  lemma {:induction false} InsertKeeps<T>(x: T, s: seq<T>, key: T -> nat)
    ensures multiset(Insert(x, s, key)) == multiset{x} + multiset(s)
  {
    var t := Insert(x, s, key);
    Head(t);
    if s == [] || key(x) <= key(s[0]) {
      assert t[1..] == s;
    } else {
      InsertKeeps(x, s[1..], key);
      assert t[1..] == Insert(x, s[1..], key);
      Head(s);
    }
  }

  lemma {:induction false} InsertSorts<T>(x: T, s: seq<T>, key: T -> nat)
    requires Sorted(s, key)
    ensures Sorted(Insert(x, s, key), key)
  {
    if s == [] || key(x) <= key(s[0]) {
    } else {
      InsertSorts(x, s[1..], key);
      InsertKeeps(x, s[1..], key);
      var t := Insert(x, s[1..], key);
      forall k | 0 <= k < |t|
        ensures key(s[0]) <= key(t[k])
      {
        assert t[k] in multiset(t);
        assert t[k] == x || t[k] in s[1..];
      }
    }
  }

  lemma {:induction false} SortByCorrect<T>(s: seq<T>, key: T -> nat)
    ensures Sorted(SortBy(s, key), key)
    ensures multiset(SortBy(s, key)) == multiset(s)
    ensures |SortBy(s, key)| == |s|
  {
    if s != [] {
      SortByCorrect(s[1..], key);
      InsertSorts(s[0], SortBy(s[1..], key), key);
      InsertKeeps(s[0], SortBy(s[1..], key), key);
      Head(s);
    }
    assert |multiset(SortBy(s, key))| == |SortBy(s, key)| && |multiset(s)| == |s|;
  }

  lemma FirstAgree<T>(a: seq<T>, b: seq<T>, key: T -> nat)
    requires a != [] && b != []
    requires Sorted(a, key) && Sorted(b, key)
    requires multiset(a) == multiset(b)
    requires Tells(a, key)
    ensures a[0] == b[0]
  {
    assert a[0] in multiset(b) && b[0] in multiset(a);
    var i :| 0 <= i < |b| && b[i] == a[0];
    var j :| 0 <= j < |a| && a[j] == b[0];
    assert key(b[0]) <= key(b[i]) && key(a[0]) <= key(a[j]);
  }

  lemma TailsAgree<T>(a: seq<T>, b: seq<T>, key: T -> nat)
    requires a != [] && b != [] && a[0] == b[0]
    requires multiset(a) == multiset(b)
    requires Sorted(a, key) && Sorted(b, key) && Tells(a, key)
    ensures multiset(a[1..]) == multiset(b[1..])
    ensures Sorted(a[1..], key) && Sorted(b[1..], key) && Tells(a[1..], key)
  {
    Head(a);
    Head(b);
    forall x, y | x in a[1..] && y in a[1..] && key(x) == key(y)
      ensures x == y
    {
      assert x in a && y in a;
    }
  }

  /** Two sorted arrangements of the same elements agree when the key tells the elements apart. */
  lemma {:induction false} SortedUnique<T>(a: seq<T>, b: seq<T>, key: T -> nat)
    requires Sorted(a, key) && Sorted(b, key)
    requires multiset(a) == multiset(b)
    requires Tells(a, key)
    ensures a == b
    decreases |a|
  {
    assert |multiset(a)| == |a| && |multiset(b)| == |b|;
    if a != [] {
      FirstAgree(a, b, key);
      TailsAgree(a, b, key);
      SortedUnique(a[1..], b[1..], key);
      assert a == [a[0]] + a[1..] && b == [b[0]] + b[1..];
    }
  }

  /** A strictly sorted sequence is its own sort, whatever sort is used. */
  lemma SortOfStrict<T>(s: seq<T>, key: T -> nat)
    requires Strict(s, key)
    ensures SortBy(s, key) == s
  {
    SortByCorrect(s, key);
    forall x, y | x in s && y in s && key(x) == key(y)
      ensures x == y
    {
      var i :| 0 <= i < |s| && s[i] == x;
      var j :| 0 <= j < |s| && s[j] == y;
      if i < j { assert key(s[i]) < key(s[j]); } else if j < i { assert key(s[j]) < key(s[i]); }
    }
    assert forall x :: x in SortBy(s, key) ==> x in multiset(s);
    SortedUnique(s, SortBy(s, key), key);
  }

  /** Sorting forgets order: equal collections sort to equal sequences. */
  lemma SortForgetsOrder<T>(a: seq<T>, b: seq<T>, key: T -> nat)
    requires multiset(a) == multiset(b)
    requires Tells(a, key)
    ensures SortBy(a, key) == SortBy(b, key)
  {
    SortByCorrect(a, key);
    SortByCorrect(b, key);
    assert forall x :: x in SortBy(a, key) ==> x in multiset(a) && x in a;
    SortedUnique(SortBy(a, key), SortBy(b, key), key);
  }

  ghost predicate NoRepeats<T>(s: seq<T>) {
    forall i, j :: 0 <= i < j < |s| ==> s[i] != s[j]
  }

  /** Repeat-free sequences with the same members are the same collection. */
  lemma {:induction false} SameMembers<T>(a: seq<T>, b: seq<T>)
    requires NoRepeats(a) && NoRepeats(b)
    requires forall x :: x in a <==> x in b
    ensures multiset(a) == multiset(b)
  {
    forall x
      ensures multiset(a)[x] == multiset(b)[x]
    {
      CountNoRepeats(a, x);
      CountNoRepeats(b, x);
    }
  }

  lemma {:induction false} CountNoRepeats<T>(s: seq<T>, x: T)
    requires NoRepeats(s)
    ensures multiset(s)[x] == if x in s then 1 else 0
  {
    if s != [] {
      var n := |s| - 1;
      CountNoRepeats(s[..n], x);
      assert s == s[..n] + [s[n]];
      assert multiset(s) == multiset(s[..n]) + multiset{s[n]};
    }
  }

  /** Nothing repeats exactly when nothing occurs twice. */
  lemma {:induction false} RepeatsAreCounted(s: seq<nat>)
    ensures NoRepeats(s) <==> forall x :: multiset(s)[x] <= 1
  {
    if NoRepeats(s) {
      forall x ensures multiset(s)[x] <= 1 { CountNoRepeats(s, x); }
    } else {
      var i, j :| 0 <= i < j < |s| && s[i] == s[j];
      assert s == s[..j] + s[j..];
      assert s[i] in multiset(s[..j]) by { assert s[..j][i] == s[i]; }
      assert s[j] in multiset(s[j..]) by { assert s[j..][0] == s[j]; }
      assert multiset(s) == multiset(s[..j]) + multiset(s[j..]);
      assert multiset(s)[s[i]] >= 2;
    }
  }

  lemma AppendNoRepeats<T>(a: seq<T>, b: seq<T>)
    requires NoRepeats(a) && NoRepeats(b)
    requires forall x :: x in a ==> x !in b
    ensures NoRepeats(a + b)
  {
    var c := a + b;
    forall i, j | 0 <= i < j < |c| ensures c[i] != c[j] {
      if i < |a| <= j { assert c[i] in a && c[j] in b; }
    }
  }

  function MapSeq<T, U>(f: T -> U, s: seq<T>): (r: seq<U>)
    ensures |r| == |s|
    ensures forall k :: 0 <= k < |s| ==> r[k] == f(s[k])
  {
    if s == [] then [] else [f(s[0])] + MapSeq(f, s[1..])
  }

  lemma MapCons<T, U>(f: T -> U, x: T, s: seq<T>)
    ensures multiset(MapSeq(f, [x] + s)) == multiset{f(x)} + multiset(MapSeq(f, s))
  {
    assert ([x] + s)[1..] == s;
  }

  lemma {:induction false} MapInsert<T, U>(f: T -> U, x: T, s: seq<T>, key: T -> nat)
    ensures multiset(MapSeq(f, Insert(x, s, key))) == multiset{f(x)} + multiset(MapSeq(f, s))
  {
    hide MapSeq;
    if s == [] || key(x) <= key(s[0]) {
      MapCons(f, x, s);
    } else {
      MapInsert(f, x, s[1..], key);
      MapCons(f, s[0], Insert(x, s[1..], key));
      MapCons(f, s[0], s[1..]);
      assert s == [s[0]] + s[1..];
    }
  }

  lemma {:induction false} MapSorted<T, U>(f: T -> U, s: seq<T>, key: T -> nat)
    ensures multiset(MapSeq(f, SortBy(s, key))) == multiset(MapSeq(f, s))
  {
    if s != [] {
      MapSorted(f, s[1..], key);
      MapInsert(f, s[0], SortBy(s[1..], key), key);
      Head(MapSeq(f, s));
    }
  }

  /** Mapping a permuted sequence permutes the image. */
  lemma PermutedMap<T, U>(f: T -> U, a: seq<T>, b: seq<T>, key: T -> nat)
    requires multiset(a) == multiset(b)
    requires Tells(a, key)
    ensures multiset(MapSeq(f, a)) == multiset(MapSeq(f, b))
  {
    SortForgetsOrder(a, b, key);
    MapSorted(f, a, key);
    MapSorted(f, b, key);
  }
}
