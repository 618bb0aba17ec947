/** The chunk directory: a sorted record vector behaving as a finite map from addresses. */
module Directory {
  import opened Bytes
  import opened Records
  import Sorting

  function RankOf(r: ChunkRecord): nat { Rank(r.key) }

  ghost predicate Ordered(d: seq<ChunkRecord>) { Sorting.Sorted(d, RankOf) }

  /** Strict order: no address occurs twice. */
  ghost predicate Strict(d: seq<ChunkRecord>) { Sorting.Strict(d, RankOf) }

  /** Plain linear lookup, the meaning of every search below. */
  function Find(d: seq<ChunkRecord>, key: Key): (r: Option<ChunkRecord>)
    ensures r.Some? ==> r.value in d && r.value.key == key
    ensures r.None? ==> forall k :: 0 <= k < |d| ==> d[k].key != key
  {
    if d == [] then None else if d[0].key == key then Some(d[0]) else Find(d[1..], key)
  }

  function Upsert(d: seq<ChunkRecord>, r: ChunkRecord): seq<ChunkRecord> {
    if d == [] || RankOf(r) < RankOf(d[0]) then [r] + d
    else if RankOf(r) == RankOf(d[0]) then [r] + d[1..]
    else [d[0]] + Upsert(d[1..], r)
  }

  function Remove(d: seq<ChunkRecord>, key: Key): seq<ChunkRecord> {
    if d == [] then [] else if d[0].key == key then d[1..] else [d[0]] + Remove(d[1..], key)
  }

  /** At a known position, upserting is an indexed write and inserting is a split. */
  lemma {:induction false} UpsertAt(d: seq<ChunkRecord>, r: ChunkRecord, i: nat)
    requires i <= |d|
    requires forall k :: 0 <= k < i ==> RankOf(d[k]) < RankOf(r)
    requires i < |d| ==> RankOf(r) <= RankOf(d[i])
    ensures Upsert(d, r) ==
        if i < |d| && d[i].key == r.key then d[i := r] else d[..i] + [r] + d[i..]
  {
    if i < |d| { RankIsLexicographic(r.key, d[i].key); }
    if i > 0 {
      UpsertAt(d[1..], r, i - 1);
      assert d == [d[0]] + d[1..];
    }
  }

  lemma {:induction false} FindAt(d: seq<ChunkRecord>, i: nat)
    requires i < |d| && Strict(d)
    ensures Find(d, d[i].key) == Some(d[i])
  {
    if i > 0 {
      assert RankOf(d[0]) < RankOf(d[i]);
      FindAt(d[1..], i - 1);
    }
  }

  lemma {:induction false} UpsertKeepsOrder(d: seq<ChunkRecord>, r: ChunkRecord)
    requires Strict(d)
    ensures Strict(Upsert(d, r))
    ensures forall x :: x in Upsert(d, r) ==> x == r || x in d
    ensures |d| <= |Upsert(d, r)| <= |d| + 1
  {
    if d != [] {
      if RankOf(r) == RankOf(d[0]) {
        assert forall k :: 0 < k < |d| ==> RankOf(d[0]) < RankOf(d[k]);
      } else if RankOf(r) > RankOf(d[0]) {
        UpsertKeepsOrder(d[1..], r);
        var t := Upsert(d[1..], r);
        assert Upsert(d, r) == [d[0]] + t;
        forall k | 0 <= k < |t| ensures RankOf(d[0]) < RankOf(t[k]) {
          assert t[k] in t;
        }
      }
    }
  }

  /** An upsert changes the answer for its own address and for no other. */
  lemma {:induction false} UpsertIsMapUpdate(d: seq<ChunkRecord>, r: ChunkRecord)
    requires Strict(d)
    ensures Strict(Upsert(d, r))
    ensures forall key :: Find(Upsert(d, r), key) == if key == r.key then Some(r) else Find(d, key)
    ensures forall x :: x in Upsert(d, r) ==> x == r || x in d
    ensures |d| <= |Upsert(d, r)| <= |d| + 1
  {
    UpsertKeepsOrder(d, r);
    UpsertFinds(d, r);
  }

  lemma {:induction false} UpsertFinds(d: seq<ChunkRecord>, r: ChunkRecord)
    requires Strict(d)
    ensures forall key :: Find(Upsert(d, r), key) == if key == r.key then Some(r) else Find(d, key)
  {
    if d != [] {
      RankIsLexicographic(r.key, d[0].key);
      var u := Upsert(d, r);
      if RankOf(r) < RankOf(d[0]) {
        assert u[1..] == d;
        forall k | 0 <= k < |d| ensures d[k].key != r.key {
          if k > 0 { assert RankOf(d[0]) < RankOf(d[k]); }
        }
      } else if RankOf(r) == RankOf(d[0]) {
        assert u[1..] == d[1..];
      } else {
        UpsertFinds(d[1..], r);
        assert u[1..] == Upsert(d[1..], r);
      }
    }
  }

  lemma {:induction false} RemoveKeepsOrder(d: seq<ChunkRecord>, key: Key)
    requires Strict(d)
    ensures Strict(Remove(d, key))
    ensures forall x :: x in Remove(d, key) ==> x in d
  {
    if d != [] && d[0].key != key {
      RemoveKeepsOrder(d[1..], key);
      var t := Remove(d[1..], key);
      assert Remove(d, key) == [d[0]] + t;
      forall k | 0 <= k < |t| ensures RankOf(d[0]) < RankOf(t[k]) {
        assert t[k] in t;
      }
    }
  }

  lemma {:induction false} RemoveIsMapRemoval(d: seq<ChunkRecord>, key: Key)
    requires Strict(d)
    ensures Strict(Remove(d, key))
    ensures forall k :: Find(Remove(d, key), k) == if k == key then None else Find(d, k)
  {
    RemoveKeepsOrder(d, key);
    if d != [] {
      if d[0].key == key {
        forall j | 0 <= j < |d[1..]| ensures d[1..][j].key != key {
          assert RankOf(d[0]) < RankOf(d[j + 1]);
        }
      } else {
        RemoveIsMapRemoval(d[1..], key);
        assert Remove(d, key)[1..] == Remove(d[1..], key);
      }
    }
  }

  datatype Change = Put(record: ChunkRecord) | Drop(key: Key)

  function Replay(changes: seq<Change>): seq<ChunkRecord> {
    if changes == [] then [] else
    var d := Replay(changes[..|changes| - 1]);
    match changes[|changes| - 1]
    case Put(record) => Upsert(d, record)
    case Drop(key) => Remove(d, key)
  }

  /** What a history says about an address: its last change decides. */
  function LastWord(changes: seq<Change>, key: Key): Option<ChunkRecord> {
    if changes == [] then None else
    match changes[|changes| - 1]
    case Put(record) => if record.key == key then Some(record) else LastWord(changes[..|changes| - 1], key)
    case Drop(k) => if k == key then None else LastWord(changes[..|changes| - 1], key)
  }

  /** Under any history of upserts and removals the vector stays strictly ordered and is that map. */
  lemma {:induction false} HistoryIsMap(changes: seq<Change>)
    ensures Strict(Replay(changes))
    ensures forall key :: Find(Replay(changes), key) == LastWord(changes, key)
  {
    if changes != [] {
      var before := changes[..|changes| - 1];
      HistoryIsMap(before);
      match changes[|changes| - 1]
      case Put(record) => UpsertIsMapUpdate(Replay(before), record);
      case Drop(key) => RemoveIsMapRemoval(Replay(before), key);
    }
  }

  function Selected(d: seq<ChunkRecord>, p: ChunkRecord -> bool): (s: seq<ChunkRecord>)
    ensures forall r :: r in s <==> r in d && p(r)
  {
    if d == [] then []
    else (if p(d[0]) then [d[0]] else []) + Selected(d[1..], p)
  }

  lemma HeadOfSlice(d: seq<ChunkRecord>, a: nat, b: nat)
    requires a <= b <= |d| && d != []
    ensures d[a..b] == (if a == 0 && b > 0 then [d[0]] else [])
                       + d[1..][if a > 0 then a - 1 else 0..if b > 0 then b - 1 else 0]
  {
  }

  lemma {:induction false} SelectedSlice(d: seq<ChunkRecord>, p: ChunkRecord -> bool, a: nat, b: nat)
    requires a <= b <= |d|
    requires forall k :: 0 <= k < |d| ==> (p(d[k]) <==> a <= k < b)
    ensures Selected(d, p) == d[a..b]
  {
    if d != [] {
      var a', b' := if a > 0 then a - 1 else 0, if b > 0 then b - 1 else 0;
      forall k | 0 <= k < |d[1..]| ensures p(d[1..][k]) <==> a' <= k < b' {
        assert d[1..][k] == d[k + 1];
      }
      SelectedSlice(d[1..], p, a', b');
      assert p(d[0]) <==> a == 0 && b > 0;
      HeadOfSlice(d, a, b);
    }
  }

  function OfLayerLevel(layer: LayerId, level: u8): ChunkRecord -> bool {
    (r: ChunkRecord) => r.key.layer == layer && r.key.level == level
  }

  /** One record with the address gives way to the new one. */
  ghost predicate Replaced(was: seq<ChunkRecord>, now: seq<ChunkRecord>, record: ChunkRecord) {
    exists i :: 0 <= i < |was| && was[i].key == record.key && now == was[i := record]
  }

  /** The address is new and its record goes in between the others. */
  ghost predicate Inserted(was: seq<ChunkRecord>, now: seq<ChunkRecord>, record: ChunkRecord) {
    && Find(was, record.key).None?
    && exists i :: 0 <= i <= |was| && now == was[..i] + [record] + was[i..]
  }

  /** One record goes out, the rest stays. */
  ghost predicate TakenOut(was: seq<ChunkRecord>, now: seq<ChunkRecord>, record: ChunkRecord) {
    exists i :: 0 <= i < |was| && was[i] == record && now == was[..i] + was[i + 1..]
  }

  lemma ReplaceKeeps(d: seq<ChunkRecord>, at: nat, record: ChunkRecord)
    requires at < |d| && d[at].key == record.key && Ordered(d)
    ensures Ordered(d[at := record]) && Replaced(d, d[at := record], record)
    ensures Strict(d) ==> Strict(d[at := record]) && d[at := record] == Upsert(d, record)
  {
    if Strict(d) {
      hide Upsert;
      assert forall k :: 0 <= k < at ==> RankOf(d[k]) < RankOf(d[at]);
      UpsertAt(d, record, at);
    }
  }

  lemma InsertKeepsOrder(d: seq<ChunkRecord>, at: nat, record: ChunkRecord)
    requires at <= |d| && Ordered(d)
    requires forall k :: 0 <= k < at ==> RankOf(d[k]) < RankOf(record)
    requires forall k :: at <= k < |d| ==> RankOf(record) < RankOf(d[k])
    ensures Ordered(d[..at] + [record] + d[at..])
  {
    hide RankOf;
    var now := d[..at] + [record] + d[at..];
    assert forall k :: 0 <= k < |now| ==> now[k] == if k < at then d[k] else if k == at then record else d[k - 1];
  }

  lemma InsertKeeps(d: seq<ChunkRecord>, at: nat, record: ChunkRecord)
    requires at <= |d| && Ordered(d) && Find(d, record.key).None?
    requires forall k :: 0 <= k < at ==> RankOf(d[k]) < RankOf(record)
    requires forall k :: at <= k < |d| ==> RankOf(record) < RankOf(d[k])
    ensures var now := d[..at] + [record] + d[at..];
      Ordered(now) && Inserted(d, now, record) && (Strict(d) ==> Strict(now) && now == Upsert(d, record))
  {
    InsertKeepsOrder(d, at, record);
    if Strict(d) {
      hide Upsert, Ordered, Strict;
      assert at < |d| ==> d[at] in d && d[at].key != record.key;
      UpsertAt(d, record, at);
      UpsertKeepsOrder(d, record);
    }
  }

  lemma CutKeepsOrder(d: seq<ChunkRecord>, at: nat)
    requires at < |d| && Ordered(d)
    ensures Ordered(d[..at] + d[at + 1..])
  {
  }

  /** Cutting out a position of a directory without repeats is removing its address. */
  lemma StrictCut(d: seq<ChunkRecord>, at: nat)
    requires at < |d| && Strict(d)
    ensures Strict(d[..at] + d[at + 1..])
    ensures Remove(d, d[at].key) == d[..at] + d[at + 1..] && Find(d, d[at].key) == Some(d[at])
  {
    FindAt(d, at);
    forall k | 0 <= k < at ensures d[k].key != d[at].key {
      assert RankOf(d[k]) < RankOf(d[at]);
    }
    RemoveAt(d, at, d[at].key);
  }

  lemma OrderedAround(d: seq<ChunkRecord>, mid: nat)
    requires Ordered(d) && mid < |d|
    ensures forall k :: 0 <= k <= mid ==> RankOf(d[k]) <= RankOf(d[mid])
    ensures forall k :: mid <= k < |d| ==> RankOf(d[mid]) <= RankOf(d[k])
  {
  }

  /**
   * The sorted vector. A file may repeat an address; searching then finds any of its records.
   * Without repeats every operation is the one of the finite map.
   */
  class ChunkDirectory {
    var records: seq<ChunkRecord>

    ghost predicate Valid() reads this { Ordered(records) }

    constructor ()
      ensures Valid() && records == []
    {
      records := [];
    }

    /** Sorts what it is given, repeats and all. */
    constructor OfRecords(given: seq<ChunkRecord>)
      ensures Valid() && multiset(records) == multiset(given)
    {
      Sorting.SortByCorrect(given, RankOf);
      records := Sorting.SortBy(given, RankOf);
    }

    /** First position whose rank is not below `bound`. */
    method PartitionPoint(bound: nat) returns (i: nat)
      requires Ordered(records)
      ensures i <= |records|
      ensures forall k :: 0 <= k < i ==> RankOf(records[k]) < bound
      ensures forall k :: i <= k < |records| ==> bound <= RankOf(records[k])
    {
      var lo, hi := 0, |records|;
      while lo < hi
        invariant 0 <= lo <= hi <= |records|
        invariant forall k :: 0 <= k < lo ==> RankOf(records[k]) < bound
        invariant forall k :: hi <= k < |records| ==> bound <= RankOf(records[k])
      {
        var mid := (lo + hi) / 2;
        if RankOf(records[mid]) < bound {
          forall k | 0 <= k <= mid ensures RankOf(records[k]) < bound {
            if k < mid { assert RankOf(records[k]) <= RankOf(records[mid]); }
          }
          lo := mid + 1;
        } else {
          forall k | mid <= k < |records| ensures bound <= RankOf(records[k]) {
            if mid < k { assert RankOf(records[mid]) <= RankOf(records[k]); }
          }
          hi := mid;
        }
      }
      i := lo;
    }

    /** The library's binary search: any position with the key, or the one where it would go. */
    method Search(key: Key) returns (found: bool, at: nat)
      requires Valid()
      ensures found ==> at < |records| && records[at].key == key
      ensures !found ==> at <= |records| && Find(records, key).None?
      ensures !found ==> forall k :: 0 <= k < at ==> RankOf(records[k]) < Rank(key)
      ensures !found ==> forall k :: at <= k < |records| ==> Rank(key) < RankOf(records[k])
    {
      hide Rank, Ordered;
      var lo, hi := 0, |records|;
      while lo < hi
        invariant 0 <= lo <= hi <= |records|
        invariant forall k :: 0 <= k < lo ==> RankOf(records[k]) < Rank(key)
        invariant forall k :: hi <= k < |records| ==> Rank(key) < RankOf(records[k])
      {
        var mid := (lo + hi) / 2;
        RankIsLexicographic(records[mid].key, key);
        OrderedAround(records, mid);
        if RankOf(records[mid]) == Rank(key) {
          return true, mid;
        } else if RankOf(records[mid]) < Rank(key) {
          lo := mid + 1;
        } else {
          hi := mid;
        }
      }
      assert forall k :: 0 <= k < |records| ==> RankOf(records[k]) != Rank(key);
      return false, lo;
    }

    method Lookup(key: Key) returns (r: Option<ChunkRecord>)
      requires Valid()
      ensures r.Some? <==> Find(records, key).Some?
      ensures r.Some? ==> r.value in records && r.value.key == key
      ensures Strict(records) ==> r == Find(records, key)
    {
      var found, at := Search(key);
      if found {
        if Strict(records) { FindAt(records, at); }
        r := Some(records[at]);
      } else {
        r := None;
      }
    }

    method Store(record: ChunkRecord)
      requires Valid()
      modifies this
      ensures Valid()
      ensures Replaced(old(records), records, record) || Inserted(old(records), records, record)
      ensures Strict(old(records)) ==> Strict(records) && records == Upsert(old(records), record)
    {
      var found, at := Search(record.key);
      if found {
        ReplaceKeeps(records, at, record);
        records := records[at := record];
      } else {
        InsertKeeps(records, at, record);
        records := records[..at] + [record] + records[at..];
      }
    }

    method Delete(key: Key) returns (r: Option<ChunkRecord>)
      requires Valid()
      modifies this
      ensures Valid()
      ensures r.None? ==> records == old(records) && Find(records, key).None?
      ensures r.Some? ==> r.value.key == key && TakenOut(old(records), records, r.value)
      ensures Strict(old(records)) ==>
          Strict(records) && records == Remove(old(records), key) && r == Find(old(records), key)
    {
      ghost var was := records;
      var found, at := Search(key);
      if found {
        r := Some(records[at]);
        records := records[..at] + records[at + 1..];
        CutKeepsOrder(was, at);
        if Strict(was) { StrictCut(was, at); }
      } else {
        r := None;
        RemoveAbsent(was, key);
      }
    }

    /** The contiguous slice between two partition points is the filter by layer and level. */
    method ForLayerLevel(layer: LayerId, level: u8) returns (s: seq<ChunkRecord>)
      requires Ordered(records)
      ensures s == Selected(records, OfLayerLevel(layer, level))
    {
      var prefix := Rank(Key(layer, level, 0));
      var start := PartitionPoint(prefix);
      var end := PartitionPoint(prefix + 0x1_0000_0000);
      ghost var atEnd := if end < |records| then RankOf(records[end]) else 0;
      assert start <= end;
      s := records[start..end];
      SelectedSlice(records, OfLayerLevel(layer, level), start, end);
    }
  }

  lemma {:induction false} RemoveAt(d: seq<ChunkRecord>, i: nat, key: Key)
    requires i < |d| && d[i].key == key
    requires forall k :: 0 <= k < i ==> d[k].key != key
    ensures Remove(d, key) == d[..i] + d[i + 1..]
  {
    if i > 0 {
      var t := d[1..];
      RemoveAt(t, i - 1, key);
      assert [d[0]] + t[..i - 1] == d[..i];
      assert t[i..] == d[i + 1..];
    }
  }

  lemma {:induction false} RemoveAbsent(d: seq<ChunkRecord>, key: Key)
    requires forall k :: 0 <= k < |d| ==> d[k].key != key
    ensures Remove(d, key) == d
  {
    if d != [] { RemoveAbsent(d[1..], key); }
  }
}
