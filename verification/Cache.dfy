/** The reader object: the chunk read path with its bounded first-in first-out cache. */
module Cache {
  import opened Bytes
  import opened Records
  import opened Sorting
  import opened Reader
  import Directory

  /** Entries stay in insertion order; the oldest keys go first. */
  function Evicted(order: seq<Key>, capacity: nat): (kept: seq<Key>)
    ensures |kept| <= capacity && (|order| > capacity ==> |kept| == capacity)
    ensures |kept| <= |order| && kept == order[|order| - |kept|..]
  {
    if |order| <= capacity then order else Evicted(order[1..], capacity)
  }

  /** The queue lists each cached key once, and every cached value is what an uncached read gives. */
  ghost predicate Consistent(P: Primitives, view: MapView, img: seq<byte>, order: seq<Key>, entries: map<Key, seq<byte>>) {
    && NoRepeats(order)
    && (forall key :: key in order <==> key in entries)
    && forall key :: key in entries ==> ChunkPayload(P, view, img, key) == Ok(Some(entries[key]))
  }

  lemma Added(P: Primitives, view: MapView, img: seq<byte>, order: seq<Key>, entries: map<Key, seq<byte>>, key: Key, value: seq<byte>)
    requires Consistent(P, view, img, order, entries) && ChunkPayload(P, view, img, key) == Ok(Some(value))
    ensures Consistent(P, view, img, if key in entries then order else order + [key], entries[key := value])
  {
    hide ChunkPayload;
    if key !in entries {
      AppendNoRepeats(order, [key]);
    }
  }

  lemma OldestDropped(P: Primitives, view: MapView, img: seq<byte>, order: seq<Key>, entries: map<Key, seq<byte>>)
    requires order != [] && Consistent(P, view, img, order, entries)
    ensures Consistent(P, view, img, order[1..], entries - {order[0]})
  {
    hide ChunkPayload;
    assert order == [order[0]] + order[1..];
    forall k | 0 <= k < |order[1..]| ensures order[1..][k] != order[0] {
      assert order[k + 1] != order[0];
    }
  }

  class MapReader {
    const P: Primitives
    const view: MapView
    const img: seq<byte>
    const capacity: nat
    var entries: map<Key, seq<byte>>
    var order: seq<Key>

    ghost predicate Valid()
      reads this
    {
      |order| <= capacity && Consistent(P, view, img, order, entries)
    }

    constructor (P: Primitives, view: MapView, img: seq<byte>, capacity: nat)
      ensures Valid() && this.P == P && this.view == view && this.img == img && this.capacity == capacity
      ensures entries == map[] && order == []
    {
      this.P, this.view, this.img, this.capacity := P, view, img, capacity;
      entries, order := map[], [];
    }

    /** Drops everything cached. */
    method Clear()
      modifies this
      ensures Valid() && entries == map[] && order == []
    {
      entries, order := map[], [];
    }

    /** Stores a fresh payload and evicts from the front while over capacity. */
    method Insert(key: Key, value: seq<byte>)
      requires Valid() && ChunkPayload(P, view, img, key) == Ok(Some(value))
      modifies this
      ensures Valid()
      ensures order == if capacity == 0 then old(order)
                       else Evicted(if key in old(entries) then old(order) else old(order) + [key], capacity)
    {
      hide ChunkPayload, Consistent;
      if capacity == 0 { return; }
      Added(P, view, img, order, entries, key, value);
      if key !in entries {
        order := order + [key];
      }
      entries := entries[key := value];
      ghost var full := order;
      while |order| > capacity
        invariant Consistent(P, view, img, order, entries)
        invariant Evicted(order, capacity) == Evicted(full, capacity)
        decreases |order|
      {
        OldestDropped(P, view, img, order, entries);
        entries := entries - {order[0]};
        order := order[1..];
      }
    }

    /**
     * Reads a chunk, from the cache when it is there. The refusals come first and the entry is
     * stored only after a full read, so the answer is always the uncached one.
     */
    method Payload(key: Key) returns (r: Result<Option<seq<byte>>>)
      requires Valid()
      modifies this
      ensures Valid() && r == ChunkPayload(P, view, img, key)
    {
      if key.layer in view.stale { return Err(StaleDerived); }
      var found := Directory.Find(view.directory, key);
      if found.None? { return Ok(None); }
      var record := found.value;
      if record.Tombstone() { return Ok(None); }
      if !P.supported(record.codec) { return Err(UnsupportedCodec); }
      if key in entries { return Ok(Some(entries[key])); }
      var stored := ReadStored(P, img, record);
      if stored.Err? { return Err(stored.error); }
      var desc := DescOf(view.layers, key.layer);
      if desc.None? { return Err(LayerNotFound); }
      var payload := DecodeStored(P, view.header, desc.value, view.dict, key.level, record.codec, record.rawLen, stored.value);
      if payload.Err? { return Err(payload.error); }
      Insert(key, payload.value);
      return Ok(Some(payload.value));
    }
  }
}
