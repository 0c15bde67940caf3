/**
 * The two stores behind the distributed cache: the in-process one, and the one on a DynamoDB table, which rounds expiry
 * up to whole seconds and leaves elapsed items to the table's TTL sweep. Times are epoch milliseconds.
 */
module CacheStores {
  import opened Common

  /** Keys and values are opaque here; keys are only compared. */
  type Key = nat
  type Value = int

  /** Sliding windows are positive; the options refuse others. */
  type Span = x: int | x > 0 witness 1

  datatype EntryOptions = EntryOptions(
    absoluteExpiration: Option<int>, relativeToNow: Option<int>, slidingExpiration: Option<Span>)

  function AbsoluteOf(o: EntryOptions, now: int): Option<int> {
    if o.absoluteExpiration.Some? then o.absoluteExpiration
    else if o.relativeToNow.Some? then Some(now + o.relativeToNow.value)
    else None
  }

  /** The earlier of the end of the sliding window and the absolute expiration. */
  function NextExpiration(absolute: Option<int>, sliding: Option<Span>, now: int): Option<int> {
    if sliding.None? then absolute
    else if absolute.None? then Some(now + sliding.value)
    else Some(Min(now + sliding.value, absolute.value))
  }

  function CeilSeconds(ms: int): (s: int)
    ensures (s - 1) * 1000 < ms <= s * 1000
  {
    (ms + 999) / 1000
  }

  // ---------------------------------------------------------------- the memory store

  datatype Entry = Entry(value: Value, absolute: Option<int>, sliding: Option<Span>, expiresAt: Option<int>)
  type Entries = map<Key, Entry>

  function NewEntry(value: Value, o: EntryOptions, now: int): Entry {
    var absolute := AbsoluteOf(o, now);
    Entry(value, absolute, o.slidingExpiration, NextExpiration(absolute, o.slidingExpiration, now))
  }

  predicate Expired(e: Entry, now: int) { e.expiresAt.Some? && e.expiresAt.value <= now }

  function Answer(entries: Entries, key: Key, now: int): Option<Value> {
    if key in entries && !Expired(entries[key], now) then Some(entries[key].value) else None
  }

  /** The entries after an access: expired ones go, live ones slide. */
  function Touched(entries: Entries, key: Key, now: int): Entries {
    if key !in entries then entries
    else
      var e := entries[key];
      if Expired(e, now) then entries - {key}
      else entries[key := e.(expiresAt := NextExpiration(e.absolute, e.sliding, now))]
  }

  class MemoryDistributedCacheStore {
    var entries: Entries

    constructor ()
      ensures entries == map[]
    {
      entries := map[];
    }

    method Touch(key: Key, now: int) returns (value: Option<Value>)
      modifies this
      ensures value == Answer(old(entries), key, now)
      ensures entries == Touched(old(entries), key, now)
    {
      if key !in entries { return None; }
      var entry := entries[key];
      if entry.expiresAt.Some? && entry.expiresAt.value <= now {
        entries := entries - {key};
        return None;
      }
      entries := entries[key := entry.(expiresAt := NextExpiration(entry.absolute, entry.sliding, now))];
      value := Some(entry.value);
    }

    method Get(key: Key, now: int) returns (value: Option<Value>)
      modifies this
      ensures value == Answer(old(entries), key, now)
      ensures entries == Touched(old(entries), key, now)
    {
      value := Touch(key, now);
    }

    method Set(key: Key, value: Value, o: EntryOptions, now: int)
      modifies this
      ensures entries == old(entries)[key := NewEntry(value, o, now)]
    {
      var absolute := AbsoluteOf(o, now);
      var expiresAt := NextExpiration(absolute, o.slidingExpiration, now);
      entries := entries[key := Entry(value, absolute, o.slidingExpiration, expiresAt)];
    }

    method Remove(key: Key)
      modifies this
      ensures entries == old(entries) - {key}
    {
      entries := entries - {key};
    }

    /** Drops expired entries, so answers stay as they are. */
    method EvictExpired(now: int)
      modifies this
      ensures entries == map key | key in old(entries) && !Expired(old(entries)[key], now) :: old(entries)[key]
    {
      var rest := entries.Keys;
      while rest != {}
        invariant rest <= old(entries).Keys
        invariant entries.Keys <= old(entries).Keys
        invariant forall key :: key in entries ==> entries[key] == old(entries)[key]
        invariant forall key :: key in rest ==> key in entries
        invariant forall key :: key in old(entries) && key !in rest ==>
          (key in entries <==> !Expired(old(entries)[key], now))
        decreases rest
      {
        var key :| key in rest;
        if Expired(entries[key], now) { entries := entries - {key}; }
        rest := rest - {key};
      }
    }
  }

  /** Neither the sliding window since the last access nor the absolute expiration is over. */
  predicate InWindow(absolute: Option<int>, sliding: Option<int>, last: int, now: int) {
    (sliding.Some? ==> now < last + sliding.value) && (absolute.Some? ==> now < absolute.value)
  }

  /** An entry set at `times[0]` and accessed at the later times was in its window at each of the first `n` of them. */
  predicate Alive(absolute: Option<int>, sliding: Option<int>, times: seq<int>, n: nat)
    requires n < |times|
  {
    n == 0 || (Alive(absolute, sliding, times, n - 1) && InWindow(absolute, sliding, times[n - 1], times[n]))
  }

  function AfterAccesses(entries: Entries, key: Key, value: Value, o: EntryOptions, times: seq<int>, n: nat): Entries
    requires n < |times|
  {
    if n == 0 then entries[key := NewEntry(value, o, times[0])]
    else Touched(AfterAccesses(entries, key, value, o, times, n - 1), key, times[n])
  }

  lemma {:induction false} AccessesSlide(entries: Entries, key: Key, value: Value, o: EntryOptions, times: seq<int>,
      n: nat)
    requires n < |times|
    ensures var absolute, sliding := AbsoluteOf(o, times[0]), o.slidingExpiration;
      var after := AfterAccesses(entries, key, value, o, times, n);
      && (key in after <==> Alive(absolute, sliding, times, n))
      && (key in after ==> after[key] == Entry(value, absolute, sliding, NextExpiration(absolute, sliding, times[n])))
  {
    if n > 0 { AccessesSlide(entries, key, value, o, times, n - 1); }
  }

  /**
   * A value is answered at an access exactly if no sliding window has run out before it and its absolute expiration has
   * not come.
   */
  lemma AnsweredIffAlive(entries: Entries, key: Key, value: Value, o: EntryOptions, times: seq<int>, n: nat)
    requires 1 <= n < |times|
    ensures Answer(AfterAccesses(entries, key, value, o, times, n - 1), key, times[n])
      == if Alive(AbsoluteOf(o, times[0]), o.slidingExpiration, times, n) then Some(value) else None
  {
    AccessesSlide(entries, key, value, o, times, n - 1);
  }

  // ---------------------------------------------------------------- the DynamoDB store

  /** `ttl` in epoch seconds. */
  datatype Item = Item(value: Value, absolute: Option<int>, sliding: Option<Span>, ttl: Option<int>)
  type Items = map<Key, Item>

  function ToTtl(absolute: Option<int>, sliding: Option<Span>, now: int): Option<int> {
    var next := NextExpiration(absolute, sliding, now);
    if next.None? then None else Some(CeilSeconds(next.value))
  }

  function NewItem(value: Value, o: EntryOptions, now: int): Item {
    var absolute := AbsoluteOf(o, now);
    Item(value, absolute, o.slidingExpiration, ToTtl(absolute, o.slidingExpiration, now))
  }

  predicate Elapsed(item: Item, now: int) { item.ttl.Some? && item.ttl.value * 1000 <= now }

  function ItemAnswer(items: Items, key: Key, now: int): Option<Value> {
    if key in items && !Elapsed(items[key], now) then Some(items[key].value) else None
  }

  /** Whether a slide of what was read sends an update, and the TTL it sends. */
  predicate Writes(read: Item, later: int) {
    read.sliding.Some? && ToTtl(read.absolute, read.sliding, later) != read.ttl
  }

  /** The stored item after a slide of what was read, which may be another item by now. */
  function SlidOn(stored: Item, read: Item, later: int): Item {
    if Writes(read, later) then stored.(ttl := ToTtl(read.absolute, read.sliding, later)) else stored
  }

  function ItemsSlid(items: Items, key: Key, read: Item, later: int): Items {
    if key in items then items[key := SlidOn(items[key], read, later)] else items
  }

  /** The clock readings of a batch: one for each key. */
  type Readings = Key -> int

  /** What is stored after slides of all that was found, on top of what other clients have made of the items. */
  function ItemsAllSlid(stored: Items, found: Items, later: Readings): Items {
    map key | key in stored :: if key in found then SlidOn(stored[key], found[key], later(key)) else stored[key]
  }

  /** The live items of the keys. */
  function Found(items: Items, keys: seq<Key>, now: Readings): Items {
    map key | key in items && key in keys && !Elapsed(items[key], now(key)) :: items[key]
  }

  function Concat<T>(chunks: seq<seq<T>>): seq<T> {
    if chunks == [] then [] else Concat(chunks[..|chunks| - 1]) + chunks[|chunks| - 1]
  }

  /** Cuts a list into batches. */
  method Chunk<T>(items: seq<T>, size: nat) returns (result: seq<seq<T>>)
    requires size >= 1
    ensures Concat(result) == items
    ensures forall i :: 0 <= i < |result| ==> 1 <= |result[i]| <= size
  {
    result := [];
    var i := 0;
    while i < |items|
      invariant 0 <= i
      invariant Concat(result) == items[..Min(i, |items|)]
      invariant forall k :: 0 <= k < |result| ==> 1 <= |result[k]| <= size
      decreases |items| - i
    {
      var batch := items[i..Min(i + size, |items|)];
      assert (result + [batch])[..|result|] == result;
      assert items[..i] + batch == items[..Min(i + size, |items|)];
      result := result + [batch];
      i := i + size;
    }
    assert items[..|items|] == items;
  }

  const BATCH_GET_LIMIT := 100

  class DynamoDbDistributedCacheStore {
    var items: Items

    constructor ()
      ensures items == map[]
    {
      items := map[];
    }

    /** Conditional on an item still being there; if it is another one by now, only its TTL changes. */
    method Slide(key: Key, item: Item, now: int)
      modifies this
      ensures items == ItemsSlid(old(items), key, item, now)
    {
      assert key in items ==> items == items[key := items[key]];
      if item.sliding.None? { return; }
      var ttl := ToTtl(item.absolute, item.sliding, now);
      if ttl.None? || ttl == item.ttl { return; }
      if key in items { items := items[key := items[key].(ttl := ttl)]; }
    }

    /** Two requests: `meanwhile` is what other clients and the sweep do to the table between them. */
    method Get(key: Key, now: int, meanwhile: Items -> Items, later: int) returns (value: Option<Value>)
      modifies this
      ensures value == ItemAnswer(old(items), key, now)
      ensures items == if value.None? then old(items) else ItemsSlid(meanwhile(old(items)), key, old(items)[key], later)
    {
      if key !in items || Elapsed(items[key], now) { return None; }
      var item := items[key];
      items := meanwhile(items);
      Slide(key, item, later);
      value := Some(item.value);
    }

    method Set(key: Key, value: Value, o: EntryOptions, now: int)
      modifies this
      ensures items == old(items)[key := NewItem(value, o, now)]
    {
      items := items[key := NewItem(value, o, now)];
    }

    method Remove(key: Key)
      modifies this
      ensures items == old(items) - {key}
    {
      items := items - {key};
    }

    /**
     * Reads in batches, then slides what was found. The clock is read anew for every item, when it is checked and when
     * it slides, and other clients come between the reads and the slides.
     */
    method GetMany(keys: seq<Key>, now: Readings, meanwhile: Items -> Items, later: Readings)
      returns (values: seq<Option<Value>>)
      modifies this
      ensures |values| == |keys|
      ensures forall i :: 0 <= i < |keys| ==> values[i] == ItemAnswer(old(items), keys[i], now(keys[i]))
      ensures items == ItemsAllSlid(meanwhile(old(items)), Found(old(items), keys, now), later)
    {
      var found := ReadBatches(Unique(keys), now);
      forall key: Key ensures key in Unique(keys) <==> key in keys { UniqueMembers(keys, key); }
      items := meanwhile(items);
      SlideAll(found, later);
      values := seq(|keys|, i requires 0 <= i < |keys| => if keys[i] in found then Some(found[keys[i]].value)
        else None);
    }

    /** One request, on top of what was found for the keys `seen` so far. */
    method ReadBatch(ghost seen: seq<Key>, batch: seq<Key>, now: Readings, before: Items) returns (found: Items)
      requires before == Found(items, seen, now)
      ensures found == Found(items, seen + batch, now)
    {
      found := before;
      for k := 0 to |batch|
        invariant found == Found(items, seen + batch[..k], now)
      {
        if batch[k] in items && !Elapsed(items[batch[k]], now(batch[k])) {
          found := found[batch[k] := items[batch[k]]];
        }
      }
      assert batch[..|batch|] == batch;
    }

    method ReadBatches(keys: seq<Key>, now: Readings) returns (found: Items)
      ensures found == Found(items, keys, now)
    {
      var batches := Chunk(keys, BATCH_GET_LIMIT);
      found := map[];
      for b := 0 to |batches|
        invariant found == Found(items, Concat(batches[..b]), now)
      {
        assert batches[..b + 1][..b] == batches[..b];
        found := ReadBatch(Concat(batches[..b]), batches[b], now, found);
      }
      assert batches[..|batches|] == batches;
    }

    method SlideAll(found: Items, later: Readings)
      modifies this
      ensures items == ItemsAllSlid(old(items), found, later)
    {
      var rest := found.Keys;
      while rest != {}
        invariant rest <= found.Keys
        invariant items.Keys == old(items).Keys
        invariant forall key :: key in items ==>
          items[key] == if key in found && key !in rest then SlidOn(old(items)[key], found[key], later(key))
            else old(items)[key]
        decreases rest
      {
        var key :| key in rest;
        Slide(key, found[key], later(key));
        rest := rest - {key};
      }
    }
  }
}
