/**
 * The typed cache on top of a store: changes made within a unit of work are kept pending and reach the store only when
 * it completes. The store is fault-free and nothing expires; keys are compared by their text.
 */
module DistributedCache {
  import opened Common

  type Key = nat
  type Value = int
  type Entries = map<Key, Value>

  datatype Pair = Pair(key: Key, value: Value)

  datatype CacheOp =
    | Set(key: Key, value: Value)
    | SetMany(items: seq<Pair>)
    | Remove(key: Key)
    | RemoveMany(keys: seq<Key>)

  // ---------------------------------------------------------------- the meaning of operations

  function WithAll(entries: Entries, items: seq<Pair>): Entries {
    if items == [] then entries
    else var n := |items| - 1; WithAll(entries, items[..n])[items[n].key := items[n].value]
  }

  function Without(entries: Entries, keys: seq<Key>): Entries {
    map k | k in entries && k !in keys :: entries[k]
  }

  /** The store after an operation. */
  function Applied(entries: Entries, op: CacheOp): Entries {
    match op
    case Set(key, value) => entries[key := value]
    case SetMany(items) => WithAll(entries, items)
    case Remove(key) => entries - {key}
    case RemoveMany(keys) => Without(entries, keys)
  }

  function AppliedAll(entries: Entries, ops: seq<CacheOp>): Entries {
    if ops == [] then entries else Applied(AppliedAll(entries, ops[..|ops| - 1]), ops[|ops| - 1])
  }

  /** A change not yet applied; a removed item has no value. */
  datatype PendingItem = PendingItem(value: Option<Value>, isRemoved: bool)
  type Pending = map<Key, PendingItem>

  const REMOVED := PendingItem(None, true)

  function PendingSet(pending: Pending, items: seq<Pair>): Pending {
    if items == [] then pending
    else var n := |items| - 1; PendingSet(pending, items[..n])[items[n].key := PendingItem(Some(items[n].value), false)]
  }

  /** Only items already pending are marked; a removal of anything else leaves no trace here. */
  function PendingRemoved(pending: Pending, keys: seq<Key>): Pending {
    map k | k in pending :: if k in keys then REMOVED else pending[k]
  }

  function PendingAfter(pending: Pending, op: CacheOp): Pending {
    match op
    case Set(key, value) => PendingSet(pending, [Pair(key, value)])
    case SetMany(items) => PendingSet(pending, items)
    case Remove(key) => PendingRemoved(pending, [key])
    case RemoveMany(keys) => PendingRemoved(pending, keys)
  }

  function Sets(items: seq<Pair>): seq<CacheOp> {
    if items == [] then [] else Sets(items[..|items| - 1]) + [Set(items[|items| - 1].key, items[|items| - 1].value)]
  }

  function Removes(keys: seq<Key>): seq<CacheOp> {
    if keys == [] then [] else Removes(keys[..|keys| - 1]) + [Remove(keys[|keys| - 1])]
  }

  /** What is registered for completion. A store without batch operations gets one operation per item. */
  function Handlers(op: CacheOp, batches: bool): seq<CacheOp> {
    if op.SetMany? && !batches then Sets(op.items)
    else if op.RemoveMany? && !batches then Removes(op.keys)
    else [op]
  }

  function UnRemovedValue(pending: Pending, key: Key): Option<Value> {
    if key in pending && !pending[key].isRemoved then pending[key].value else None
  }

  datatype Uow = Uow(pending: Pending, handlers: seq<CacheOp>)

  datatype CacheState = CacheState(entries: Entries, uow: Option<Uow>)

  function AfterOp(s: CacheState, op: CacheOp, considerUow: bool, batches: bool): CacheState {
    if considerUow && s.uow.Some? then
      s.(uow := Some(Uow(PendingAfter(s.uow.value.pending, op), s.uow.value.handlers + Handlers(op, batches))))
    else s.(entries := Applied(s.entries, op))
  }

  function Got(s: CacheState, key: Key, considerUow: bool): Option<Value> {
    if considerUow && s.uow.Some? && UnRemovedValue(s.uow.value.pending, key).Some? then
      UnRemovedValue(s.uow.value.pending, key)
    else if key in s.entries then Some(s.entries[key])
    else None
  }

  /** The completion handlers run in the order they were registered. */
  function Completed(s: CacheState): CacheState
    requires s.uow.Some?
  {
    CacheState(AppliedAll(s.entries, s.uow.value.handlers), None)
  }

  function RolledBack(s: CacheState): CacheState { s.(uow := None) }

  datatype KeyValue = KeyValue(key: Key, value: Option<Value>)

  function Answers(s: CacheState, keys: seq<Key>, considerUow: bool): seq<KeyValue> {
    if keys == [] then []
    else var n := |keys| - 1; Answers(s, keys[..n], considerUow) + [KeyValue(keys[n], Got(s, keys[n], considerUow))]
  }

  predicate IsPending(s: CacheState, key: Key) { s.uow.Some? && UnRemovedValue(s.uow.value.pending, key).Some? }

  function PendingIn(s: CacheState): Key -> bool { (k: Key) => IsPending(s, k) }

  function NotPendingIn(s: CacheState): Key -> bool { (k: Key) => !IsPending(s, k) }

  /** The order in which `getMany` answers: with batches and a unit of work, pending keys come first. */
  function AnswerOrder(s: CacheState, keys: seq<Key>, considerUow: bool, batches: bool): seq<Key> {
    if batches && considerUow && s.uow.Some? then Filter(keys, PendingIn(s)) + Filter(keys, NotPendingIn(s)) else keys
  }

  /** The requested keys that have a value, with it. */
  function Known(s: CacheState, keys: seq<Key>, considerUow: bool): Entries {
    map k | k in keys && Got(s, k, considerUow).Some? :: Got(s, k, considerUow).value
  }

  function ValueIn(entries: Entries, key: Key): Option<Value> { if key in entries then Some(entries[key]) else None }

  /** The answers that have a value. */
  function Values(answers: seq<KeyValue>): seq<Pair> {
    if answers == [] then []
    else
      var n := |answers| - 1;
      Values(answers[..n]) + (if answers[n].value.Some? then [Pair(answers[n].key, answers[n].value.value)] else [])
  }

  function AbsentIn(known: Entries): Key -> bool { (k: Key) => k !in known }

  // ---------------------------------------------------------------- the cache

  class Store {
    var entries: Entries

    constructor ()
      ensures entries == map[]
    {
      entries := map[];
    }
  }

  class UnitOfWork {
    var pending: Pending
    var completedHandlers: seq<CacheOp>

    constructor ()
      ensures pending == map[] && completedHandlers == []
    {
      pending, completedHandlers := map[], [];
    }
  }

  /** A source of missing values; `calls` records the keys of every call. */
  class ItemsFactory {
    var calls: seq<seq<Key>>

    constructor ()
      ensures calls == []
    {
      calls := [];
    }

    method Create(missing: seq<Key>) returns (created: seq<Pair>)
      modifies this
      ensures calls == old(calls) + [missing]
    {
      calls := calls + [missing];
      created := *;
    }
  }

  class Cache {
    const store: Store
    const batches: bool
    var current: UnitOfWork?

    constructor (store: Store, batches: bool)
      ensures this.store == store && this.batches == batches && current == null
    {
      this.store, this.batches, current := store, batches, null;
    }

    function State(): CacheState
      reads this, store, current
    {
      CacheState(store.entries, if current == null then None else Some(Uow(current.pending, current.completedHandlers)))
    }

    method Begin()
      modifies this
      ensures State() == old(State()).(uow := Some(Uow(map[], [])))
      ensures fresh(current)
    {
      current := new UnitOfWork();
    }

    method Set(key: Key, value: Value, considerUow: bool)
      modifies store, current
      ensures State() == AfterOp(old(State()), CacheOp.Set(key, value), considerUow, batches)
    {
      if considerUow && current != null {
        SetUnitOfWorkValue(key, value);
        current.completedHandlers := current.completedHandlers + [CacheOp.Set(key, value)];
      } else {
        store.entries := store.entries[key := value];
      }
    }

    method SetUnitOfWorkValue(key: Key, value: Value)
      requires current != null
      modifies current`pending
      ensures current.pending == PendingSet(old(current.pending), [Pair(key, value)])
    {
      assert PendingSet(current.pending, [Pair(key, value)]) ==
        PendingSet(current.pending, [])[key := PendingItem(Some(value), false)];
      current.pending := current.pending[key := PendingItem(Some(value), false)];
    }

    method SetMany(items: seq<Pair>, considerUow: bool)
      modifies store, current
      ensures State() == AfterOp(old(State()), CacheOp.SetMany(items), considerUow, batches)
    {
      if !batches {
        SetManyFallback(items, considerUow);
      } else if considerUow && current != null {
        for i := 0 to |items|
          invariant current == old(current) && store.entries == old(store.entries)
          invariant current.completedHandlers == old(current.completedHandlers)
          invariant current.pending == PendingSet(old(current.pending), items[..i])
        {
          PendingSetNext(old(current.pending), items, i);
          SetUnitOfWorkValue(items[i].key, items[i].value);
        }
        assert items[..|items|] == items;
        current.completedHandlers := current.completedHandlers + [CacheOp.SetMany(items)];
      } else {
        store.entries := WithAll(store.entries, items);
      }
    }

    method SetManyFallback(items: seq<Pair>, considerUow: bool)
      requires !batches
      modifies store, current
      ensures State() == AfterOp(old(State()), CacheOp.SetMany(items), considerUow, false)
    {
      NothingDone(State(), considerUow);
      assert items[..0] == [];
      for i := 0 to |items|
        invariant current == old(current)
        invariant State() == AfterOp(old(State()), CacheOp.SetMany(items[..i]), considerUow, false)
      {
        SetNext(old(State()), items, i, considerUow);
        Set(items[i].key, items[i].value, considerUow);
      }
      assert items[..|items|] == items;
    }

    method Remove(key: Key, considerUow: bool)
      modifies store, current
      ensures State() == AfterOp(old(State()), CacheOp.Remove(key), considerUow, batches)
    {
      if considerUow && current != null {
        if key in current.pending { current.pending := current.pending[key := REMOVED]; }
        assert current.pending == PendingRemoved(old(current.pending), [key]);
        current.completedHandlers := current.completedHandlers + [CacheOp.Remove(key)];
      } else {
        store.entries := store.entries - {key};
      }
    }

    method RemoveMany(keys: seq<Key>, considerUow: bool)
      modifies store, current
      ensures State() == AfterOp(old(State()), CacheOp.RemoveMany(keys), considerUow, batches)
    {
      if !batches {
        NothingDone(State(), considerUow);
        assert keys[..0] == [];
        for i := 0 to |keys|
          invariant current == old(current)
          invariant State() == AfterOp(old(State()), CacheOp.RemoveMany(keys[..i]), considerUow, false)
        {
          RemoveNext(old(State()), keys, i, considerUow);
          Remove(keys[i], considerUow);
        }
        assert keys[..|keys|] == keys;
      } else if considerUow && current != null {
        for i := 0 to |keys|
          invariant current == old(current) && store.entries == old(store.entries)
          invariant current.completedHandlers == old(current.completedHandlers)
          invariant current.pending == PendingRemoved(old(current.pending), keys[..i])
        {
          if keys[i] in current.pending { current.pending := current.pending[keys[i] := REMOVED]; }
        }
        assert keys[..|keys|] == keys;
        current.completedHandlers := current.completedHandlers + [CacheOp.RemoveMany(keys)];
      } else {
        store.entries := Without(store.entries, keys);
      }
    }

    /** Completing runs the handlers one by one. */
    method Complete()
      requires current != null
      modifies this, store
      ensures State() == Completed(old(State()))
    {
      var handlers := current.completedHandlers;
      for i := 0 to |handlers|
        invariant current == old(current) && current.completedHandlers == handlers
        invariant store.entries == AppliedAll(old(store.entries), handlers[..i])
      {
        assert handlers[..i + 1][..i] == handlers[..i];
        store.entries := Applied(store.entries, handlers[i]);
      }
      assert handlers[..|handlers|] == handlers;
      current := null;
    }

    method RollBack()
      modifies this
      ensures State() == RolledBack(old(State()))
    {
      current := null;
    }

    method Get(key: Key, considerUow: bool) returns (value: Option<Value>)
      ensures value == Got(State(), key, considerUow)
    {
      if considerUow && current != null {
        var pending := UnRemovedValue(current.pending, key);
        if pending.Some? { return pending; }
      }
      value := if key in store.entries then Some(store.entries[key]) else None;
    }

    method GetMany(keys: seq<Key>, considerUow: bool) returns (answers: seq<KeyValue>)
      ensures answers == Answers(State(), AnswerOrder(State(), keys, considerUow, batches), considerUow)
    {
      if !batches {
        answers := GetEach(keys, considerUow);
        return;
      }
      if considerUow && current != null {
        ghost var s := State();
        var cachedValues := GetPending(keys);
        var notCachedKeys := Filter(keys, (k: Key) => !exists c :: c in cachedValues && c.key == k);
        NotCachedAreNotPending(s, keys, cachedValues);
        if |notCachedKeys| == 0 {
          assert Filter(keys, PendingIn(s)) + [] == Filter(keys, PendingIn(s));
          return cachedValues;
        }
        var rest := ReadStore(notCachedKeys);
        FilterElements(keys, NotPendingIn(s));
        AnswersSame(s, notCachedKeys);
        AnswersConcat(s, Filter(keys, PendingIn(s)), Filter(keys, NotPendingIn(s)), true);
        answers := cachedValues + rest;
      } else {
        answers := ReadStore(keys);
        if considerUow { AnswersSame(State(), keys); }
      }
    }

    /**
     * Values for all keys, creating the missing ones together. `created` is what the factory answered, if it was
     * called.
     */
    method GetOrAddMany(keys: seq<Key>, factory: ItemsFactory, considerUow: bool)
        returns (result: seq<KeyValue>, ghost created: seq<Pair>)
      modifies store, current, factory
      ensures var known := Known(old(State()), keys, considerUow);
        && |result| == |keys|
        && (forall i :: 0 <= i < |keys| ==> result[i] == KeyValue(keys[i], ValueIn(WithAll(known, created), keys[i])))
        && (|known| == |keys| ==> factory.calls == old(factory.calls) && created == [] && State() == old(State()))
        && (|known| != |keys| ==> factory.calls == old(factory.calls) + [Filter(keys, AbsentIn(known))])
        && (|known| != |keys| ==> State() == AfterOp(old(State()), CacheOp.SetMany(created), considerUow, batches))
    {
      var answers := GetMany(keys, considerUow);
      AnswersKnown(State(), keys, considerUow, batches);
      var resultMap := WithAll(map[], Values(answers));
      created := [];
      if |resultMap| == |keys| {
        result := seq(|keys|, i requires 0 <= i < |keys| => KeyValue(keys[i], ValueIn(resultMap, keys[i])));
        return;
      }
      var missingValues := factory.Create(Filter(keys, AbsentIn(resultMap)));
      created := missingValues;
      SetMany(missingValues, considerUow);
      resultMap := WithAll(resultMap, missingValues);
      result := seq(|keys|, i requires 0 <= i < |keys| => KeyValue(keys[i], ValueIn(resultMap, keys[i])));
    }

    method GetEach(keys: seq<Key>, considerUow: bool) returns (answers: seq<KeyValue>)
      ensures answers == Answers(State(), keys, considerUow)
    {
      answers := [];
      for i := 0 to |keys|
        invariant answers == Answers(State(), keys[..i], considerUow)
      {
        assert keys[..i + 1][..i] == keys[..i];
        var value := Get(keys[i], considerUow);
        answers := answers + [KeyValue(keys[i], value)];
      }
      assert keys[..|keys|] == keys;
    }

    method GetPending(keys: seq<Key>) returns (cached: seq<KeyValue>)
      requires current != null
      ensures cached == Answers(State(), Filter(keys, PendingIn(State())), true)
    {
      cached := [];
      for i := 0 to |keys|
        invariant cached == Answers(State(), Filter(keys[..i], PendingIn(State())), true)
      {
        FilterPrefix(keys, PendingIn(State()), i);
        var value := UnRemovedValue(current.pending, keys[i]);
        if value.Some? {
          AnswersSnoc(State(), Filter(keys[..i], PendingIn(State())), keys[i], true);
          cached := cached + [KeyValue(keys[i], value)];
        } else {
          assert Filter(keys[..i], PendingIn(State())) + [] == Filter(keys[..i], PendingIn(State()));
        }
      }
      assert keys[..|keys|] == keys;
    }

    /** The batch read of the store, one answer per key in order. */
    method ReadStore(keys: seq<Key>) returns (answers: seq<KeyValue>)
      ensures answers == Answers(State(), keys, false)
    {
      answers := GetEach(keys, false);
    }
  }

  // ---------------------------------------------------------------- steps of the loops

  lemma PendingSetNext(pending: Pending, items: seq<Pair>, i: nat)
    requires i < |items|
    ensures PendingSet(pending, items[..i + 1]) == PendingSet(PendingSet(pending, items[..i]), [items[i]])
  {
    assert items[..i + 1][..i] == items[..i];
    assert PendingSet(PendingSet(pending, items[..i]), []) == PendingSet(pending, items[..i]);
    assert [items[i]][..0] == [];
  }

  lemma NothingDone(s: CacheState, considerUow: bool)
    ensures AfterOp(s, SetMany([]), considerUow, false) == s
    ensures AfterOp(s, RemoveMany([]), considerUow, false) == s
  {
    if s.uow.Some? {
      assert s.uow.value.handlers + [] == s.uow.value.handlers;
      assert PendingRemoved(s.uow.value.pending, []) == s.uow.value.pending;
    }
    assert Without(s.entries, []) == s.entries;
  }

  lemma SetNext(s: CacheState, items: seq<Pair>, i: nat, considerUow: bool)
    requires i < |items|
    ensures AfterOp(AfterOp(s, SetMany(items[..i]), considerUow, false), Set(items[i].key, items[i].value), considerUow,
      false)
      == AfterOp(s, SetMany(items[..i + 1]), considerUow, false)
  {
    assert items[..i + 1][..i] == items[..i];
    if considerUow && s.uow.Some? {
      PendingSetNext(s.uow.value.pending, items, i);
      var h, done := s.uow.value.handlers, Sets(items[..i]);
      assert (h + done) + [Set(items[i].key, items[i].value)] == h + (done + [Set(items[i].key, items[i].value)]);
    }
  }

  lemma RemoveNext(s: CacheState, keys: seq<Key>, i: nat, considerUow: bool)
    requires i < |keys|
    ensures AfterOp(AfterOp(s, RemoveMany(keys[..i]), considerUow, false), Remove(keys[i]), considerUow, false)
      == AfterOp(s, RemoveMany(keys[..i + 1]), considerUow, false)
  {
    assert keys[..i + 1][..i] == keys[..i];
    assert forall k :: k in keys[..i + 1] <==> k in keys[..i] || k == keys[i];
    if considerUow && s.uow.Some? {
      var h, done := s.uow.value.handlers, Removes(keys[..i]);
      assert (h + done) + [Remove(keys[i])] == h + (done + [Remove(keys[i])]);
      assert PendingRemoved(PendingRemoved(s.uow.value.pending, keys[..i]), [keys[i]]) ==
        PendingRemoved(s.uow.value.pending, keys[..i + 1]);
    }
  }

  lemma NotCachedAreNotPending(s: CacheState, keys: seq<Key>, cached: seq<KeyValue>)
    requires cached == Answers(s, Filter(keys, PendingIn(s)), true)
    ensures Filter(keys, (k: Key) => !exists c :: c in cached && c.key == k) == Filter(keys, NotPendingIn(s))
  {
    var pending := Filter(keys, PendingIn(s));
    AnswersMeans(s, pending, true);
    FilterMembers(keys, PendingIn(s));
    assert forall j :: 0 <= j < |cached| ==> cached[j].key == pending[j] && pending[j] in pending;
    var notCached := (k: Key) => !exists c :: c in cached && c.key == k;
    forall i | 0 <= i < |keys| ensures notCached(keys[i]) <==> NotPendingIn(s)(keys[i]) {
      if IsPending(s, keys[i]) {
        assert PendingIn(s)(keys[i]) && keys[i] in pending;
        var j :| 0 <= j < |pending| && pending[j] == keys[i];
        assert cached[j] in cached && cached[j].key == keys[i];
      }
    }
    FilterSame(keys, notCached, NotPendingIn(s));
  }

  lemma AnswersSnoc(s: CacheState, keys: seq<Key>, k: Key, considerUow: bool)
    ensures Answers(s, keys + [k], considerUow) == Answers(s, keys, considerUow) + [KeyValue(k, Got(s, k, considerUow))]
  {
  }

  lemma {:induction false} AnswersConcat(s: CacheState, a: seq<Key>, b: seq<Key>, considerUow: bool)
    ensures Answers(s, a + b, considerUow) == Answers(s, a, considerUow) + Answers(s, b, considerUow)
  {
    if b == [] {
      assert a + b == a;
    } else {
      var n := |b| - 1;
      AnswersConcat(s, a, b[..n], considerUow);
      assert (a + b)[..|a + b| - 1] == a + b[..n];
    }
  }

  /** One answer per key, in order. */
  lemma {:induction false} AnswersMeans(s: CacheState, keys: seq<Key>, considerUow: bool)
    ensures |Answers(s, keys, considerUow)| == |keys|
    ensures forall i :: 0 <= i < |keys| ==>
      Answers(s, keys, considerUow)[i] == KeyValue(keys[i], Got(s, keys[i], considerUow))
  {
    if keys != [] { AnswersMeans(s, keys[..|keys| - 1], considerUow); }
  }

  lemma WithAllSnoc(entries: Entries, items: seq<Pair>, p: Pair)
    ensures WithAll(entries, items + [p]) == WithAll(entries, items)[p.key := p.value]
  {
  }

  lemma ValuesSnoc(answers: seq<KeyValue>, kv: KeyValue)
    ensures Values(answers + [kv]) == if kv.value.Some? then Values(answers) + [Pair(kv.key, kv.value.value)]
      else Values(answers)
  {
  }

  lemma KnownSnoc(s: CacheState, keys: seq<Key>, k: Key, considerUow: bool)
    ensures var value := Got(s, k, considerUow);
      Known(s, keys + [k], considerUow) == if value.Some? then Known(s, keys, considerUow)[k := value.value]
        else Known(s, keys, considerUow)
  {
  }

  lemma {:induction false} AnswersCollected(s: CacheState, keys: seq<Key>, considerUow: bool)
    ensures WithAll(map[], Values(Answers(s, keys, considerUow))) == Known(s, keys, considerUow)
  {
    if keys != [] {
      var n := |keys| - 1;
      AnswersCollected(s, keys[..n], considerUow);
      var answers, value := Answers(s, keys[..n], considerUow), Got(s, keys[n], considerUow);
      ValuesSnoc(answers, KeyValue(keys[n], value));
      KnownSnoc(s, keys[..n], keys[n], considerUow);
      assert keys == keys[..n] + [keys[n]];
      if value.Some? { WithAllSnoc(map[], Values(answers), Pair(keys[n], value.value)); }
    }
  }

  /** In whatever order they come, the answers collect to what is known of the requested keys. */
  lemma AnswersKnown(s: CacheState, keys: seq<Key>, considerUow: bool, batches: bool)
    ensures WithAll(map[], Values(Answers(s, AnswerOrder(s, keys, considerUow, batches), considerUow))) ==
      Known(s, keys, considerUow)
  {
    var order := AnswerOrder(s, keys, considerUow, batches);
    AnswersCollected(s, order, considerUow);
    FilterMembers(keys, PendingIn(s));
    FilterMembers(keys, NotPendingIn(s));
    assert forall k :: k in order <==> k in keys;
  }

  /** Where nothing requested is pending, the unit of work makes no difference. */
  lemma {:induction false} AnswersSame(s: CacheState, keys: seq<Key>)
    requires forall i :: 0 <= i < |keys| ==> !IsPending(s, keys[i])
    ensures Answers(s, keys, true) == Answers(s, keys, false)
  {
    if keys != [] { AnswersSame(s, keys[..|keys| - 1]); }
  }

  // ---------------------------------------------------------------- deferral

  datatype Call = Call(op: CacheOp, considerUow: bool)

  function AfterCalls(s: CacheState, calls: seq<Call>, batches: bool): CacheState {
    if calls == [] then s
    else var n := |calls| - 1; AfterOp(AfterCalls(s, calls[..n], batches), calls[n].op, calls[n].considerUow, batches)
  }

  /** The operations made with (or without) regard to the unit of work, in order. */
  function OpsOf(calls: seq<Call>, considerUow: bool): seq<CacheOp> {
    if calls == [] then []
    else
      var n := |calls| - 1;
      OpsOf(calls[..n], considerUow) + (if calls[n].considerUow == considerUow then [calls[n].op] else [])
  }

  lemma AppliedSnoc(entries: Entries, ops: seq<CacheOp>, op: CacheOp)
    ensures AppliedAll(entries, ops + [op]) == Applied(AppliedAll(entries, ops), op)
  {
  }

  lemma {:induction false} AppliedConcat(entries: Entries, a: seq<CacheOp>, b: seq<CacheOp>)
    ensures AppliedAll(entries, a + b) == AppliedAll(AppliedAll(entries, a), b)
  {
    if b == [] {
      assert a + b == a;
    } else {
      var n := |b| - 1;
      AppliedConcat(entries, a, b[..n]);
      assert (a + b)[..|a + b| - 1] == a + b[..n];
    }
  }

  lemma {:induction false} SetsMean(entries: Entries, items: seq<Pair>)
    ensures AppliedAll(entries, Sets(items)) == WithAll(entries, items)
  {
    if items != [] {
      var n := |items| - 1;
      SetsMean(entries, items[..n]);
      AppliedSnoc(entries, Sets(items[..n]), Set(items[n].key, items[n].value));
    }
  }

  lemma {:induction false} RemovesMean(entries: Entries, keys: seq<Key>)
    ensures AppliedAll(entries, Removes(keys)) == Without(entries, keys)
  {
    if keys != [] {
      var n := |keys| - 1;
      RemovesMean(entries, keys[..n]);
      AppliedSnoc(entries, Removes(keys[..n]), Remove(keys[n]));
      assert keys == keys[..n] + [keys[n]];
    }
  }

  /** Without batch support the items are handled one by one, to the same effect. */
  lemma HandlersMean(entries: Entries, op: CacheOp, batches: bool)
    ensures AppliedAll(entries, Handlers(op, batches)) == Applied(entries, op)
  {
    match op {
      case SetMany(items) => SetsMean(entries, items);
      case RemoveMany(keys) => RemovesMean(entries, keys);
      case _ =>
    }
    assert [op][..0] == [] && AppliedAll(entries, []) == entries;
  }

  /**
   * Within a unit of work the store sees exactly the immediate operations; the handlers amount to the deferred ones.
   */
  lemma {:induction false} CallsMean(s: CacheState, calls: seq<Call>, batches: bool, entries: Entries)
    requires s.uow.Some?
    ensures var t := AfterCalls(s, calls, batches);
      && t.uow.Some? && t.entries == AppliedAll(s.entries, OpsOf(calls, false))
      && AppliedAll(entries, t.uow.value.handlers) ==
        AppliedAll(AppliedAll(entries, s.uow.value.handlers), OpsOf(calls, true))
  {
    if calls != [] {
      var n := |calls| - 1;
      var op, before := calls[n].op, AfterCalls(s, calls[..n], batches);
      CallsMean(s, calls[..n], batches, entries);
      if calls[n].considerUow {
        AppliedConcat(entries, before.uow.value.handlers, Handlers(op, batches));
        HandlersMean(AppliedAll(entries, before.uow.value.handlers), op, batches);
        AppliedSnoc(AppliedAll(entries, s.uow.value.handlers), OpsOf(calls[..n], true), op);
        assert OpsOf(calls, false) == OpsOf(calls[..n], false);
      } else {
        AppliedSnoc(s.entries, OpsOf(calls[..n], false), op);
        assert OpsOf(calls, true) == OpsOf(calls[..n], true);
      }
    }
  }

  function Begun(entries: Entries): CacheState { CacheState(entries, Some(Uow(map[], []))) }

  /**
   * Deferral: for any mix of calls in a unit of work, the store first sees only those that ignore it; completing then
   * applies the deferred ones in order, and rolling back applies none of them.
   */
  lemma DeferredUntilCompletion(entries: Entries, calls: seq<Call>, batches: bool)
    ensures var t := AfterCalls(Begun(entries), calls, batches);
      && t.uow.Some?
      && t.entries == AppliedAll(entries, OpsOf(calls, false))
      && Completed(t).entries == AppliedAll(AppliedAll(entries, OpsOf(calls, false)), OpsOf(calls, true))
      && RolledBack(t).entries == AppliedAll(entries, OpsOf(calls, false))
  {
    var now := AppliedAll(entries, OpsOf(calls, false));
    CallsMean(Begun(entries), calls, batches, now);
    assert AppliedAll(now, []) == now;
  }

  // ---------------------------------------------------------------- reading within the unit of work

  /** What one operation does to a key: nothing, remove it, or set it. */
  datatype Effect = Untouched | Removed | SetTo(value: Value)

  function EffectOfItems(items: seq<Pair>, key: Key): (e: Effect)
    ensures !e.Removed?
  {
    if items == [] then Untouched
    else if items[|items| - 1].key == key then SetTo(items[|items| - 1].value)
    else EffectOfItems(items[..|items| - 1], key)
  }

  function EffectOf(op: CacheOp, key: Key): Effect {
    match op
    case Set(k, value) => if k == key then SetTo(value) else Untouched
    case SetMany(items) => EffectOfItems(items, key)
    case Remove(k) => if k == key then Removed else Untouched
    case RemoveMany(keys) => if key in keys then Removed else Untouched
  }

  /** The effect of the last operation that touches the key. */
  function LastEffect(ops: seq<CacheOp>, key: Key): Effect {
    if ops == [] then Untouched
    else var e := EffectOf(ops[|ops| - 1], key); if e.Untouched? then LastEffect(ops[..|ops| - 1], key) else e
  }

  lemma {:induction false} WithAllLookup(entries: Entries, items: seq<Pair>, key: Key)
    ensures ValueIn(WithAll(entries, items), key) ==
      var e := EffectOfItems(items, key); if e.SetTo? then Some(e.value) else ValueIn(entries, key)
  {
    if items != [] { WithAllLookup(entries, items[..|items| - 1], key); }
  }

  lemma {:induction false} AppliedLookup(entries: Entries, ops: seq<CacheOp>, key: Key)
    ensures ValueIn(AppliedAll(entries, ops), key) ==
      match LastEffect(ops, key)
      case SetTo(value) => Some(value)
      case Removed => None
      case Untouched => ValueIn(entries, key)
  {
    if ops != [] {
      var before := AppliedAll(entries, ops[..|ops| - 1]);
      AppliedLookup(entries, ops[..|ops| - 1], key);
      if ops[|ops| - 1].SetMany? { WithAllLookup(before, ops[|ops| - 1].items, key); }
    }
  }

  lemma {:induction false} PendingSetLookup(pending: Pending, items: seq<Pair>, key: Key)
    ensures UnRemovedValue(PendingSet(pending, items), key) ==
      var e := EffectOfItems(items, key); if e.SetTo? then Some(e.value) else UnRemovedValue(pending, key)
  {
    if items != [] { PendingSetLookup(pending, items[..|items| - 1], key); }
  }

  lemma PendingLookup(pending: Pending, op: CacheOp, key: Key)
    ensures UnRemovedValue(PendingAfter(pending, op), key) ==
      match EffectOf(op, key)
      case SetTo(value) => Some(value)
      case Removed => None
      case Untouched => UnRemovedValue(pending, key)
  {
    match op {
      case Set(k, value) =>
        PendingSetLookup(pending, [Pair(k, value)], key);
        assert [Pair(k, value)][..0] == [] && EffectOfItems([], key) == Untouched;
      case SetMany(items) => PendingSetLookup(pending, items, key);
      case _ =>
    }
  }

  lemma {:induction false} PendingMeans(entries: Entries, calls: seq<Call>, batches: bool, key: Key)
    ensures var t := AfterCalls(Begun(entries), calls, batches);
      t.uow.Some? && UnRemovedValue(t.uow.value.pending, key) ==
        match LastEffect(OpsOf(calls, true), key)
        case SetTo(value) => Some(value)
        case _ => None
  {
    if calls != [] {
      var n := |calls| - 1;
      PendingMeans(entries, calls[..n], batches, key);
      var before := OpsOf(calls[..n], true);
      if calls[n].considerUow {
        assert (before + [calls[n].op])[..|before|] == before;
        PendingLookup(AfterCalls(Begun(entries), calls[..n], batches).uow.value.pending, calls[n].op, key);
      } else {
        assert OpsOf(calls, true) == before;
      }
    }
  }

  /**
   * What `get` answers within the unit of work: a pending value if the last deferred operation set one, else the
   * store's.
   */
  lemma ReadWithinUow(entries: Entries, calls: seq<Call>, batches: bool, key: Key)
    ensures var t := AfterCalls(Begun(entries), calls, batches);
      Got(t, key, true) ==
        match LastEffect(OpsOf(calls, true), key)
        case SetTo(value) => Some(value)
        case _ => ValueIn(t.entries, key)
  {
    PendingMeans(entries, calls, batches, key);
  }

  /**
   * So a read within the unit of work sees what a read after completion will see, exactly unless the last deferred
   * operation removed a key that the store still holds.
   */
  lemma ReadsAheadIff(entries: Entries, calls: seq<Call>, batches: bool, key: Key)
    ensures var t := AfterCalls(Begun(entries), calls, batches);
      t.uow.Some? &&
      (Got(t, key, true) == Got(Completed(t), key, true) <==>
        !(LastEffect(OpsOf(calls, true), key).Removed? && key in t.entries))
  {
    ReadWithinUow(entries, calls, batches, key);
    DeferredUntilCompletion(entries, calls, batches);
    AppliedLookup(AppliedAll(entries, OpsOf(calls, false)), OpsOf(calls, true), key);
  }

  // ---------------------------------------------------------------- getMany

  lemma {:induction false} FilterSplit(keys: seq<Key>, p: Key -> bool, q: Key -> bool)
    requires forall k :: q(k) <==> !p(k)
    ensures multiset(Filter(keys, p)) + multiset(Filter(keys, q)) == multiset(keys)
  {
    if keys != [] {
      var n := |keys| - 1;
      FilterSplit(keys[..n], p, q);
      assert keys == keys[..n] + [keys[n]];
    }
  }

  /** `getMany` answers every requested key once per request with what `get` answers. */
  lemma GetManyAnswersAll(s: CacheState, keys: seq<Key>, considerUow: bool, batches: bool)
    ensures var order := AnswerOrder(s, keys, considerUow, batches);
      var answers := Answers(s, order, considerUow);
      && multiset(order) == multiset(keys)
      && |answers| == |order| == |keys|
      && forall i :: 0 <= i < |keys| ==> answers[i] == KeyValue(order[i], Got(s, order[i], considerUow))
  {
    var order := AnswerOrder(s, keys, considerUow, batches);
    FilterSplit(keys, PendingIn(s), NotPendingIn(s));
    AnswersMeans(s, order, considerUow);
    assert multiset(order) == multiset(keys);
    assert |order| == |multiset(order)| && |keys| == |multiset(keys)|;
  }

  /** Pending keys, then others, is the order requested exactly if no pending key is requested after one that is not. */
  lemma {:induction false} SplitInOrderIff(keys: seq<Key>, p: Key -> bool, q: Key -> bool)
    requires forall k :: q(k) <==> !p(k)
    ensures Filter(keys, p) + Filter(keys, q) == keys <==> forall i, j ::
      0 <= i < j < |keys| && p(keys[j]) ==> p(keys[i])
  {
    var a, b := Filter(keys, p), Filter(keys, q);
    if a + b == keys {
      FilterElements(keys, p);
      FilterElements(keys, q);
      assert forall m :: 0 <= m < |a| ==> keys[m] == a[m];
      assert forall m :: |a| <= m < |keys| ==> keys[m] == b[m - |a|];
    }
    if forall i, j :: 0 <= i < j < |keys| && p(keys[j]) ==> p(keys[i]) { SplitInOrder(keys, p, q); }
  }

  lemma AppendToEither<T>(a: seq<T>, b: seq<T>, a': seq<T>, b': seq<T>, s: seq<T>, k: T, first: bool)
    requires a + b == s && (first ==> b == [])
    requires a' == a + (if first then [k] else []) && b' == b + (if first then [] else [k])
    ensures a' + b' == s + [k]
  {
  }

  lemma {:induction false} SplitInOrder(keys: seq<Key>, p: Key -> bool, q: Key -> bool)
    requires forall k :: q(k) <==> !p(k)
    requires forall i, j :: 0 <= i < j < |keys| && p(keys[j]) ==> p(keys[i])
    ensures Filter(keys, p) + Filter(keys, q) == keys
  {
    if keys != [] {
      var n := |keys| - 1;
      var init, k := keys[..n], keys[n];
      SplitInOrder(init, p, q);
      if p(k) { NoneLeft(init, q); }
      AppendToEither(Filter(init, p), Filter(init, q), Filter(keys, p), Filter(keys, q), init, k, p(k));
    }
  }

  lemma {:induction false} NoneLeft(keys: seq<Key>, q: Key -> bool)
    requires forall i :: 0 <= i < |keys| ==> !q(keys[i])
    ensures Filter(keys, q) == []
  {
    if keys != [] { NoneLeft(keys[..|keys| - 1], q); }
  }

  /** The order promised by the interface holds exactly then; it always holds without a unit of work or batches. */
  lemma GetManyInOrderIff(s: CacheState, keys: seq<Key>, considerUow: bool, batches: bool)
    ensures AnswerOrder(s, keys, considerUow, batches) == keys <==>
      (batches && considerUow && s.uow.Some? ==> forall i, j ::
        0 <= i < j < |keys| && IsPending(s, keys[j]) ==> IsPending(s, keys[i]))
  {
    SplitInOrderIff(keys, PendingIn(s), NotPendingIn(s));
    assert forall i :: 0 <= i < |keys| ==> PendingIn(s)(keys[i]) == IsPending(s, keys[i]);
  }

  /** `getOrAddMany` calls the factory exactly if a requested key has no value or is requested twice. */
  lemma FactoryCalledIff(s: CacheState, keys: seq<Key>, considerUow: bool)
    ensures |Known(s, keys, considerUow)| == |keys| <==>
      (&& (forall i :: 0 <= i < |keys| ==> Got(s, keys[i], considerUow).Some?)
       && forall i, j :: 0 <= i < j < |keys| ==> keys[i] != keys[j])
  {
    KnownSize(s, keys, considerUow);
  }

  lemma {:induction false} KnownSize(s: CacheState, keys: seq<Key>, considerUow: bool)
    ensures |Known(s, keys, considerUow)| <= |keys|
    ensures |Known(s, keys, considerUow)| == |keys| <==>
      (&& (forall i :: 0 <= i < |keys| ==> Got(s, keys[i], considerUow).Some?)
       && forall i, j :: 0 <= i < j < |keys| ==> keys[i] != keys[j])
  {
    if keys != [] {
      var n := |keys| - 1;
      KnownSize(s, keys[..n], considerUow);
      KnownSnoc(s, keys[..n], keys[n], considerUow);
      assert keys == keys[..n] + [keys[n]];
    }
  }
}
