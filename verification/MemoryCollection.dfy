/**
 * Optimistic concurrency of the in-memory collection. Stored entities are clones, so a client only changes the store
 * through `update`, which compares and rotates the concurrency stamp.
 */
module MemoryCollection {
  import opened Common

  /** Entity keys and concurrency stamps are only ever compared for equality. */
  type Key = nat
  type Stamp = nat

  /** `stamp` is None for entities without a `concurrencyStamp`. */
  datatype Entity = Entity(key: Key, stamp: Option<Stamp>, data: int)

  type Dictionary = map<Key, Entity>

  datatype Outcome = Done | DuplicateKey | Missing | Conflict

  predicate StampsDiffer(a: Entity, b: Entity) {
    a.stamp.Some? && b.stamp.Some? && a.stamp != b.stamp
  }

  function Restamped(e: Entity, newStamp: Stamp): Entity {
    if e.stamp.Some? then e.(stamp := Some(newStamp)) else e
  }

  function UpdateOutcome(d: Dictionary, e: Entity): Outcome {
    var key := e.key;
    if key !in d then Missing else if StampsDiffer(e, d[key]) then Conflict else Done
  }

  /** The dictionary after `update(e)`, and the caller's entity, whose stamp a successful update rotates. */
  function Updated(d: Dictionary, e: Entity, newStamp: Stamp): (Dictionary, Entity) {
    if UpdateOutcome(d, e).Done? then (d[e.key := Restamped(e, newStamp)], Restamped(e, newStamp)) else (d, e)
  }

  class MemoryDatabaseCollection {
    var dictionary: Dictionary

    constructor ()
      ensures dictionary == map[]
    {
      dictionary := map[];
    }

    method Add(e: Entity) returns (outcome: Outcome)
      modifies this
      ensures outcome == if e.key in old(dictionary) then DuplicateKey else Done
      ensures dictionary == if outcome.Done? then old(dictionary)[e.key := e] else old(dictionary)
    {
      var key := e.key;
      if key in dictionary { return DuplicateKey; }
      dictionary := dictionary[key := e];
      outcome := Done;
    }

    /** `newStamp` is the next concurrency stamp; `after` is the caller's entity after the call. */
    method Update(e: Entity, newStamp: Stamp) returns (outcome: Outcome, after: Entity)
      modifies this
      ensures outcome == UpdateOutcome(old(dictionary), e)
      ensures (dictionary, after) == Updated(old(dictionary), e, newStamp)
    {
      var key := e.key;
      if key !in dictionary { return Missing, e; }
      var original := dictionary[key];
      if StampsDiffer(e, original) { return Conflict, e; }
      after := if e.stamp.Some? then e.(stamp := Some(newStamp)) else e;
      dictionary := dictionary[key := after];
      outcome := Done;
    }

    method Remove(e: Entity)
      modifies this
      ensures dictionary == old(dictionary) - {e.key}
    {
      dictionary := dictionary - {e.key};
    }
  }

  // ---------------------------------------------------------------- concurrent clients

  /** A client's instance, and which stored version of its entity it derives from. */
  datatype Copy = Copy(entity: Entity, base: nat)

  /** A version once stored, and the version its writer had started from; None where the entity was added. */
  datatype Version = Version(entity: Entity, base: Option<nat>)

  /** The version a stamp was issued for: position `index` in the history of `key`. */
  datatype Issue = Issue(key: Key, index: nat)

  datatype State = State(dictionary: Dictionary, copies: map<nat, Copy>, history: map<Key, seq<Version>>,
      issued: map<Stamp, Issue>)

  datatype Event =
    | AddNew(client: nat, entity: Entity)
    | Read(client: nat, key: Key)
    | Edit(client: nat, data: int)
    | Update(client: nat, newStamp: Stamp)
    | RemoveKey(key: Key)

  const EMPTY := State(map[], map[], map[], map[])

  function HistoryOf(s: State, key: Key): seq<Version> { if key in s.history then s.history[key] else [] }

  /** New stamps are fresh, and added entities carry one. */
  predicate Enabled(s: State, e: Event) {
    match e
    case AddNew(_, entity) => entity.stamp.Some? && entity.stamp.value !in s.issued
    case Update(_, newStamp) => newStamp !in s.issued
    case _ => true
  }

  /** One more version is stored; its writer keeps the instance it came from. */
  function Written(s: State, client: nat, entity: Entity, base: Option<nat>): State
    requires entity.stamp.Some?
  {
    var key, versions := entity.key, HistoryOf(s, entity.key);
    State(s.dictionary[key := entity], s.copies[client := Copy(entity, |versions|)],
      s.history[key := versions + [Version(entity, base)]], s.issued[entity.stamp.value := Issue(key, |versions|)])
  }

  /** Clients go on with instances of entities that were removed, and entities may be added again under an old key. */
  function Step(s: State, e: Event): State {
    match e
    case AddNew(client, entity) =>
      if entity.key in s.dictionary || entity.stamp.None? then s else Written(s, client, entity, None)
    case Read(client, key) =>
      if key !in s.dictionary || HistoryOf(s, key) == [] then s
      else s.(copies := s.copies[client := Copy(s.dictionary[key], |HistoryOf(s, key)| - 1)])
    case Edit(client, data) =>
      if client !in s.copies then s
      else s.(copies := s.copies[client := s.copies[client].(entity := s.copies[client].entity.(data := data))])
    case Update(client, newStamp) =>
      if client !in s.copies then s
      else
        var Copy(entity, base) := s.copies[client];
        var after := Updated(s.dictionary, entity, newStamp).1;
        if UpdateOutcome(s.dictionary, entity).Done? && after.stamp.Some? then Written(s, client, after, Some(base))
          else s
    case RemoveKey(key) => s.(dictionary := s.dictionary - {key})
  }

  ghost predicate EnabledAll(s: State, events: seq<Event>)
    decreases |events|
  {
    events != [] ==> Enabled(s, events[0]) && EnabledAll(Step(s, events[0]), events[1..])
  }

  function Run(s: State, events: seq<Event>): State
    decreases |events|
  {
    if events == [] then s else Run(Step(s, events[0]), events[1..])
  }

  /** Every version was added, or written from exactly the version before it, and carries the stamp issued for it. */
  ghost predicate Chain(key: Key, versions: seq<Version>, issued: map<Stamp, Issue>) {
    forall i :: 0 <= i < |versions| ==>
      && (versions[i].base.Some? ==> versions[i].base.value == i - 1)
      && versions[i].entity.key == key
      && versions[i].entity.stamp.Some?
      && versions[i].entity.stamp.value in issued
      && issued[versions[i].entity.stamp.value] == Issue(key, i)
  }

  function Last(versions: seq<Version>): Version
    requires versions != []
  {
    versions[|versions| - 1]
  }

  /** The history of `key` is a chain, and ends in the stored entity if there is one. */
  ghost predicate ValidKey(s: State, key: Key) {
    && Chain(key, HistoryOf(s, key), s.issued)
    && (key in s.dictionary ==> HistoryOf(s, key) != [] && Last(HistoryOf(s, key)).entity == s.dictionary[key])
  }

  /** A copy carries the stamp of the version it was taken from. */
  ghost predicate ValidCopy(s: State, c: Copy) {
    var versions := HistoryOf(s, c.entity.key);
    c.base < |versions| && c.entity.stamp == versions[c.base].entity.stamp
  }

  ghost predicate Inv(s: State) {
    && (forall key :: ValidKey(s, key))
    && (forall client :: client in s.copies ==> ValidCopy(s, s.copies[client]))
  }

  lemma ChainGrows(key: Key, versions: seq<Version>, issued: map<Stamp, Issue>, v: Version)
    requires Chain(key, versions, issued)
    requires v.entity.key == key && v.entity.stamp.Some? && v.entity.stamp.value !in issued
    requires v.base.Some? ==> v.base.value == |versions| - 1
    ensures Chain(key, versions + [v], issued[v.entity.stamp.value := Issue(key, |versions|)])
  {
  }

  lemma ChainStays(key: Key, versions: seq<Version>, issued: map<Stamp, Issue>, stamp: Stamp, issue: Issue)
    requires Chain(key, versions, issued) && stamp !in issued
    ensures Chain(key, versions, issued[stamp := issue])
  {
  }

  lemma ValidCopyStays(s: State, s': State, c: Copy)
    requires ValidCopy(s, c) && HistoryOf(s, c.entity.key) <= HistoryOf(s', c.entity.key)
    ensures ValidCopy(s', c)
  {
  }

  /** Storing a version with a fresh stamp, added or written from the latest, keeps the invariant. */
  lemma WrittenKeepsInv(s: State, client: nat, entity: Entity, base: Option<nat>)
    requires Inv(s) && entity.stamp.Some? && entity.stamp.value !in s.issued
    requires base.Some? ==> base.value == |HistoryOf(s, entity.key)| - 1
    ensures Inv(Written(s, client, entity, base))
  {
    var s' := Written(s, client, entity, base);
    forall key ensures ValidKey(s', key) {
      assert ValidKey(s, key);
      if key == entity.key {
        ChainGrows(key, HistoryOf(s, key), s.issued, Version(entity, base));
      } else {
        ChainStays(key, HistoryOf(s, key), s.issued, entity.stamp.value, Issue(entity.key, |HistoryOf(s, entity.key)|));
      }
    }
    forall c | c in s'.copies ensures ValidCopy(s', s'.copies[c]) {
      if c != client { ValidCopyStays(s, s', s.copies[c]); }
    }
  }

  lemma ReadKeepsInv(s: State, client: nat, key: Key)
    requires Inv(s)
    ensures Inv(Step(s, Read(client, key)))
  {
    var s' := Step(s, Read(client, key));
    assert ValidKey(s, key);
    forall k ensures ValidKey(s', k) { assert ValidKey(s, k); }
    forall c | c in s'.copies ensures ValidCopy(s', s'.copies[c]) {
      if c != client { ValidCopyStays(s, s', s.copies[c]); }
    }
  }

  lemma EditKeepsInv(s: State, client: nat, data: int)
    requires Inv(s)
    ensures Inv(Step(s, Edit(client, data)))
  {
    var s' := Step(s, Edit(client, data));
    forall k ensures ValidKey(s', k) { assert ValidKey(s, k); }
    forall c | c in s'.copies ensures ValidCopy(s', s'.copies[c]) {
      assert ValidCopy(s, s.copies[c]);
    }
  }

  lemma RemoveKeepsInv(s: State, key: Key)
    requires Inv(s)
    ensures Inv(Step(s, RemoveKey(key)))
  {
    var s' := Step(s, RemoveKey(key));
    forall k ensures ValidKey(s', k) { assert ValidKey(s, k); }
    forall c | c in s'.copies ensures ValidCopy(s', s'.copies[c]) { ValidCopyStays(s, s', s.copies[c]); }
  }

  /** An update succeeds exactly when the entity is stored and the client's copy derives from its latest version. */
  lemma LatestOnly(s: State, client: nat)
    requires Inv(s) && client in s.copies
    ensures var c := s.copies[client];
      UpdateOutcome(s.dictionary, c.entity) ==
        if c.entity.key !in s.dictionary then Missing
        else if c.base == |HistoryOf(s, c.entity.key)| - 1 then Done else Conflict
    ensures s.copies[client].entity.stamp.Some?
  {
    assert ValidCopy(s, s.copies[client]) && ValidKey(s, s.copies[client].entity.key);
  }

  lemma StepKeepsInv(s: State, e: Event)
    requires Inv(s) && Enabled(s, e)
    ensures Inv(Step(s, e))
  {
    match e {
      case AddNew(client, entity) => if entity.key !in s.dictionary { WrittenKeepsInv(s, client, entity, None); }
      case Read(client, key) => ReadKeepsInv(s, client, key);
      case Edit(client, data) => EditKeepsInv(s, client, data);
      case RemoveKey(key) => RemoveKeepsInv(s, key);
      case Update(client, newStamp) =>
        if client in s.copies && UpdateOutcome(s.dictionary, s.copies[client].entity).Done? {
          LatestOnly(s, client);
          WrittenKeepsInv(s, client, s.copies[client].entity.(stamp := Some(newStamp)), Some(s.copies[client].base));
        }
    }
  }

  lemma {:induction false} RunKeepsInv(s: State, events: seq<Event>)
    requires Inv(s) && EnabledAll(s, events)
    ensures Inv(Run(s, events))
    decreases |events|
  {
    if events != [] {
      StepKeepsInv(s, events[0]);
      RunKeepsInv(Step(s, events[0]), events[1..]);
    }
  }

  /**
   * No lost update: in every interleaving of clients that add, read, edit, update and remove stamped entities, each
   * version that was not added was written from the version just before it, and the last one is what is stored.
   */
  lemma NoLostUpdate(events: seq<Event>, key: Key)
    requires EnabledAll(EMPTY, events)
    ensures var s := Run(EMPTY, events);
      var versions := HistoryOf(s, key);
      && (key in s.dictionary ==> versions != [] && Last(versions).entity == s.dictionary[key])
      && forall i :: 0 <= i < |versions| ==> versions[i].base == None || versions[i].base == Some(i - 1)
  {
    RunKeepsInv(EMPTY, events);
    assert ValidKey(Run(EMPTY, events), key);
  }

  /**
   * In every reachable state an update goes through if and only if its entity is stored and its copy derives from the
   * latest version.
   */
  lemma StaleCopiesRejected(events: seq<Event>, client: nat)
    requires EnabledAll(EMPTY, events) && client in Run(EMPTY, events).copies
    ensures var s := Run(EMPTY, events);
      var c := s.copies[client];
      UpdateOutcome(s.dictionary, c.entity).Done? <==>
        c.entity.key in s.dictionary && c.base == |HistoryOf(s, c.entity.key)| - 1
  {
    RunKeepsInv(EMPTY, events);
    LatestOnly(Run(EMPTY, events), client);
  }
}
