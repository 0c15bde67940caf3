/**
 * Concurrent `getOrAdd` calls on one key: read, take the cache's lock, read again, create, set. Steps of different
 * calls interleave freely; nothing fails, expires or is removed in between.
 */
module SingleCreation {
  import opened Common

  type Caller = nat
  type Value = int

  /** Where a call stands: before its first read, waiting for the lock, holding it, and done. */
  datatype Phase = Starting | Missed | Locked | Creating | Created(value: Value) | Returned(value: Value)

  /** The lock is shared by all keys of the cache. */
  datatype Holder = Free | Held(caller: Caller) | OtherKey

  datatype State = State(entry: Option<Value>, holder: Holder, phases: map<Caller, Phase>, factoryCalls: nat)

  datatype Event =
    | Call(caller: Caller)
    | FirstGet(caller: Caller)
    | Acquire(caller: Caller)
    | SecondGet(caller: Caller)
    | RunFactory(caller: Caller, value: Value)
    | SetEntry(caller: Caller)
    | OtherAcquires
    | OtherReleases

  predicate At(s: State, c: Caller, p: Phase) { c in s.phases && s.phases[c] == p }

  function Moved(s: State, c: Caller, p: Phase): State { s.(phases := s.phases[c := p]) }

  /** Events that cannot happen in a state leave it as it is. */
  function Step(s: State, e: Event): State {
    match e
    case Call(c) => if c in s.phases then s else Moved(s, c, Starting)
    case FirstGet(c) =>
      if !At(s, c, Starting) then s
      else if s.entry.Some? then Moved(s, c, Returned(s.entry.value)) else Moved(s, c, Missed)
    case Acquire(c) =>
      if !At(s, c, Missed) || !s.holder.Free? then s else Moved(s, c, Locked).(holder := Held(c))
    case SecondGet(c) =>
      if !At(s, c, Locked) then s
      else if s.entry.Some? then Moved(s, c, Returned(s.entry.value)).(holder := Free) else Moved(s, c, Creating)
    case RunFactory(c, value) =>
      if !At(s, c, Creating) then s else Moved(s, c, Created(value)).(factoryCalls := s.factoryCalls + 1)
    case SetEntry(c) =>
      if c !in s.phases || !s.phases[c].Created? then s
      else State(Some(s.phases[c].value), Free, s.phases[c := Returned(s.phases[c].value)], s.factoryCalls)
    case OtherAcquires => if s.holder.Free? then s.(holder := OtherKey) else s
    case OtherReleases => if s.holder.OtherKey? then s.(holder := Free) else s
  }

  function Run(s: State, events: seq<Event>): State
    decreases |events|
  {
    if events == [] then s else Run(Step(s, events[0]), events[1..])
  }

  function Initial(entry: Option<Value>): State { State(entry, Free, map[], 0) }

  /** Only the lock holder is past the lock; creating happens only while there is no entry. */
  ghost predicate ValidCaller(s: State, c: Caller)
    requires c in s.phases
  {
    && (s.phases[c].Locked? || s.phases[c].Creating? || s.phases[c].Created? <==> s.holder == Held(c))
    && (s.phases[c].Creating? || s.phases[c].Created? ==> s.entry.None?)
    && (s.phases[c].Created? ==> s.factoryCalls == 1)
    && (s.phases[c].Returned? ==> s.entry == Some(s.phases[c].value))
  }

  /** `before` is the entry the run started with. */
  ghost predicate Inv(s: State, before: Option<Value>) {
    && (forall c :: c in s.phases ==> ValidCaller(s, c))
    && (s.holder.Held? ==> s.holder.caller in s.phases)
    && (before.Some? ==> s.entry == before && s.factoryCalls == 0)
    && (before.None? && s.entry.Some? ==> s.factoryCalls == 1)
    && (s.entry.None? ==> s.factoryCalls == if s.holder.Held? && s.phases[s.holder.caller].Created? then 1 else 0)
  }

  lemma StepKeepsInv(s: State, e: Event, before: Option<Value>)
    requires Inv(s, before)
    ensures Inv(Step(s, e), before)
  {
  }

  lemma {:induction false} RunKeepsInv(s: State, events: seq<Event>, before: Option<Value>)
    requires Inv(s, before)
    ensures Inv(Run(s, events), before)
    decreases |events|
  {
    if events != [] {
      StepKeepsInv(s, events[0], before);
      RunKeepsInv(Step(s, events[0]), events[1..], before);
    }
  }

  /** In every interleaving the factory runs at most once, and not at all if there was an entry to begin with. */
  lemma FactoryRunsAtMostOnce(before: Option<Value>, events: seq<Event>)
    ensures var s := Run(Initial(before), events);
      s.factoryCalls <= 1 && (before.Some? ==> s.factoryCalls == 0)
  {
    RunKeepsInv(Initial(before), events, before);
  }

  /** All calls that have returned agree with each other and with the cache. */
  lemma AllReturnTheSame(before: Option<Value>, events: seq<Event>, c: Caller)
    requires var s := Run(Initial(before), events); c in s.phases && s.phases[c].Returned?
    ensures var s := Run(Initial(before), events);
      && s.entry == Some(s.phases[c].value)
      && (before.Some? ==> s.phases[c].value == before.value)
      && forall d :: d in s.phases && s.phases[d].Returned? ==> s.phases[d].value == s.phases[c].value
  {
    RunKeepsInv(Initial(before), events, before);
    var s := Run(Initial(before), events);
    assert ValidCaller(s, c);
    forall d | d in s.phases && s.phases[d].Returned? ensures s.phases[d].value == s.phases[c].value {
      assert ValidCaller(s, d);
    }
  }
}
