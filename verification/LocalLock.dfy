/**
 * The in-process keyed lock: one exclusive lock per key, handed over to the next waiter on release. JavaScript runs
 * each synchronous segment without interruption, so every segment is one step.
 */
module LocalLock {
  import opened Common

  type Key = string
  /** Attempts are numbered in order of arrival. */
  type Ticket = nat

  datatype LockState = LockState(locked: bool, waiters: seq<Ticket>)
  type States = map<Key, LockState>

  datatype Phase = Waiting | Holding | Released | TimedOut | Cancelled | Refused

  function IndexOf(waiters: seq<Ticket>, t: Ticket): (i: int)
    ensures -1 <= i < |waiters|
    ensures i >= 0 ==> waiters[i] == t
    ensures i < 0 ==> t !in waiters
  {
    if waiters == [] then -1
    else if waiters[0] == t then 0
    else var i := IndexOf(waiters[1..], t); if i < 0 then -1 else i + 1
  }

  function Spliced(waiters: seq<Ticket>, t: Ticket): seq<Ticket> {
    var i := IndexOf(waiters, t);
    if i < 0 then waiters else waiters[..i] + waiters[i + 1..]
  }

  /** The synchronous part of `tryLock`: the new states and whether the attempt holds, waits or is turned away. */
  function Attempted(states: States, key: Key, timeoutMs: int, aborted: bool, t: Ticket): (States, Phase) {
    if aborted then (states, Cancelled)
    else if key !in states || !states[key].locked then
      (states[key := LockState(true, if key in states then states[key].waiters else [])], Holding)
    else if timeoutMs <= 0 then (states, Refused)
    else (states[key := states[key].(waiters := states[key].waiters + [t])], Waiting)
  }

  /** A waiter leaves the queue on timeout or abort. */
  function Left(states: States, key: Key, t: Ticket): States {
    if key in states then states[key := states[key].(waiters := Spliced(states[key].waiters, t))] else states
  }

  /** `release`: the new states and the waiter the lock is handed to, if any. */
  function Handed(states: States, key: Key): (States, Option<Ticket>) {
    if key !in states then (states, None)
    else if states[key].waiters != [] then
      (states[key := states[key].(waiters := states[key].waiters[1..])], Some(states[key].waiters[0]))
    else (states - {key}, None)
  }

  class LocalKeyedLock {
    var states: States

    constructor ()
      ensures states == map[]
    {
      states := map[];
    }

    method TryLock(key: Key, timeoutMs: int, aborted: bool, t: Ticket) returns (phase: Phase)
      modifies this
      ensures (states, phase) == Attempted(old(states), key, timeoutMs, aborted, t)
    {
      if aborted { return Cancelled; }
      if key !in states { states := states[key := LockState(false, [])]; }
      var state := states[key];
      if !state.locked {
        states := states[key := state.(locked := true)];
        assert states == Attempted(old(states), key, timeoutMs, aborted, t).0;
        return Holding;
      }
      if timeoutMs <= 0 { return Refused; }
      states := states[key := state.(waiters := state.waiters + [t])];
      phase := Waiting;
    }

    method IsLocked(key: Key) returns (locked: bool)
      ensures locked == (key in states && states[key].locked)
    {
      locked := if key in states then states[key].locked else false;
    }

    method Leave(key: Key, t: Ticket)
      modifies this
      ensures states == Left(old(states), key, t)
    {
      if key in states {
        var waiters := states[key].waiters;
        var index := IndexOf(waiters, t);
        if index >= 0 { states := states[key := states[key].(waiters := waiters[..index] + waiters[index + 1..])]; }
      }
    }

    method Release(key: Key) returns (granted: Option<Ticket>)
      modifies this
      ensures (states, granted) == Handed(old(states), key)
    {
      if key !in states { return None; }
      var state := states[key];
      if |state.waiters| > 0 {
        states := states[key := state.(waiters := state.waiters[1..])];
        return Some(state.waiters[0]);
      }
      states := states - {key};
      granted := None;
    }
  }

  /** The disposable a grant is given as. */
  class Releaser {
    const keyedLock: LocalKeyedLock
    const key: Key
    var released: bool

    constructor (keyedLock: LocalKeyedLock, key: Key)
      ensures this.keyedLock == keyedLock && this.key == key && !released
    {
      this.keyedLock, this.key, released := keyedLock, key, false;
    }

    method Dispose() returns (granted: Option<Ticket>)
      modifies this, keyedLock
      ensures released
      ensures (keyedLock.states, granted) == if old(released) then (old(keyedLock.states), None)
        else Handed(old(keyedLock.states), key)
    {
      if released { return None; }
      released := true;
      granted := keyedLock.Release(key);
    }
  }

  // ---------------------------------------------------------------- all attempts together

  datatype Request = Request(key: Key, phase: Phase)

  /** `requests[t]` is attempt number `t`; `grants` records who was granted each key, in order. */
  datatype State = State(states: States, requests: seq<Request>, grants: map<Key, seq<Ticket>>)

  datatype Event =
    | TryLock(key: Key, timeoutMs: int, aborted: bool)
    | Timeout(t: Ticket)
    | Abort(t: Ticket)
    | Dispose(t: Ticket)

  const INITIAL := State(map[], [], map[])

  function GrantsOf(s: State, key: Key): seq<Ticket> { if key in s.grants then s.grants[key] else [] }

  function WaitersOf(s: State, key: Key): seq<Ticket> { if key in s.states then s.states[key].waiters else [] }

  function PhaseOf(s: State, t: Ticket): Phase { if t < |s.requests| then s.requests[t].phase else Refused }

  function WithPhase(requests: seq<Request>, t: Ticket, phase: Phase): seq<Request> {
    if t < |requests| then requests[t := requests[t].(phase := phase)] else requests
  }

  /** A timeout or abort of an attempt that no longer waits, and disposing a released grant, do nothing. */
  function Step(s: State, e: Event): State {
    match e
    case TryLock(key, timeoutMs, aborted) =>
      var t := |s.requests|;
      var (states, phase) := Attempted(s.states, key, timeoutMs, aborted, t);
      State(states, s.requests + [Request(key, phase)], if phase.Holding? then s.grants[key := GrantsOf(s, key) + [t]]
        else s.grants)
    case Timeout(t) =>
      if !PhaseOf(s, t).Waiting? then s
      else State(Left(s.states, s.requests[t].key, t), WithPhase(s.requests, t, TimedOut), s.grants)
    case Abort(t) =>
      if !PhaseOf(s, t).Waiting? then s
      else State(Left(s.states, s.requests[t].key, t), WithPhase(s.requests, t, Cancelled), s.grants)
    case Dispose(t) =>
      if !PhaseOf(s, t).Holding? then s
      else
        var key := s.requests[t].key;
        var (states, next) := Handed(s.states, key);
        var requests := WithPhase(s.requests, t, Released);
        if next.None? then State(states, requests, s.grants)
        else State(states, WithPhase(requests, next.value, Holding), s.grants[key := GrantsOf(s, key) + [next.value]])
  }

  function Run(s: State, events: seq<Event>): State
    decreases |events|
  {
    if events == [] then s else Run(Step(s, events[0]), events[1..])
  }

  ghost predicate Increasing(s: seq<Ticket>) { forall i, j :: 0 <= i < j < |s| ==> s[i] < s[j] }

  ghost predicate ValidRequest(s: State, key: Key, t: Ticket) {
    var phase := PhaseOf(s, t);
    && (phase.Waiting? <==> t in WaitersOf(s, key))
    && (phase.Holding? || phase.Released? <==> t in GrantsOf(s, key))
    && (phase.Holding? <==> Some(t) == HolderOf(s, key))
  }

  /**
   * The state of one key: those granted so far followed by those waiting are in order of arrival; only the last one
   * granted can hold the lock, and the key has a state exactly while it does.
   */
  ghost predicate ValidKey(s: State, key: Key) {
    var granted, waiters := GrantsOf(s, key), WaitersOf(s, key);
    && Increasing(granted + waiters)
    && (forall x :: x in granted || x in waiters ==> x < |s.requests| && s.requests[x].key == key)
    && (forall t :: 0 <= t < |s.requests| && s.requests[t].key == key ==> ValidRequest(s, key, t))
    && (key in s.states ==> s.states[key].locked && granted != [])
  }

  /** Whoever was granted an existing lock last holds it. */
  function HolderOf(s: State, key: Key): (t: Option<Ticket>)
    ensures t.Some? ==> t.value in GrantsOf(s, key)
  {
    var granted := GrantsOf(s, key);
    if key in s.states && granted != [] then Some(granted[|granted| - 1]) else None
  }

  ghost predicate Inv(s: State) { forall key :: ValidKey(s, key) }

  /** A step on one key leaves the others valid. */
  lemma OtherKeyStays(s: State, s': State, key: Key)
    requires ValidKey(s, key)
    requires GrantsOf(s', key) == GrantsOf(s, key) && WaitersOf(s', key) == WaitersOf(s, key)
    requires key in s'.states <==> key in s.states
    requires key in s.states ==> s'.states[key] == s.states[key]
    requires |s.requests| <= |s'.requests|
    requires forall t :: 0 <= t < |s.requests| ==>
      s'.requests[t].key == s.requests[t].key && (s.requests[t].key == key ==> s'.requests[t] == s.requests[t])
    requires forall t :: |s.requests| <= t < |s'.requests| ==> s'.requests[t].key == key ==>
      s'.requests[t].phase.Refused? || s'.requests[t].phase.Cancelled?
    ensures ValidKey(s', key)
  {
  }

  lemma ArrivesLast(granted: seq<Ticket>, waiters: seq<Ticket>, t: Ticket)
    requires Increasing(granted + waiters) && forall x :: x in granted || x in waiters ==> x < t
    ensures Increasing(granted + waiters + [t])
  {
    var queue := granted + waiters;
    assert forall k :: 0 <= k < |queue| ==> queue[k] in granted || queue[k] in waiters;
  }

  /** The new attempt goes to the end of the queue, or nowhere. */
  lemma QueueAfterTryLock(s: State, key: Key, timeoutMs: int, aborted: bool)
    requires ValidKey(s, key)
    ensures var s' := Step(s, TryLock(key, timeoutMs, aborted));
      var phase := s'.requests[|s.requests|].phase;
      GrantsOf(s', key) + WaitersOf(s', key)
        == GrantsOf(s, key) + WaitersOf(s, key) + (if phase.Holding? || phase.Waiting? then [|s.requests|] else [])
  {
  }

  lemma RequestAfterTryLock(s: State, key: Key, timeoutMs: int, aborted: bool, x: Ticket)
    requires ValidKey(s, key)
    requires var s' := Step(s, TryLock(key, timeoutMs, aborted)); x < |s'.requests| && s'.requests[x].key == key
    ensures ValidRequest(Step(s, TryLock(key, timeoutMs, aborted)), key, x)
  {
  }

  lemma TryLockKeepsKey(s: State, key: Key, timeoutMs: int, aborted: bool)
    requires ValidKey(s, key)
    ensures ValidKey(Step(s, TryLock(key, timeoutMs, aborted)), key)
  {
    var s' := Step(s, TryLock(key, timeoutMs, aborted));
    QueueAfterTryLock(s, key, timeoutMs, aborted);
    ArrivesLast(GrantsOf(s, key), WaitersOf(s, key), |s.requests|);
    forall x | 0 <= x < |s'.requests| && s'.requests[x].key == key ensures ValidRequest(s', key, x) {
      RequestAfterTryLock(s, key, timeoutMs, aborted, x);
    }
  }

  lemma TryLockKeepsInv(s: State, key: Key, timeoutMs: int, aborted: bool)
    requires Inv(s)
    ensures Inv(Step(s, TryLock(key, timeoutMs, aborted)))
  {
    TryLockKeepsKey(s, key, timeoutMs, aborted);
    forall k ensures ValidKey(Step(s, TryLock(key, timeoutMs, aborted)), k) {
      if k != key { OtherKeyStays(s, Step(s, TryLock(key, timeoutMs, aborted)), k); }
    }
  }

  lemma SplicedIncreasing(granted: seq<Ticket>, waiters: seq<Ticket>, t: Ticket)
    requires Increasing(granted + waiters)
    ensures Increasing(granted + Spliced(waiters, t))
    ensures forall x :: x in Spliced(waiters, t) <==> x in waiters && x != t
  {
    var i := IndexOf(waiters, t);
    if i >= 0 {
      var rest := Spliced(waiters, t);
      var before, after := granted + waiters, granted + rest;
      assert forall k :: 0 <= k < |after| ==> after[k] == before[if k < |granted| + i then k else k + 1];
      forall x | x in waiters && x != t ensures x in rest {
        var k :| 0 <= k < |waiters| && waiters[k] == x;
        assert x == rest[if k < i then k else k - 1];
      }
      forall k | 0 <= k < |rest| ensures rest[k] != t && rest[k] in waiters {
        assert rest[k] == after[|granted| + k];
        assert before[|granted| + i] == t;
      }
    }
  }

  lemma LeaveKeepsInv(s: State, t: Ticket, e: Event)
    requires Inv(s) && (e == Timeout(t) || e == Abort(t))
    ensures Inv(Step(s, e))
  {
    var s' := Step(s, e);
    if PhaseOf(s, t).Waiting? {
      var key := s.requests[t].key;
      assert ValidKey(s, key);
      SplicedIncreasing(GrantsOf(s, key), WaitersOf(s, key), t);
      assert WaitersOf(s', key) == Spliced(WaitersOf(s, key), t);
      assert ValidKey(s', key);
      forall k ensures ValidKey(s', k) {
        assert ValidKey(s, k);
        if k != key { OtherKeyStays(s, s', k); }
      }
    }
  }

  lemma DisposeKeepsInv(s: State, t: Ticket)
    requires Inv(s)
    ensures Inv(Step(s, Dispose(t)))
  {
    var s' := Step(s, Dispose(t));
    if PhaseOf(s, t).Holding? {
      var key := s.requests[t].key;
      assert ValidKey(s, key) && ValidRequest(s, key, t);
      var granted, waiters := GrantsOf(s, key), WaitersOf(s, key);
      assert GrantsOf(s', key) + WaitersOf(s', key) == granted + waiters;
      if waiters != [] { HandOver(granted, waiters); }
      forall x | 0 <= x < |s'.requests| && s'.requests[x].key == key ensures ValidRequest(s', key, x) {
        assert ValidRequest(s, key, x);
      }
      forall k ensures ValidKey(s', k) {
        assert ValidKey(s, k);
        if k != key { OtherKeyStays(s, s', k); }
      }
    }
  }

  lemma HandOver(granted: seq<Ticket>, waiters: seq<Ticket>)
    requires waiters != [] && Increasing(granted + waiters)
    ensures waiters[0] !in granted && waiters[0] !in waiters[1..]
    ensures forall x :: x in waiters <==> x == waiters[0] || x in waiters[1..]
  {
    var queue := granted + waiters;
    assert forall k :: 0 <= k < |granted| ==> granted[k] == queue[k];
    assert forall k :: 0 <= k < |waiters| ==> waiters[k] == queue[|granted| + k];
    assert waiters == [waiters[0]] + waiters[1..];
  }

  lemma {:induction false} RunKeepsInv(s: State, events: seq<Event>)
    requires Inv(s)
    ensures Inv(Run(s, events))
    decreases |events|
  {
    if events != [] {
      match events[0] {
        case TryLock(key, timeoutMs, aborted) => TryLockKeepsInv(s, key, timeoutMs, aborted);
        case Dispose(t) => DisposeKeepsInv(s, t);
        case _ => LeaveKeepsInv(s, events[0].t, events[0]);
      }
      RunKeepsInv(Step(s, events[0]), events[1..]);
    }
  }

  lemma Reachable(events: seq<Event>)
    ensures Inv(Run(INITIAL, events))
  {
    RunKeepsInv(INITIAL, events);
  }

  predicate Holds(s: State, key: Key, t: Ticket) { t < |s.requests| && s.requests[t] == Request(key, Holding) }

  predicate Waits(s: State, key: Key, t: Ticket) { t < |s.requests| && s.requests[t] == Request(key, Waiting) }

  predicate WasGranted(s: State, key: Key, t: Ticket) {
    t < |s.requests| && (s.requests[t] == Request(key, Holding) || s.requests[t] == Request(key, Released))
  }

  /** A key has a state, and is locked, exactly while one attempt holds it, and never two at once. */
  lemma OneHolder(events: seq<Event>, key: Key)
    ensures var s := Run(INITIAL, events);
      && (key in s.states <==> exists t: Ticket :: Holds(s, key, t))
      && (key in s.states ==> s.states[key].locked)
      && forall t: Ticket, u: Ticket :: Holds(s, key, t) && Holds(s, key, u) ==> t == u
  {
    Reachable(events);
    var s := Run(INITIAL, events);
    assert ValidKey(s, key);
    if key in s.states {
      var t := HolderOf(s, key).value;
      assert ValidRequest(s, key, t) && Holds(s, key, t);
    }
    forall t: Ticket | Holds(s, key, t) ensures Some(t) == HolderOf(s, key) {
      assert ValidRequest(s, key, t);
    }
  }

  /** The lock is granted in order of arrival: nobody is granted a key while an earlier attempt for it still waits. */
  lemma Fair(events: seq<Event>, key: Key, t: Ticket, u: Ticket)
    requires var s := Run(INITIAL, events); Waits(s, key, t) && WasGranted(s, key, u)
    ensures u < t
  {
    Reachable(events);
    var s := Run(INITIAL, events);
    assert ValidKey(s, key) && ValidRequest(s, key, t) && ValidRequest(s, key, u);
    var granted, waiters := GrantsOf(s, key), WaitersOf(s, key);
    var i :| 0 <= i < |granted| && granted[i] == u;
    var j :| 0 <= j < |waiters| && waiters[j] == t;
    assert (granted + waiters)[i] == u && (granted + waiters)[|granted| + j] == t;
  }

  /** Each attempt is granted at most once, and the record of grants is in order of arrival. */
  lemma GrantsInOrder(events: seq<Event>, key: Key)
    ensures var s := Run(INITIAL, events);
      && (forall t: Ticket :: t in GrantsOf(s, key) <==> WasGranted(s, key, t))
      && Increasing(GrantsOf(s, key))
  {
    Reachable(events);
    var s := Run(INITIAL, events);
    assert ValidKey(s, key);
    var granted, waiters := GrantsOf(s, key), WaitersOf(s, key);
    assert forall k :: 0 <= k < |granted| ==> granted[k] == (granted + waiters)[k];
    forall t: Ticket ensures t in granted <==> WasGranted(s, key, t) {
      if t < |s.requests| && s.requests[t].key == key { assert ValidRequest(s, key, t); }
    }
  }

  /**
   * No wake-up is lost: while anybody waits somebody holds, and disposing that grant hands over to the earliest waiter.
   */
  lemma NoLostWakeUp(events: seq<Event>, key: Key, t: Ticket)
    requires Waits(Run(INITIAL, events), key, t)
    ensures var s := Run(INITIAL, events);
      && HolderOf(s, key).Some? && WaitersOf(s, key) != []
      && var h, first := HolderOf(s, key).value, WaitersOf(s, key)[0];
        && Holds(s, key, h) && Waits(s, key, first)
        && (forall u: Ticket :: Waits(s, key, u) ==> first <= u)
        && Holds(Step(s, Dispose(h)), key, first)
  {
    Reachable(events);
    var s := Run(INITIAL, events);
    assert ValidKey(s, key) && ValidRequest(s, key, t);
    var h := HolderOf(s, key).value;
    assert ValidRequest(s, key, h);
    var granted, waiters := GrantsOf(s, key), WaitersOf(s, key);
    var first := waiters[0];
    assert ValidRequest(s, key, first);
    forall u: Ticket | Waits(s, key, u) ensures first <= u {
      assert ValidRequest(s, key, u);
      var j :| 0 <= j < |waiters| && waiters[j] == u;
      assert (granted + waiters)[|granted|] == first && (granted + waiters)[|granted| + j] == u;
    }
  }

  /** Disposing whoever holds the key, `n` times over. */
  function DisposedTimes(s: State, key: Key, n: nat): State
    decreases n
  {
    if n == 0 || HolderOf(s, key).None? then s else DisposedTimes(Step(s, Dispose(HolderOf(s, key).value)), key, n - 1)
  }

  /** So a waiter behind `i` others holds the lock after `i + 1` disposals. */
  lemma {:induction false} EveryWaiterServed(s: State, key: Key, i: nat)
    requires Inv(s) && i < |WaitersOf(s, key)|
    ensures Holds(DisposedTimes(s, key, i + 1), key, WaitersOf(s, key)[i])
    decreases i
  {
    assert ValidKey(s, key);
    var h := HolderOf(s, key).value;
    assert ValidRequest(s, key, h);
    var s' := Step(s, Dispose(h));
    var first := WaitersOf(s, key)[0];
    assert ValidRequest(s, key, first);
    assert Holds(s', key, first) && WaitersOf(s', key) == WaitersOf(s, key)[1..];
    DisposeKeepsInv(s, h);
    if i == 0 {
      assert DisposedTimes(s', key, 0) == s';
    } else {
      EveryWaiterServed(s', key, i - 1);
    }
  }

  /** Disposing a grant again changes nothing, whoever holds the lock by then. */
  lemma {:induction false} DisposeIdempotent(s: State, t: Ticket, events: seq<Event>)
    requires Inv(s) && t < |s.requests| && s.requests[t].phase.Released?
    ensures Step(Run(s, events), Dispose(t)) == Run(s, events)
    decreases |events|
  {
    if events != [] {
      var s' := Step(s, events[0]);
      RunKeepsInv(s, events[..1]);
      assert events[..1][1..] == [] && Run(s', []) == s';
      if events[0].Dispose? && PhaseOf(s, events[0].t).Holding? {
        var key := s.requests[events[0].t].key;
        assert ValidKey(s, key);
        if WaitersOf(s, key) != [] { assert ValidRequest(s, key, WaitersOf(s, key)[0]); }
      }
      DisposeIdempotent(s', t, events[1..]);
    }
  }
}
