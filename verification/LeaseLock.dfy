/**
 * The DynamoDB lease lock: a lock is one item, written conditionally, with a lease that its owner renews and a TTL the
 * table sweeps by. Requests may be delayed arbitrarily between the moment they read the clock and the moment they
 * apply.
 */
module LeaseLock {
  import opened Common

  /** Owners are unique per acquisition; `expiresAt` is in milliseconds, `ttl` in seconds. */
  type Owner = nat
  datatype Item = Item(owner: Owner, expiresAt: int, ttl: int)

  /** Rounded up to seconds, one extra lease after the expiry. */
  function ToTtl(expiresAt: int, lease: nat): (ttl: int)
    ensures (ttl - 1) * 1000 < expiresAt + lease <= ttl * 1000
  {
    (expiresAt + lease + 999) / 1000
  }

  function LeaseFrom(owner: Owner, sentAt: int, lease: nat): Item {
    Item(owner, sentAt + lease, ToTtl(sentAt + lease, lease))
  }

  function Owns(item: Option<Item>, owner: Owner): bool { item.Some? && item.value.owner == owner }

  /** `attribute_not_exists(pk) OR expiresAt < :now`, where `:now` is the time the request was made. */
  predicate CanPut(item: Option<Item>, sentAt: int) { item.None? || item.value.expiresAt < sentAt }

  function AfterPut(item: Option<Item>, owner: Owner, sentAt: int, lease: nat): Option<Item> {
    if CanPut(item, sentAt) then Some(LeaseFrom(owner, sentAt, lease)) else item
  }

  function AfterRenew(item: Option<Item>, owner: Owner, sentAt: int, lease: nat): Option<Item> {
    if Owns(item, owner) then Some(LeaseFrom(owner, sentAt, lease)) else item
  }

  function AfterRelease(item: Option<Item>, owner: Owner): Option<Item> {
    if Owns(item, owner) then None else item
  }

  /** The table may delete an item any time after its TTL. */
  predicate CanSweep(item: Option<Item>, now: int) { item.Some? && item.value.ttl * 1000 < now }

  // ---------------------------------------------------------------- the lock and its handles

  type Items = map<string, Item>

  function Lookup(items: Items, key: string): Option<Item> { if key in items then Some(items[key]) else None }

  /** Nothing but the item at `key` differs. */
  ghost predicate OthersSame(items: Items, items': Items, key: string) {
    forall k :: k != key ==> Lookup(items, k) == Lookup(items', k)
  }

  /** The lock items of the table, together with the clock. */
  class LockTable {
    var items: Items
    var now: int

    constructor (now: int)
      ensures items == map[] && this.now == now
    {
      items, this.now := map[], now;
    }

    function ItemAt(key: string): Option<Item>
      reads this
    {
      Lookup(items, key)
    }

    /** At least `ms` milliseconds pass, in which other clients and the table's sweep may do anything to the items. */
    method Elapse(ms: nat)
      modifies this
      ensures now >= old(now) + ms
    {
      var later :| later >= now + ms;
      now := later;
      items := *;
    }

    method Put(key: string, owner: Owner, sentAt: int, lease: nat) returns (ok: bool)
      modifies this`items
      ensures ok == CanPut(old(ItemAt(key)), sentAt)
      ensures ItemAt(key) == AfterPut(old(ItemAt(key)), owner, sentAt, lease)
      ensures OthersSame(old(items), items, key)
    {
      ok := key !in items || items[key].expiresAt < sentAt;
      if ok { items := items[key := LeaseFrom(owner, sentAt, lease)]; }
    }

    method Update(key: string, owner: Owner, sentAt: int, lease: nat) returns (ok: bool)
      modifies this`items
      ensures ok == Owns(old(ItemAt(key)), owner)
      ensures ItemAt(key) == AfterRenew(old(ItemAt(key)), owner, sentAt, lease)
      ensures OthersSame(old(items), items, key)
    {
      ok := key in items && items[key].owner == owner;
      if ok { items := items[key := items[key].(expiresAt := sentAt + lease, ttl := ToTtl(sentAt + lease, lease))]; }
    }

    method Delete(key: string, owner: Owner) returns (ok: bool)
      modifies this`items
      ensures ok == Owns(old(ItemAt(key)), owner)
      ensures ItemAt(key) == AfterRelease(old(ItemAt(key)), owner)
      ensures OthersSame(old(items), items, key)
    {
      ok := key in items && items[key].owner == owner;
      if ok { items := items - {key}; }
    }
  }

  datatype Acquisition = Acquired(handle: LockHandle) | TimedOut | Aborted

  class DistributedLock {
    const table: LockTable
    const leaseDurationMs: nat
    const pollIntervalMs: nat
    const keyPrefix: string

    constructor (table: LockTable, leaseDurationMs: nat, pollIntervalMs: nat, keyPrefix: string)
      ensures this.table == table && this.leaseDurationMs == leaseDurationMs
      ensures this.pollIntervalMs == pollIntervalMs && this.keyPrefix == keyPrefix
    {
      this.table, this.leaseDurationMs, this.pollIntervalMs, this.keyPrefix :=
        table, leaseDurationMs, pollIntervalMs, keyPrefix;
    }

    /** Reads the clock, then the request travels for a while before it is applied to what it finds. */
    method TryPut(key: string, owner: Owner) returns (ok: bool, ghost sentAt: int, ghost found: Items)
      modifies table
      ensures sentAt == old(table.now) <= table.now
      ensures ok == CanPut(Lookup(found, key), sentAt)
      ensures table.ItemAt(key) == AfterPut(Lookup(found, key), owner, sentAt, leaseDurationMs)
      ensures OthersSame(found, table.items, key)
    {
      var now := table.now;
      sentAt := now;
      table.Elapse(0);
      found := table.items;
      ok := table.Put(key, owner, now, leaseDurationMs);
    }

    /**
     * Polls until the put succeeds or the deadline has passed; a timer never fires before a millisecond has passed.
     * `abortAfter` is the number of attempts before the abort signal fires. The lock is denied only after the full
     * timeout, and only while somebody else's lease was live.
     */
    method TryAcquire(name: string, owner: Owner, timeoutMs: int, abortAfter: Option<nat>)
        returns (result: Acquisition, ghost sentAt: int)
      modifies table
      ensures table.now >= old(table.now)
      ensures result.Acquired? ==>
        && fresh(result.handle) && result.handle.IsFor(this, keyPrefix + name, owner) && !result.handle.released
        && old(table.now) <= sentAt <= table.now
        && table.ItemAt(keyPrefix + name) == Some(LeaseFrom(owner, sentAt, leaseDurationMs))
      ensures result.TimedOut? ==>
        && table.now >= old(table.now) + Max(0, timeoutMs)
        && table.ItemAt(keyPrefix + name).Some? &&
          table.ItemAt(keyPrefix + name).value.expiresAt >= sentAt >= old(table.now)
      ensures result.Aborted? ==> abortAfter.Some?
    {
      var key := keyPrefix + name;
      var deadline := table.now + Max(0, timeoutMs);
      var attempts := 0;
      sentAt := table.now;
      while true
        invariant table.now >= old(table.now)
        decreases deadline - table.now
      {
        if abortAfter.Some? && attempts >= abortAfter.value { return Aborted, sentAt; }
        var ok;
        ghost var found;
        ok, sentAt, found := TryPut(key, owner);
        if ok {
          var handle := new LockHandle(this, key, owner);
          return Acquired(handle), sentAt;
        }
        var remaining := deadline - table.now;
        if remaining <= 0 { return TimedOut, sentAt; }
        table.Elapse(Max(1, Min(pollIntervalMs, remaining)));
        attempts := attempts + 1;
      }
    }

    method Renew(key: string, owner: Owner) returns (ok: bool, ghost sentAt: int, ghost found: Items)
      modifies table
      ensures sentAt == old(table.now) <= table.now
      ensures ok == Owns(Lookup(found, key), owner)
      ensures table.ItemAt(key) == AfterRenew(Lookup(found, key), owner, sentAt, leaseDurationMs)
      ensures OthersSame(found, table.items, key)
    {
      var now := table.now;
      sentAt := now;
      table.Elapse(0);
      found := table.items;
      ok := table.Update(key, owner, now, leaseDurationMs);
    }

    method Release(key: string, owner: Owner) returns (ghost found: Items)
      modifies table
      ensures table.now >= old(table.now)
      ensures table.ItemAt(key) == AfterRelease(Lookup(found, key), owner)
      ensures OthersSame(found, table.items, key)
    {
      table.Elapse(0);
      found := table.items;
      var ok := table.Delete(key, owner);
    }
  }

  class LockHandle {
    const theLock: DistributedLock
    const key: string
    const owner: Owner
    var released: bool
    var timer: bool

    predicate IsFor(l: DistributedLock, key: string, owner: Owner) {
      theLock == l && this.key == key && this.owner == owner
    }

    constructor (l: DistributedLock, key: string, owner: Owner)
      ensures IsFor(l, key, owner) && !released && timer
    {
      theLock, this.key, this.owner, released, timer := l, key, owner, false, true;
    }

    /** A tick of the renewal timer; sends nothing once the handle is disposed. */
    method Renew() returns (ghost sentAt: int, ghost found: Items)
      modifies theLock.table
      ensures released ==>
        theLock.table.items == old(theLock.table.items) && theLock.table.now == old(theLock.table.now)
      ensures !released ==>
        && sentAt == old(theLock.table.now)
        && theLock.table.ItemAt(key) == AfterRenew(Lookup(found, key), owner, sentAt, theLock.leaseDurationMs)
        && OthersSame(found, theLock.table.items, key)
    {
      sentAt, found := theLock.table.now, theLock.table.items;
      if released { return; }
      var ok;
      ok, sentAt, found := theLock.Renew(key, owner);
    }

    /** Releases once: disposing again sends nothing, even if the same owner's item were there. */
    method Dispose() returns (ghost found: Items)
      modifies this, theLock.table
      ensures released && (!old(released) ==> !timer)
      ensures old(released) ==>
        theLock.table.items == old(theLock.table.items) && theLock.table.now == old(theLock.table.now)
      ensures !old(released) ==>
        && theLock.table.ItemAt(key) == AfterRelease(Lookup(found, key), owner)
        && OthersSame(found, theLock.table.items, key)
    {
      found := theLock.table.items;
      if released { return; }
      released := true;
      timer := false;
      found := theLock.Release(key, owner);
    }
  }

  // ---------------------------------------------------------------- the protocol of one lock key

  /**
   * One acquisition. `put`: when the put now in flight was sent; `granted`: when the put or renewal that the item's
   * lease comes from was sent; `renewals`: when the renewals in flight were sent, oldest first.
   */
  datatype Client = Client(put: Option<int>, holds: bool, granted: int, renewals: seq<int>, released: bool,
      releasing: bool)

  datatype State = State(now: int, item: Option<Item>, clients: map<Owner, Client>)

  datatype Event =
    | Tick(to: int)
    | SendPut(owner: Owner)
    | ApplyPut(owner: Owner)
    | SendRenew(owner: Owner)
    | ApplyRenew(owner: Owner, position: nat)
    | LoseRenew(owner: Owner, position: nat)
    | SendRelease(owner: Owner)
    | ApplyRelease(owner: Owner)
    | Sweep

  const NEW_CLIENT := Client(None, false, 0, [], false, false)

  function ClientOf(s: State, o: Owner): Client { if o in s.clients then s.clients[o] else NEW_CLIENT }

  function Initial(now: int): State { State(now, None, map[]) }

  function With(s: State, item: Option<Item>, o: Owner, c: Client): State {
    State(s.now, item, s.clients[o := c])
  }

  function Without(renewals: seq<int>, position: nat): (r: seq<int>)
    requires position < |renewals|
    ensures |r| == |renewals| - 1
    ensures forall i :: 0 <= i < |r| ==> r[i] == renewals[if i < position then i else i + 1]
  {
    renewals[..position] + renewals[position + 1..]
  }

  /** Events that cannot happen in a state leave it as it is. Renewals arrive in any order, or are lost. */
  function Step(s: State, e: Event, lease: nat): State {
    match e
    case Tick(to) => if to < s.now then s else s.(now := to)
    case SendPut(o) =>
      var c := ClientOf(s, o);
      if c.holds || c.put.Some? then s else With(s, s.item, o, c.(put := Some(s.now)))
    case ApplyPut(o) =>
      var c := ClientOf(s, o);
      if c.put.None? then s
      else if CanPut(s.item, c.put.value) then
        With(s, AfterPut(s.item, o, c.put.value, lease), o, c.(put := None, holds := true, granted := c.put.value))
      else With(s, s.item, o, c.(put := None))
    case SendRenew(o) =>
      var c := ClientOf(s, o);
      if !c.holds || c.released then s else With(s, s.item, o, c.(renewals := c.renewals + [s.now]))
    case ApplyRenew(o, position) =>
      var c := ClientOf(s, o);
      if position >= |c.renewals| then s
      else
        var sentAt := c.renewals[position];
        With(s, AfterRenew(s.item, o, sentAt, lease), o,
          c.(renewals := Without(c.renewals, position), granted := if Owns(s.item, o) then sentAt else c.granted))
    case LoseRenew(o, position) =>
      var c := ClientOf(s, o);
      if position >= |c.renewals| then s else With(s, s.item, o, c.(renewals := Without(c.renewals, position)))
    case SendRelease(o) =>
      var c := ClientOf(s, o);
      if !c.holds || c.released then s else With(s, s.item, o, c.(released := true, releasing := true))
    case ApplyRelease(o) =>
      var c := ClientOf(s, o);
      if !c.releasing then s else With(s, AfterRelease(s.item, o), o, c.(releasing := false))
    case Sweep => if CanSweep(s.item, s.now) then s.(item := None) else s
  }

  function Run(s: State, events: seq<Event>, lease: nat): State
    decreases |events|
  {
    if events == [] then s else Run(Step(s, events[0], lease), events[1..], lease)
  }

  /** The owner may believe in its lock: it has not disposed it, and its last granted lease still runs. */
  predicate Protected(s: State, o: Owner, lease: nat) {
    var c := ClientOf(s, o);
    c.holds && !c.released && s.now <= c.granted + lease
  }

  ghost predicate ValidClient(s: State, o: Owner, lease: nat) {
    var c := ClientOf(s, o);
    && (c.put.Some? ==> c.put.value <= s.now && !c.holds)
    && (c.holds ==> c.granted <= s.now)
    && (!c.holds ==> c.renewals == [] && !c.released)
    && (forall i :: 0 <= i < |c.renewals| ==> c.renewals[i] <= s.now)
    && (c.releasing ==> c.released)
    && (Protected(s, o, lease) ==> Owns(s.item, o))
  }

  ghost predicate Inv(s: State, lease: nat) {
    && (forall o :: ValidClient(s, o, lease))
    && (s.item.Some? ==>
      var c := ClientOf(s, s.item.value.owner);
      c.holds && s.item.value == LeaseFrom(s.item.value.owner, c.granted, lease))
  }

  /** The core of the protocol: while a lease runs, neither the clock of a put nor the sweep can have passed it. */
  lemma LeaseHolds(s: State, o: Owner, lease: nat)
    requires Inv(s, lease) && Protected(s, o, lease)
    ensures Owns(s.item, o) && !CanSweep(s.item, s.now)
    ensures forall t :: t <= s.now ==> !CanPut(s.item, t)
  {
    assert ValidClient(s, o, lease);
  }

  lemma ApplyPutKeepsInv(s: State, o: Owner, lease: nat)
    requires Inv(s, lease)
    ensures Inv(Step(s, ApplyPut(o), lease), lease)
  {
    var s' := Step(s, ApplyPut(o), lease);
    assert ValidClient(s, o, lease);
    forall p ensures ValidClient(s', p, lease) {
      assert ValidClient(s, p, lease);
      if Protected(s, p, lease) { LeaseHolds(s, p, lease); }
    }
  }

  lemma RenewerStaysValid(s: State, o: Owner, k: nat, lease: nat)
    requires ValidClient(s, o, lease) && k < |ClientOf(s, o).renewals|
    ensures ValidClient(Step(s, ApplyRenew(o, k), lease), o, lease)
    ensures ClientOf(Step(s, ApplyRenew(o, k), lease), o).holds
  {
  }

  lemma ApplyRenewKeepsInv(s: State, o: Owner, k: nat, lease: nat)
    requires Inv(s, lease)
    ensures Inv(Step(s, ApplyRenew(o, k), lease), lease)
  {
    var s' := Step(s, ApplyRenew(o, k), lease);
    if k < |ClientOf(s, o).renewals| {
      RenewerStaysValid(s, o, k, lease);
      forall p | p != o ensures ValidClient(s', p, lease) {
        assert ValidClient(s, p, lease);
      }
    }
  }

  lemma LoseRenewKeepsInv(s: State, o: Owner, k: nat, lease: nat)
    requires Inv(s, lease)
    ensures Inv(Step(s, LoseRenew(o, k), lease), lease)
  {
    var s' := Step(s, LoseRenew(o, k), lease);
    forall p ensures ValidClient(s', p, lease) {
      assert ValidClient(s, p, lease);
    }
  }

  lemma ReleaseOrSweepKeepsInv(s: State, e: Event, lease: nat)
    requires Inv(s, lease) && (e.SendRelease? || e.ApplyRelease? || e.Sweep?)
    ensures Inv(Step(s, e, lease), lease)
  {
    var s' := Step(s, e, lease);
    if !e.Sweep? { assert ValidClient(s, e.owner, lease); }
    forall p ensures ValidClient(s', p, lease) {
      assert ValidClient(s, p, lease);
      if Protected(s, p, lease) { LeaseHolds(s, p, lease); }
    }
  }

  lemma SendKeepsInv(s: State, e: Event, lease: nat)
    requires Inv(s, lease) && (e.Tick? || e.SendPut? || e.SendRenew?)
    ensures Inv(Step(s, e, lease), lease)
  {
    var s' := Step(s, e, lease);
    forall p ensures ValidClient(s', p, lease) {
      assert ValidClient(s, p, lease);
    }
  }

  lemma StepKeepsInv(s: State, e: Event, lease: nat)
    requires Inv(s, lease)
    ensures Inv(Step(s, e, lease), lease)
  {
    match e {
      case ApplyPut(o) => ApplyPutKeepsInv(s, o, lease);
      case ApplyRenew(o, k) => ApplyRenewKeepsInv(s, o, k, lease);
      case LoseRenew(o, k) => LoseRenewKeepsInv(s, o, k, lease);
      case SendRelease(_) => ReleaseOrSweepKeepsInv(s, e, lease);
      case ApplyRelease(_) => ReleaseOrSweepKeepsInv(s, e, lease);
      case Sweep => ReleaseOrSweepKeepsInv(s, e, lease);
      case _ => SendKeepsInv(s, e, lease);
    }
  }

  lemma {:induction false} RunKeepsInv(s: State, events: seq<Event>, lease: nat)
    requires Inv(s, lease)
    ensures Inv(Run(s, events, lease), lease)
    decreases |events|
  {
    if events != [] {
      StepKeepsInv(s, events[0], lease);
      RunKeepsInv(Step(s, events[0], lease), events[1..], lease);
    }
  }

  /**
   * At any time the lease of at most one owner runs, going by the request applied last, and the item in the table is
   * its own. An owner that goes by its youngest renewal may believe in the lock longer: `LeaseIsSafeIff` says when.
   */
  lemma MutualExclusion(now: int, events: seq<Event>, lease: nat, o: Owner, p: Owner)
    requires var s := Run(Initial(now), events, lease); Protected(s, o, lease) && Protected(s, p, lease)
    ensures o == p && Owns(Run(Initial(now), events, lease).item, o)
  {
    RunKeepsInv(Initial(now), events, lease);
    LeaseHolds(Run(Initial(now), events, lease), o, lease);
    LeaseHolds(Run(Initial(now), events, lease), p, lease);
  }

  /**
   * While an owner's lease runs, no other put in flight can succeed, however old, and the sweep cannot delete the item.
   */
  lemma LeaseExclusive(now: int, events: seq<Event>, lease: nat, o: Owner, p: Owner)
    requires Protected(Run(Initial(now), events, lease), o, lease) && p != o
    ensures var s := Run(Initial(now), events, lease);
      && Step(s, ApplyPut(p), lease).item == s.item
      && ClientOf(Step(s, ApplyPut(p), lease), p).holds == ClientOf(s, p).holds
      && Step(s, Sweep, lease) == s
  {
    RunKeepsInv(Initial(now), events, lease);
    var s := Run(Initial(now), events, lease);
    LeaseHolds(s, o, lease);
    assert ValidClient(s, p, lease);
  }

  /**
   * Once its item is gone or taken over, a holder never owns the lock again, whatever of its requests still arrives.
   */
  lemma {:induction false} LostForGood(s: State, events: seq<Event>, lease: nat, o: Owner)
    requires Inv(s, lease) && ClientOf(s, o).holds && !Owns(s.item, o)
    ensures !Owns(Run(s, events, lease).item, o)
    decreases |events|
  {
    if events != [] {
      assert ValidClient(s, o, lease);
      StepKeepsInv(s, events[0], lease);
      LostForGood(Step(s, events[0], lease), events[1..], lease, o);
    }
  }

  /**
   * So a former owner's late renewals and release never touch a successor's item and never bring a deleted one back.
   */
  lemma FormerOwnerHarmless(s: State, events: seq<Event>, lease: nat, o: Owner, k: nat)
    requires Inv(s, lease) && ClientOf(s, o).holds && !Owns(s.item, o)
    ensures var t := Run(s, events, lease);
      && Step(t, ApplyRenew(o, k), lease).item == t.item
      && Step(t, ApplyRelease(o), lease).item == t.item
  {
    LostForGood(s, events, lease, o);
  }

  // ---------------------------------------------------------------- how long a lease lasts

  /** No renewal in flight is older than the one the present lease comes from. */
  predicate NoStaleRenewal(s: State, o: Owner) {
    var c := ClientOf(s, o);
    forall k :: 0 <= k < |c.renewals| ==> c.granted <= c.renewals[k]
  }

  /** Every lease from now on, and every renewal in flight, is at least as young as `since`. */
  predicate AtLeast(s: State, o: Owner, since: int) {
    var c := ClientOf(s, o);
    c.holds && !c.released && since <= c.granted && since <= s.now
    && forall k :: 0 <= k < |c.renewals| ==> since <= c.renewals[k]
  }

  lemma StepKeepsAtLeast(s: State, e: Event, lease: nat, o: Owner, since: int)
    requires Inv(s, lease) && AtLeast(s, o, since) && e != SendRelease(o)
    ensures AtLeast(Step(s, e, lease), o, since)
  {
    assert ValidClient(s, o, lease);
  }

  lemma {:induction false} RunKeepsAtLeast(s: State, events: seq<Event>, lease: nat, o: Owner, since: int)
    requires Inv(s, lease) && AtLeast(s, o, since) && SendRelease(o) !in events
    ensures AtLeast(Run(s, events, lease), o, since)
    decreases |events|
  {
    if events != [] {
      StepKeepsAtLeast(s, events[0], lease, o, since);
      StepKeepsInv(s, events[0], lease);
      RunKeepsAtLeast(Step(s, events[0], lease), events[1..], lease, o, since);
    }
  }

  /**
   * Whatever happens, except that its owner disposes the handle, the lease the owner has now lasts for its full time.
   */
  ghost predicate LeaseIsSafe(s: State, lease: nat, o: Owner) {
    forall events: seq<Event> ::
      SendRelease(o) !in events && Run(s, events, lease).now <= ClientOf(s, o).granted + lease ==>
        Owns(Run(s, events, lease).item, o)
  }

  lemma NoStaleIsSafe(s: State, lease: nat, o: Owner)
    requires Inv(s, lease) && Protected(s, o, lease) && NoStaleRenewal(s, o)
    ensures LeaseIsSafe(s, lease, o)
  {
    assert ValidClient(s, o, lease);
    var since := ClientOf(s, o).granted;
    forall events: seq<Event> | SendRelease(o) !in events && Run(s, events, lease).now <= since + lease
      ensures Owns(Run(s, events, lease).item, o)
    {
      RunKeepsAtLeast(s, events, lease, o, since);
      RunKeepsInv(s, events, lease);
      LeaseHolds(Run(s, events, lease), o, lease);
    }
  }

  lemma RunCons(s: State, e: Event, rest: seq<Event>, lease: nat)
    ensures Run(s, [e] + rest, lease) == Run(Step(s, e, lease), rest, lease)
  {
    assert ([e] + rest)[1..] == rest;
  }

  /** A newcomer puts at time `t`. */
  function TakeOver(t: int, p: Owner): seq<Event> {
    [Tick(t)] + ([SendPut(p)] + ([ApplyPut(p)] + []))
  }

  lemma TakeOverSucceeds(s: State, lease: nat, t: int, p: Owner)
    requires p !in s.clients && s.now <= t && CanPut(s.item, t)
    ensures var s' := Run(s, TakeOver(t, p), lease); s'.now == t && Owns(s'.item, p)
  {
    var s1 := Step(s, Tick(t), lease);
    var s2 := Step(s1, SendPut(p), lease);
    RunCons(s, Tick(t), [SendPut(p)] + ([ApplyPut(p)] + []), lease);
    RunCons(s1, SendPut(p), [ApplyPut(p)] + [], lease);
    RunCons(s2, ApplyPut(p), [], lease);
  }

  /** A stale renewal cuts the lease short: at any time past its own lease a newcomer gets the lock. */
  lemma StaleRenewalLosesLock(s: State, lease: nat, o: Owner, k: nat, t: int, p: Owner)
    requires Inv(s, lease) && Owns(s.item, o) && k < |ClientOf(s, o).renewals| && p !in s.clients && p != o
    requires s.now <= t && ClientOf(s, o).renewals[k] + lease < t
    ensures var s' := Run(s, [ApplyRenew(o, k)] + TakeOver(t, p), lease); s'.now == t && Owns(s'.item, p)
  {
    RunCons(s, ApplyRenew(o, k), TakeOver(t, p), lease);
    TakeOverSucceeds(Step(s, ApplyRenew(o, k), lease), lease, t, p);
  }

  /** There is always another owner to come. */
  lemma {:induction false} Newcomer(owners: set<Owner>) returns (p: Owner)
    ensures forall o: Owner :: o in owners ==> o < p
    decreases |owners|
  {
    p := 0;
    if o: Owner :| o in owners {
      var q := Newcomer(owners - {o});
      p := if q > o then q else o + 1;
      assert forall x: Owner :: x in owners ==> x == o || x in owners - {o};
    }
  }

  /** A renewal that overtakes an older one leaves it behind as a stale one. */
  lemma OvertakingLeavesStale(s: State, lease: nat, o: Owner, i: nat, j: nat)
    requires Inv(s, lease) && Protected(s, o, lease) && i < |ClientOf(s, o).renewals| && j < |ClientOf(s, o).renewals|
    requires ClientOf(s, o).renewals[i] < ClientOf(s, o).renewals[j]
    ensures !NoStaleRenewal(Step(s, ApplyRenew(o, j), lease), o)
  {
    LeaseHolds(s, o, lease);
    var rest := ClientOf(Step(s, ApplyRenew(o, j), lease), o).renewals;
    assert rest[if i < j then i else i - 1] == ClientOf(s, o).renewals[i];
  }

  /**
   * Exactly: an owner's lease is safe for its full time, against every order of arrival and every loss of requests, if
   * and only if no renewal in flight is older than the one the lease comes from.
   */
  lemma LeaseIsSafeIff(s: State, lease: nat, o: Owner)
    requires Inv(s, lease) && Protected(s, o, lease)
    ensures LeaseIsSafe(s, lease, o) <==> NoStaleRenewal(s, o)
  {
    if NoStaleRenewal(s, o) {
      NoStaleIsSafe(s, lease, o);
    } else {
      var c := ClientOf(s, o);
      var k :| 0 <= k < |c.renewals| && c.granted > c.renewals[k];
      var p := Newcomer(s.clients.Keys);
      var t := c.granted + lease;
      LeaseHolds(s, o, lease);
      StaleRenewalLosesLock(s, lease, o, k, t, p);
      assert SendRelease(o) !in [ApplyRenew(o, k)] + TakeOver(t, p);
    }
  }

  /** The owner neither disposes nor has further renewals applied. */
  predicate Quiet(events: seq<Event>, o: Owner) {
    forall i :: 0 <= i < |events| ==> events[i] != SendRelease(o) && !(events[i].ApplyRenew? && events[i].owner == o)
  }

  /** The owner keeps the lock until then by the lease it has, whatever others do. */
  ghost predicate Survives(s: State, lease: nat, o: Owner, until: int) {
    forall events: seq<Event> :: Quiet(events, o) && Run(s, events, lease).now <= until ==>
      Owns(Run(s, events, lease).item, o)
  }

  lemma {:induction false} QuietKeepsGrant(s: State, events: seq<Event>, lease: nat, o: Owner)
    requires Inv(s, lease) && ClientOf(s, o).holds && Quiet(events, o)
    ensures var c, c' := ClientOf(s, o), ClientOf(Run(s, events, lease), o);
      c'.holds && c'.granted == c.granted && c'.released == c.released
    decreases |events|
  {
    if events != [] {
      assert ValidClient(s, o, lease);
      StepKeepsInv(s, events[0], lease);
      QuietKeepsGrant(Step(s, events[0], lease), events[1..], lease, o);
    }
  }

  /**
   * An arriving renewal lets the lease granted so far survive if and only if it is not older than that lease's own
   * request.
   */
  lemma RenewalKeepsLeaseIff(s: State, lease: nat, o: Owner, k: nat)
    requires Inv(s, lease) && Protected(s, o, lease) && k < |ClientOf(s, o).renewals|
    ensures Survives(Step(s, ApplyRenew(o, k), lease), lease, o, ClientOf(s, o).granted + lease)
      <==> ClientOf(s, o).renewals[k] >= ClientOf(s, o).granted
  {
    var s1, until, sentAt := Step(s, ApplyRenew(o, k), lease), ClientOf(s, o).granted + lease,
      ClientOf(s, o).renewals[k];
    LeaseHolds(s, o, lease);
    StepKeepsInv(s, ApplyRenew(o, k), lease);
    assert ClientOf(s1, o) == ClientOf(s, o).(renewals := Without(ClientOf(s, o).renewals, k), granted := sentAt);
    if sentAt >= ClientOf(s, o).granted {
      forall events: seq<Event> | Quiet(events, o) && Run(s1, events, lease).now <= until
        ensures Owns(Run(s1, events, lease).item, o) {
        QuietKeepsGrant(s1, events, lease, o);
        RunKeepsInv(s1, events, lease);
        LeaseHolds(Run(s1, events, lease), o, lease);
      }
    } else {
      var p := Newcomer(s1.clients.Keys);
      TakeOverSucceeds(s1, lease, until, p);
      assert Quiet(TakeOver(until, p), o) && o in s1.clients;
    }
  }

  // ---------------------------------------------------------------- renewals applied in order

  /** Those renewals of a handle that are applied at all are applied in the order they were sent. */
  predicate InOrder(events: seq<Event>) {
    forall i :: 0 <= i < |events| && events[i].ApplyRenew? ==> events[i].position == 0
  }

  predicate Sorted(renewals: seq<int>) { forall i, j :: 0 <= i < j < |renewals| ==> renewals[i] <= renewals[j] }

  predicate Ordered(s: State, o: Owner) {
    NoStaleRenewal(s, o) && Sorted(ClientOf(s, o).renewals)
  }

  lemma ArrivalKeepsOrder(s: State, p: Owner, k: nat, lease: nat, o: Owner)
    requires Ordered(s, o)
    ensures Ordered(Step(s, ApplyRenew(p, 0), lease), o)
    ensures Ordered(Step(s, LoseRenew(p, k), lease), o)
  {
  }

  lemma PutKeepsOrder(s: State, p: Owner, lease: nat, o: Owner)
    requires ValidClient(s, o, lease) && Ordered(s, o)
    ensures Ordered(Step(s, ApplyPut(p), lease), o)
  {
  }

  lemma SendKeepsOrder(s: State, p: Owner, lease: nat, o: Owner)
    requires ValidClient(s, o, lease) && Ordered(s, o)
    ensures Ordered(Step(s, SendRenew(p), lease), o)
  {
  }

  lemma StepKeepsOrder(s: State, e: Event, lease: nat, o: Owner)
    requires Inv(s, lease) && Ordered(s, o) && (e.ApplyRenew? ==> e.position == 0)
    ensures Ordered(Step(s, e, lease), o)
  {
    assert ValidClient(s, o, lease);
    match e {
      case ApplyRenew(p, _) => ArrivalKeepsOrder(s, p, 0, lease, o);
      case LoseRenew(p, k) => ArrivalKeepsOrder(s, p, k, lease, o);
      case ApplyPut(p) => PutKeepsOrder(s, p, lease, o);
      case SendRenew(p) => SendKeepsOrder(s, p, lease, o);
      case _ =>
        assert ClientOf(Step(s, e, lease), o).renewals == ClientOf(s, o).renewals;
        assert ClientOf(Step(s, e, lease), o).granted == ClientOf(s, o).granted;
    }
  }

  lemma {:induction false} RunKeepsOrder(s: State, events: seq<Event>, lease: nat, o: Owner)
    requires Inv(s, lease) && Ordered(s, o) && InOrder(events)
    ensures Ordered(Run(s, events, lease), o)
    decreases |events|
  {
    if events != [] {
      StepKeepsOrder(s, events[0], lease, o);
      StepKeepsInv(s, events[0], lease);
      RunKeepsOrder(Step(s, events[0], lease), events[1..], lease, o);
    }
  }

  /**
   * If renewals have been applied in order so far, some of them perhaps lost, a lease granted by a put or renewal sent
   * at `granted` lasts until `granted + lease` in every continuation in which its owner does not dispose the handle.
   */
  lemma LeaseLasts(now: int, before: seq<Event>, after: seq<Event>, lease: nat, o: Owner)
    requires InOrder(before) && SendRelease(o) !in after
    requires Protected(Run(Initial(now), before, lease), o, lease)
    requires var s := Run(Initial(now), before, lease); Run(s, after, lease).now <= ClientOf(s, o).granted + lease
    ensures Owns(Run(Run(Initial(now), before, lease), after, lease).item, o)
  {
    var s := Run(Initial(now), before, lease);
    RunKeepsInv(Initial(now), before, lease);
    RunKeepsOrder(Initial(now), before, lease, o);
    LeaseIsSafeIff(s, lease, o);
  }

  /**
   * Such states are reachable: with two renewals in flight, the younger of them applied first, another owner gets the
   * lock while the lease of the younger still runs.
   */
  lemma OvertakenRenewalBreaksLease()
    ensures var events := [SendPut(1)] + ([ApplyPut(1)] + ([Tick(3)] + ([SendRenew(1)] + ([Tick(5)]
        + ([SendRenew(1)] + ([ApplyRenew(1, 1)] + []))))));
      var s := Run(Initial(0), events, 10);
      && Protected(s, 1, 10) && ClientOf(s, 1).granted == 5
      && var late := Run(s, [ApplyRenew(1, 0)] + TakeOver(14, 2), 10);
        late.now == 14 && Owns(late.item, 2)
  {
    var events := [SendPut(1)] + ([ApplyPut(1)] + ([Tick(3)] + ([SendRenew(1)] + ([Tick(5)]
      + ([SendRenew(1)] + ([ApplyRenew(1, 1)] + []))))));
    var s0 := Initial(0);
    var s1 := Step(s0, SendPut(1), 10);
    var s2 := Step(s1, ApplyPut(1), 10);
    var s3 := Step(s2, Tick(3), 10);
    var s4 := Step(s3, SendRenew(1), 10);
    var s5 := Step(s4, Tick(5), 10);
    var s6 := Step(s5, SendRenew(1), 10);
    assert ClientOf(s6, 1).renewals == [3, 5];
    var s7 := Step(s6, ApplyRenew(1, 1), 10);
    RunCons(s6, ApplyRenew(1, 1), [], 10);
    var r5 := [ApplyRenew(1, 1)] + [];
    var r4 := [SendRenew(1)] + r5;
    RunCons(s5, SendRenew(1), r5, 10);
    RunCons(s4, Tick(5), r4, 10);
    RunCons(s3, SendRenew(1), [Tick(5)] + r4, 10);
    RunCons(s2, Tick(3), [SendRenew(1)] + ([Tick(5)] + r4), 10);
    RunCons(s1, ApplyPut(1), [Tick(3)] + ([SendRenew(1)] + ([Tick(5)] + r4)), 10);
    RunCons(s0, SendPut(1), [ApplyPut(1)] + ([Tick(3)] + ([SendRenew(1)] + ([Tick(5)] + r4))), 10);
    RunKeepsInv(s0, events, 10);
    assert ClientOf(s7, 1).renewals == [3] && s7.item == Some(LeaseFrom(1, 5, 10));
    StaleRenewalLosesLock(s7, 10, 1, 0, 14, 2);
  }
}
