/**
 * Both cache stores under the same concurrent calls. A read of the table and the slide that follows it are two
 * requests, so sets, removals, sweeps and other reads come between them.
 */
module CacheRuns {
  import opened Common
  import opened CacheStores

  /** Identifies one read of one key: `get` and `refresh` read once, batches once for every key. */
  type Reader = nat

  /** What a reader found when it read, until its slide arrives. */
  datatype Held = Held(key: Key, item: Item, at: int)

  datatype State = State(entries: Entries, items: Items, held: map<Reader, Held>, now: int)

  /**
   * A slide carries the clock reading its TTL is computed from, between the read and the arrival, and may be lost. A
   * set carries the reading its expirations are computed from. Reads answer unless they come from `refresh`.
   */
  datatype Event =
    | Tick(t: int)
    | Read(reader: Reader, key: Key)
    | Slide(reader: Reader, later: int)
    | LoseSlide(reader: Reader)
    | Set(key: Key, value: Value, options: EntryOptions, at: int)
    | Remove(key: Key)
    | Sweep(keys: set<Key>)

  function Initial(now: int): State { State(map[], map[], map[], now) }

  /** The sweep deletes elapsed items of the table, not necessarily all of them. */
  function Swept(items: Items, keys: set<Key>, now: int): Items {
    map key | key in items && !(key in keys && Elapsed(items[key], now)) :: items[key]
  }

  predicate CanRead(s: State, reader: Reader) { reader !in s.held }

  predicate CanSlide(s: State, reader: Reader, later: int) {
    reader in s.held && s.held[reader].at <= later <= s.now
  }

  function AfterRead(s: State, reader: Reader, key: Key): State {
    s.(entries := Touched(s.entries, key, s.now),
       held := if ItemAnswer(s.items, key, s.now).Some? then s.held[reader := Held(key, s.items[key], s.now)]
         else s.held)
  }

  function AfterSlide(s: State, reader: Reader, later: int): State
    requires CanSlide(s, reader, later)
  {
    var h := s.held[reader];
    s.(items := ItemsSlid(s.items, h.key, h.item, later), held := s.held - {reader})
  }

  function Step(s: State, e: Event): State {
    match e
    case Tick(t) => s.(now := Max(s.now, t))
    case Read(reader, key) => if CanRead(s, reader) then AfterRead(s, reader, key) else s
    case Slide(reader, later) => if CanSlide(s, reader, later) then AfterSlide(s, reader, later) else s
    case LoseSlide(reader) => s.(held := s.held - {reader})
    case Set(key, value, o, at) =>
      s.(entries := s.entries[key := NewEntry(value, o, at)], items := s.items[key := NewItem(value, o, at)])
    case Remove(key) => s.(entries := s.entries - {key}, items := s.items - {key})
    case Sweep(keys) => s.(items := Swept(s.items, keys, s.now))
  }

  function Run(s: State, events: seq<Event>): State
    decreases |events|
  {
    if events == [] then s else Run(Step(s, events[0]), events[1..])
  }

  predicate Reads(s: State, e: Event) { e.Read? && CanRead(s, e.reader) }

  /** What the reads of a run answer: from the memory store, and from the table. */
  function MemoryAnswers(s: State, events: seq<Event>): seq<Option<Value>>
    decreases |events|
  {
    if events == [] then []
    else (if Reads(s, events[0]) then [Answer(s.entries, events[0].key, s.now)]
      else []) + MemoryAnswers(Step(s, events[0]), events[1..])
  }

  function TableAnswers(s: State, events: seq<Event>): seq<Option<Value>>
    decreases |events|
  {
    if events == [] then []
    else (if Reads(s, events[0]) then [ItemAnswer(s.items, events[0].key, s.now)]
      else []) + TableAnswers(Step(s, events[0]), events[1..])
  }

  // ---------------------------------------------------------------- absolute expiration

  /** An item that is still going to be answered after its absolute expiration rounded up to seconds. */
  predicate Overstays(item: Item, now: int) {
    item.absolute.Some? && !Elapsed(item, now)
    && (item.ttl.Some? ==> item.ttl.value > CeilSeconds(item.absolute.value))
  }

  lemma OverstaysIff(items: Items, key: Key, now: int)
    requires key in items && items[key].absolute.Some?
    ensures Overstays(items[key], now) <==>
      exists u :: now <= u && CeilSeconds(items[key].absolute.value) * 1000 <= u && ItemAnswer(items, key, u).Some?
  {
    var end := CeilSeconds(items[key].absolute.value) * 1000;
    if Overstays(items[key], now) {
      assert ItemAnswer(items, key, Max(now, end)).Some?;
    }
  }

  ghost predicate OnTime(s: State) {
    forall key :: key in s.items ==> !Overstays(s.items[key], s.now)
  }

  /** A slide that gives the item stored by now a TTL beyond its absolute expiration. */
  predicate Overlong(s: State, e: Event) {
    e.Slide? && CanSlide(s, e.reader, e.later)
    && var h := s.held[e.reader];
       h.key in s.items && Writes(h.item, e.later) && Overstays(SlidOn(s.items[h.key], h.item, e.later), s.now)
  }

  lemma TtlBounded(absolute: Option<int>, sliding: Option<Span>, now: int)
    requires absolute.Some?
    ensures ToTtl(absolute, sliding, now).Some? && ToTtl(absolute, sliding, now).value <= CeilSeconds(absolute.value)
  {
  }

  lemma StepOnTimeIff(s: State, e: Event)
    requires OnTime(s)
    ensures OnTime(Step(s, e)) <==> !Overlong(s, e)
  {
    var s' := Step(s, e);
    match e {
      case Slide(reader, later) =>
        if CanSlide(s, reader, later) {
          var h := s.held[reader];
          if h.key in s.items { assert s'.items[h.key] == SlidOn(s.items[h.key], h.item, later); }
        }
      case Set(key, value, o, at) =>
        if AbsoluteOf(o, at).Some? { TtlBounded(AbsoluteOf(o, at), o.slidingExpiration, at); }
      case _ =>
    }
  }

  ghost predicate AlwaysOnTime(s: State, events: seq<Event>)
    decreases |events|
  {
    OnTime(s) && (events != [] ==> AlwaysOnTime(Step(s, events[0]), events[1..]))
  }

  predicate NoneOverlong(s: State, events: seq<Event>)
    decreases |events|
  {
    events != [] ==> !Overlong(s, events[0]) && NoneOverlong(Step(s, events[0]), events[1..])
  }

  lemma {:induction false} AlwaysOnTimeIff(s: State, events: seq<Event>)
    requires OnTime(s)
    ensures AlwaysOnTime(s, events) <==> NoneOverlong(s, events)
    decreases |events|
  {
    if events != [] {
      StepOnTimeIff(s, events[0]);
      if OnTime(Step(s, events[0])) { AlwaysOnTimeIff(Step(s, events[0]), events[1..]); }
    }
  }

  /** The item stored has the expirations the reader met. */
  predicate StillAsRead(s: State, e: Event) {
    e.Slide? && CanSlide(s, e.reader, e.later)
    ==> var h := s.held[e.reader];
        h.key in s.items ==> s.items[h.key].absolute == h.item.absolute && s.items[h.key].sliding == h.item.sliding
  }

  predicate AllStillAsRead(s: State, events: seq<Event>)
    decreases |events|
  {
    events != [] ==> StillAsRead(s, events[0]) && AllStillAsRead(Step(s, events[0]), events[1..])
  }

  /** However often items slide, none overstays as long as no slide meets other expirations than were read. */
  lemma {:induction false} NeverPastAbsolute(s: State, events: seq<Event>)
    requires OnTime(s) && AllStillAsRead(s, events)
    ensures AlwaysOnTime(s, events)
    decreases |events|
  {
    if events != [] {
      var e := events[0];
      if e.Slide? && CanSlide(s, e.reader, e.later) {
        var h := s.held[e.reader];
        if h.item.absolute.Some? { TtlBounded(h.item.absolute, h.item.sliding, e.later); }
      }
      StepOnTimeIff(s, e);
      NeverPastAbsolute(Step(s, e), events[1..]);
    }
  }

  /**
   * Some slide still to come of this reader writes a TTL beyond `bound` that has not elapsed by the time it arrives.
   */
  predicate CanOverstay(h: Held, bound: int, now: int) {
    h.item.sliding.Some?
    && (h.item.absolute.None?
        || var top := CeilSeconds(h.item.absolute.value);
           var last := if h.item.ttl == Some(top) then top - 1 else top;
           && bound < last && now < last * 1000
           && (last < top ==> h.at + h.item.sliding.value <= last * 1000))
  }

  predicate SetsKey(e: Event, key: Key) { e.Set? && e.key == key }

  predicate NeverSet(events: seq<Event>, key: Key) {
    events == [] || (!SetsKey(events[0], key) && NeverSet(events[1..], key))
  }

  /** The item of `key` keeps to this absolute expiration, and so does every slide to come. */
  ghost predicate Safe(s: State, key: Key, absolute: int) {
    && (key in s.items ==> s.items[key].absolute == Some(absolute) && !Overstays(s.items[key], s.now))
    && forall r :: r in s.held && s.held[r].key == key ==> !CanOverstay(s.held[r], CeilSeconds(absolute), s.now)
  }

  lemma SlideWithin(h: Held, bound: int, later: int, now: int)
    requires h.at <= later <= now && Writes(h.item, later) && !CanOverstay(h, bound, now)
    ensures var ttl := ToTtl(h.item.absolute, h.item.sliding, later);
      ttl.Some? && (ttl.value <= bound || ttl.value * 1000 <= now)
  {
  }

  lemma StepKeepsSafe(s: State, e: Event, key: Key, absolute: int)
    requires Safe(s, key, absolute) && !SetsKey(e, key)
    ensures Safe(Step(s, e), key, absolute)
  {
    if e.Slide? && CanSlide(s, e.reader, e.later) && s.held[e.reader].key == key &&
      Writes(s.held[e.reader].item, e.later) {
      SlideWithin(s.held[e.reader], CeilSeconds(absolute), e.later, s.now);
    }
  }

  lemma {:induction false} RunKeepsSafe(s: State, events: seq<Event>, key: Key, absolute: int)
    requires Safe(s, key, absolute) && NeverSet(events, key)
    ensures Safe(Run(s, events), key, absolute)
    decreases |events|
  {
    if events != [] {
      StepKeepsSafe(s, events[0], key, absolute);
      RunKeepsSafe(Step(s, events[0]), events[1..], key, absolute);
    }
  }

  /** When to compute and when to apply the slide that overstays. */
  lemma LateSlide(h: Held, bound: int, now: int) returns (later: int, arrival: int)
    requires CanOverstay(h, bound, now) && h.at <= now
    ensures h.at <= later <= arrival && now <= arrival && Writes(h.item, later)
    ensures var ttl := ToTtl(h.item.absolute, h.item.sliding, later); ttl.value > bound && arrival < ttl.value * 1000
  {
    var sliding := h.item.sliding.value;
    if h.item.absolute.None? {
      var used := if h.item.ttl.Some? then h.item.ttl.value else 0;
      later := Max(now, Max(bound, used) * 1000);
      arrival := later;
    } else {
      var top := CeilSeconds(h.item.absolute.value);
      if h.item.ttl == Some(top) {
        later := (top - 1) * 1000 - sliding;
      } else {
        later := Max(h.at, h.item.absolute.value - sliding);
      }
      arrival := Max(now, later);
    }
  }

  /** Slides under way come from reads in the past. */
  predicate ReadsArePast(s: State) { forall r :: r in s.held ==> s.held[r].at <= s.now }

  /**
   * An item keeps to its absolute expiration, whatever happens short of setting it anew, if and only if no reader whose
   * slide is still to come met a later absolute expiration, or none, that it can still write.
   */
  lemma AbsoluteIsSafeIff(s: State, key: Key)
    requires key in s.items && s.items[key].absolute.Some? && !Overstays(s.items[key], s.now)
    requires ReadsArePast(s)
    ensures (forall events :: NeverSet(events, key) ==>
        var after := Run(s, events); key in after.items ==> !Overstays(after.items[key], after.now)) <==>
      forall r :: r in s.held && s.held[r].key == key ==>
        !CanOverstay(s.held[r], CeilSeconds(s.items[key].absolute.value), s.now)
  {
    var absolute := s.items[key].absolute.value;
    if Safe(s, key, absolute) {
      forall events | NeverSet(events, key)
        ensures var after := Run(s, events); key in after.items ==> !Overstays(after.items[key], after.now)
      {
        RunKeepsSafe(s, events, key, absolute);
      }
    } else {
      var r :| r in s.held && s.held[r].key == key && CanOverstay(s.held[r], CeilSeconds(absolute), s.now);
      var later, arrival := LateSlide(s.held[r], CeilSeconds(absolute), s.now);
      var events := [Tick(arrival), Slide(r, later)];
      LateArrival(s, r, arrival, later);
      var after := Run(s, events);
      assert NeverSet(events[1..], key);
      assert after.items[key] == SlidOn(s.items[key], s.held[r].item, later);
      assert Overstays(after.items[key], after.now);
    }
  }

  /** In every run this is so. */
  lemma {:induction false} ReadsStayPast(s: State, events: seq<Event>)
    requires ReadsArePast(s)
    ensures ReadsArePast(Run(s, events))
    decreases |events|
  {
    if events != [] {
      assert ReadsArePast(Step(s, events[0]));
      ReadsStayPast(Step(s, events[0]), events[1..]);
    }
  }

  lemma LateArrival(s: State, r: Reader, arrival: int, later: int)
    requires r in s.held && s.held[r].at <= later <= arrival && s.now <= arrival
    ensures Run(s, [Tick(arrival), Slide(r, later)])
      == s.(now := arrival, items := ItemsSlid(s.items, s.held[r].key, s.held[r].item, later), held := s.held - {r})
  {
    var s' := Step(s, Tick(arrival));
    assert [Tick(arrival), Slide(r, later)][1..] == [Slide(r, later)];
    assert Run(s', [Slide(r, later)]) == Run(Step(s', Slide(r, later)), []);
  }

  // ---------------------------------------------------------------- the memory store as the measure

  predicate Alike(e: Entry, item: Item) {
    && item.value == e.value && item.absolute == e.absolute && item.sliding == e.sliding
    && (e.sliding.None? ==> e.expiresAt == e.absolute)
  }

  /** The TTL does not elapse before the entry expires. */
  predicate Reaches(ttl: Option<int>, e: Entry) {
    ttl.Some? ==> e.expiresAt.Some? && e.expiresAt.value <= ttl.value * 1000
  }

  /** Every slide of this reader, whenever it is computed, writes a TTL that reaches the entry's expiry. */
  predicate Renews(h: Held, e: Entry) {
    h.item.sliding.Some?
    && var ttl := ToTtl(h.item.absolute, h.item.sliding, h.at);
       Reaches(ttl, e) && (h.item.ttl.Some? ==> h.item.ttl.value < ttl.value)
  }

  predicate Live(s: State, key: Key) { key in s.entries && !Expired(s.entries[key], s.now) }

  predicate Owed(s: State, key: Key, r: Reader) {
    r in s.held && s.held[r].key == key && Live(s, key) && Renews(s.held[r], s.entries[key])
  }

  /** What is live in memory is in the table, and its TTL reaches as far, or will when a slide under way arrives. */
  ghost predicate PacedKey(s: State, key: Key) {
    Live(s, key) ==>
      && key in s.items && Alike(s.entries[key], s.items[key])
      && (Reaches(s.items[key].ttl, s.entries[key]) || exists r :: Owed(s, key, r))
  }

  ghost predicate InPace(s: State) { forall key :: PacedKey(s, key) }

  /** The item has elapsed although a slide that would extend it is under way. */
  ghost predicate Overdue(s: State, key: Key) {
    key in s.items && Elapsed(s.items[key], s.now) && exists r :: Owed(s, key, r)
  }

  /** What the item of a live entry is left with if this reader's slide is gone. */
  ghost predicate LeftInPace(s: State, r: Reader, key: Key, ttl: Option<int>) {
    Live(s, key) ==> Reaches(ttl, s.entries[key]) || exists q :: q != r && Owed(s, key, q)
  }

  /**
   * No read and no sweep meets an overdue item, no slide shortens a TTL below the expiry of the last access unless
   * another one is under way that mends it, and no slide that is needed gets lost.
   */
  ghost predicate Prompt(s: State, e: Event) {
    match e
    case Read(reader, key) => CanRead(s, reader) ==> !Overdue(s, key)
    case Sweep(keys) => forall key :: key in keys ==> !Overdue(s, key)
    case Slide(reader, later) =>
      CanSlide(s, reader, later) ==>
        var h := s.held[reader];
        h.key in s.items ==> LeftInPace(s, reader, h.key, SlidOn(s.items[h.key], h.item, later).ttl)
    case LoseSlide(reader) =>
      reader in s.held ==>
        var key := s.held[reader].key;
        key in s.items ==> LeftInPace(s, reader, key, s.items[key].ttl)
    case _ => true
  }

  /** Memory and table agree on a hit in memory. */
  predicate HitCovered(s: State, e: Event) {
    Reads(s, e) && Answer(s.entries, e.key, s.now).Some?
    ==> ItemAnswer(s.items, e.key, s.now) == Answer(s.entries, e.key, s.now)
  }

  ghost predicate KeepsPace(s: State, e: Event) { InPace(Step(s, e)) && HitCovered(s, e) }

  /** A reader that hits owes the slide, if one is needed. */
  lemma SlidingOwed(s: State, reader: Reader, key: Key)
    requires PacedKey(s, key) && CanRead(s, reader) && Live(s, key) && !Overdue(s, key) &&
      Live(AfterRead(s, reader, key), key)
    ensures PacedKey(AfterRead(s, reader, key), key)
  {
    var s' := AfterRead(s, reader, key);
    if s.entries[key].sliding.Some? {
      if !Reaches(s'.items[key].ttl, s'.entries[key]) { assert Owed(s', key, reader); }
    } else {
      assert s'.entries[key] == s.entries[key];
      if !Reaches(s.items[key].ttl, s.entries[key]) {
        var r :| Owed(s, key, r);
        assert Owed(s', key, r);
      }
    }
  }

  lemma ReadPaced(s: State, reader: Reader, key: Key)
    requires InPace(s) && CanRead(s, reader)
    ensures HitCovered(s, Read(reader, key)) <==> !Overdue(s, key)
    ensures !Overdue(s, key) ==> InPace(AfterRead(s, reader, key))
  {
    var s' := AfterRead(s, reader, key);
    assert PacedKey(s, key);
    if !Overdue(s, key) {
      forall k ensures PacedKey(s', k) {
        assert PacedKey(s, k);
        if k == key {
          if Live(s, key) && Live(s', key) { SlidingOwed(s, reader, key); }
        } else if k != key && Live(s, k) && !Reaches(s.items[k].ttl, s.entries[k]) {
          var r :| Owed(s, k, r);
          assert Owed(s', k, r);
        }
      }
    }
  }

  /** With a slide gone, keys of other slides are as they were. */
  lemma OthersPaced(s: State, s': State, reader: Reader, key: Key)
    requires InPace(s) && reader in s.held && s.held[reader].key == key
    requires s' == s.(items := s'.items, held := s.held - {reader})
    requires forall k :: k != key ==> (k in s'.items <==> k in s.items) && (k in s.items ==> s'.items[k] == s.items[k])
    ensures InPace(s') <==> PacedKey(s', key)
  {
    forall k | k != key ensures PacedKey(s', k) {
      assert PacedKey(s, k);
      if Live(s, k) && !Reaches(s.items[k].ttl, s.entries[k]) {
        var r :| Owed(s, k, r);
        assert Owed(s', k, r);
      }
    }
  }

  /** Its own key stays in pace exactly if it is left in pace. */
  lemma OwnPaced(s: State, s': State, reader: Reader, key: Key)
    requires InPace(s) && reader in s.held && s.held[reader].key == key
    requires s' == s.(items := s'.items, held := s.held - {reader})
    requires (key in s'.items <==> key in s.items) &&
      (key in s.items ==> s'.items[key] == s.items[key].(ttl := s'.items[key].ttl))
    ensures PacedKey(s', key) <==> (key in s.items ==> LeftInPace(s, reader, key, s'.items[key].ttl))
  {
    assert PacedKey(s, key);
    forall q | q != reader ensures Owed(s', key, q) <==> Owed(s, key, q) { }
  }

  lemma SlidePacedIff(s: State, reader: Reader, later: int)
    requires InPace(s) && CanSlide(s, reader, later)
    ensures InPace(AfterSlide(s, reader, later)) <==> Prompt(s, Slide(reader, later))
  {
    var s', key := AfterSlide(s, reader, later), s.held[reader].key;
    OthersPaced(s, s', reader, key);
    OwnPaced(s, s', reader, key);
  }

  lemma LosePacedIff(s: State, reader: Reader)
    requires InPace(s) && reader in s.held
    ensures InPace(Step(s, LoseSlide(reader))) <==> Prompt(s, LoseSlide(reader))
  {
    var s', key := Step(s, LoseSlide(reader)), s.held[reader].key;
    OthersPaced(s, s', reader, key);
    OwnPaced(s, s', reader, key);
  }

  lemma SweepPacedIff(s: State, keys: set<Key>)
    requires InPace(s)
    ensures InPace(Step(s, Sweep(keys))) <==> Prompt(s, Sweep(keys))
  {
    var s' := Step(s, Sweep(keys));
    forall k ensures PacedKey(s', k) <==> !(k in keys && Overdue(s, k)) {
      assert PacedKey(s, k);
      forall r ensures Owed(s', k, r) <==> Owed(s, k, r) { }
    }
  }

  /** Time, sets and removals keep any stores in pace. */
  lemma OthersKeepPace(s: State, e: Event)
    requires InPace(s) && (e.Tick? || e.Set? || e.Remove?)
    ensures InPace(Step(s, e))
  {
    var s' := Step(s, e);
    forall k ensures PacedKey(s', k) {
      assert PacedKey(s, k);
      if Live(s, k) && !(e.Set? && e.key == k) && !Reaches(s.items[k].ttl, s.entries[k]) && Live(s', k) {
        var r :| Owed(s, k, r);
        assert Owed(s', k, r);
      }
    }
  }

  lemma StepKeepsPaceIff(s: State, e: Event)
    requires InPace(s)
    ensures KeepsPace(s, e) <==> Prompt(s, e)
  {
    match e {
      case Read(reader, key) => if CanRead(s, reader) { ReadPaced(s, reader, key); }
      case Slide(reader, later) => if CanSlide(s, reader, later) { SlidePacedIff(s, reader, later); }
      case LoseSlide(reader) =>
        if reader in s.held { LosePacedIff(s, reader); } else { assert Step(s, e) == s; }
      case Sweep(keys) => SweepPacedIff(s, keys);
      case _ => OthersKeepPace(s, e);
    }
  }

  ghost predicate AlwaysInPace(s: State, events: seq<Event>)
    decreases |events|
  {
    events != [] ==> KeepsPace(s, events[0]) && AlwaysInPace(Step(s, events[0]), events[1..])
  }

  ghost predicate AllPrompt(s: State, events: seq<Event>)
    decreases |events|
  {
    events != [] ==> Prompt(s, events[0]) && AllPrompt(Step(s, events[0]), events[1..])
  }

  lemma {:induction false} AlwaysInPaceIff(s: State, events: seq<Event>)
    requires InPace(s)
    ensures AlwaysInPace(s, events) <==> AllPrompt(s, events)
    decreases |events|
  {
    if events != [] {
      StepKeepsPaceIff(s, events[0]);
      if Prompt(s, events[0]) { AlwaysInPaceIff(Step(s, events[0]), events[1..]); }
    }
  }

  ghost predicate HitsCovered(memory: seq<Option<Value>>, table: seq<Option<Value>>) {
    |table| == |memory| && forall i :: 0 <= i < |memory| && memory[i].Some? ==> table[i] == memory[i]
  }

  /** Over every prompt run whatever the memory store answers the table answers too; rounding up only ever adds hits. */
  lemma {:induction false} MemoryHitsAreTableHits(s: State, events: seq<Event>)
    requires InPace(s) && AllPrompt(s, events)
    ensures HitsCovered(MemoryAnswers(s, events), TableAnswers(s, events))
    decreases |events|
  {
    if events != [] {
      StepKeepsPaceIff(s, events[0]);
      MemoryHitsAreTableHits(Step(s, events[0]), events[1..]);
    }
  }

  /** Out of pace means visibly so: at some time at which nothing has arrived memory hits and the table does not. */
  lemma OutOfPaceIsVisible(s: State, key: Key)
    requires Live(s, key) && !(key in s.items && s.items[key].value == s.entries[key].value &&
      Reaches(s.items[key].ttl, s.entries[key]))
    ensures exists u ::
      u >= s.now && Answer(s.entries, key, u).Some? && ItemAnswer(s.items, key, u) != Answer(s.entries, key, u)
  {
    var same := key in s.items && s.items[key].value == s.entries[key].value;
    var u := if same && s.items[key].ttl.Some? then Max(s.now, s.items[key].ttl.value * 1000) else s.now;
    assert Answer(s.entries, key, u).Some?;
  }

  // ---------------------------------------------------------------- undisturbed keys

  predicate Alone(s: State, key: Key) { forall r :: r in s.held ==> s.held[r].key != key }

  /** No read, set or sweep of a key comes between another read of it and its slide, and no slide gets lost. */
  predicate Calm(s: State, e: Event) {
    match e
    case Read(_, key) => Alone(s, key)
    case Set(key, _, _, _) => Alone(s, key)
    case Sweep(keys) => forall key :: key in keys ==> Alone(s, key)
    case LoseSlide(reader) => reader !in s.held
    case _ => true
  }

  predicate AllCalm(s: State, events: seq<Event>)
    decreases |events|
  {
    events != [] ==> Calm(s, events[0]) && AllCalm(Step(s, events[0]), events[1..])
  }

  /** The key is as the reader left it. */
  predicate Fresh(s: State, h: Held) {
    h.key in s.items ==>
      && s.items[h.key] == h.item
      && (h.key in s.entries ==>
            && Alike(s.entries[h.key], h.item)
            && s.entries[h.key].expiresAt == NextExpiration(h.item.absolute, h.item.sliding, h.at))
  }

  ghost predicate Settled(s: State) {
    && (forall r :: r in s.held ==> Fresh(s, s.held[r]))
    && (forall r, q :: r in s.held && q in s.held && r != q ==> s.held[r].key != s.held[q].key)
  }

  lemma StepStaysSettled(s: State, e: Event)
    requires InPace(s) && Settled(s) && Calm(s, e)
    ensures Settled(Step(s, e))
  {
    if e.Read? { assert PacedKey(s, e.key); }
  }

  lemma AloneIsNotOverdue(s: State, key: Key)
    requires Alone(s, key)
    ensures !Overdue(s, key)
  {
  }

  lemma CalmSlideIsPrompt(s: State, reader: Reader, later: int)
    requires InPace(s) && Settled(s) && CanSlide(s, reader, later)
    ensures Prompt(s, Slide(reader, later))
  {
    var h := s.held[reader];
    assert PacedKey(s, h.key) && Fresh(s, h);
    assert forall q :: q in s.held && q != reader ==> s.held[q].key != h.key;
    if h.key in s.items && Live(s, h.key) {
      var e := s.entries[h.key];
      if h.item.sliding.Some? {
        assert Reaches(ToTtl(h.item.absolute, h.item.sliding, later), e);
        assert SlidOn(h.item, h.item, later).ttl == ToTtl(h.item.absolute, h.item.sliding, later);
      } else {
        assert forall q :: Owed(s, h.key, q) ==> q == reader;
        assert Reaches(s.items[h.key].ttl, e);
      }
    }
  }

  lemma CalmIsPrompt(s: State, e: Event)
    requires InPace(s) && Settled(s) && Calm(s, e)
    ensures Prompt(s, e)
  {
    match e {
      case Read(_, key) => AloneIsNotOverdue(s, key);
      case Sweep(keys) => forall key | key in keys ensures !Overdue(s, key) { AloneIsNotOverdue(s, key); }
      case Slide(reader, later) => if CanSlide(s, reader, later) { CalmSlideIsPrompt(s, reader, later); }
      case _ =>
    }
  }

  /** Runs in which every key is left alone between a read and its slide are prompt, whatever happens to other keys. */
  lemma {:induction false} CalmRunsArePrompt(s: State, events: seq<Event>)
    requires InPace(s) && Settled(s) && AllCalm(s, events)
    ensures AllPrompt(s, events)
    decreases |events|
  {
    if events != [] {
      CalmIsPrompt(s, events[0]);
      StepKeepsPaceIff(s, events[0]);
      StepStaysSettled(s, events[0]);
      CalmRunsArePrompt(Step(s, events[0]), events[1..]);
    }
  }

  // ---------------------------------------------------------------- the sweep

  function WithoutSweeps(events: seq<Event>): seq<Event>
    decreases |events|
  {
    if events == [] then [] else (if events[0].Sweep? then [] else [events[0]]) + WithoutSweeps(events[1..])
  }

  function LiveItem(items: Items, key: Key, now: int): Option<Item> {
    if key in items && !Elapsed(items[key], now) then Some(items[key]) else None
  }

  ghost predicate SameLive(a: State, b: State) {
    forall key :: LiveItem(a.items, key, a.now) == LiveItem(b.items, key, b.now)
  }

  /** `a` is `b` without some items that have elapsed. */
  ghost predicate SweptOf(a: State, b: State) {
    && a.(items := b.items) == b
    && (forall key :: key in a.items ==> key in b.items && a.items[key] == b.items[key])
    && (forall key :: key in b.items && key !in a.items ==> Elapsed(b.items[key], b.now))
  }

  /** A slide that finds its item swept and would have brought it back to life. */
  predicate MissesRevival(a: State, b: State, e: Event) {
    e.Slide? && CanSlide(b, e.reader, e.later)
    && var h := b.held[e.reader];
       h.key in b.items && h.key !in a.items && !Elapsed(SlidOn(b.items[h.key], h.item, e.later), b.now)
  }

  /** One event in the run without sweeps. */
  function StepUnswept(b: State, e: Event): State { if e.Sweep? then b else Step(b, e) }

  lemma StepSweptIff(a: State, b: State, e: Event)
    requires SweptOf(a, b)
    ensures !MissesRevival(a, b, e) ==> SweptOf(Step(a, e), StepUnswept(b, e))
    ensures MissesRevival(a, b, e) ==> !SameLive(Step(a, e), StepUnswept(b, e))
    ensures e.Read? ==> ItemAnswer(a.items, e.key, a.now) == ItemAnswer(b.items, e.key, b.now)
  {
    if MissesRevival(a, b, e) {
      var key := b.held[e.reader].key;
      assert LiveItem(Step(a, e).items, key, a.now).None? && LiveItem(Step(b, e).items, key, b.now).Some?;
    }
  }

  ghost predicate AlwaysSameLive(a: State, b: State, events: seq<Event>)
    decreases |events|
  {
    SameLive(a, b) && (events != [] ==> AlwaysSameLive(Step(a, events[0]), StepUnswept(b, events[0]), events[1..]))
  }

  predicate NoRevivalMissed(a: State, b: State, events: seq<Event>)
    decreases |events|
  {
    events != [] ==>
      !MissesRevival(a, b, events[0]) && NoRevivalMissed(Step(a, events[0]), StepUnswept(b, events[0]), events[1..])
  }

  /**
   * A run with sweeps and the same run without them have the same live items at every point if and only if no slide in
   * it comes too late to an item it would have revived.
   */
  lemma {:induction false} SweepInvisibleIff(a: State, b: State, events: seq<Event>)
    requires SweptOf(a, b)
    ensures AlwaysSameLive(a, b, events) <==> NoRevivalMissed(a, b, events)
    decreases |events|
  {
    if events != [] {
      var e := events[0];
      StepSweptIff(a, b, e);
      if !MissesRevival(a, b, e) { SweepInvisibleIff(Step(a, e), StepUnswept(b, e), events[1..]); }
    }
  }

  /** Then no answer of the run changes. */
  lemma {:induction false} SweepInvisible(a: State, b: State, events: seq<Event>)
    requires SweptOf(a, b) && NoRevivalMissed(a, b, events)
    ensures TableAnswers(a, events) == TableAnswers(b, WithoutSweeps(events))
    decreases |events|
  {
    if events != [] {
      var e, rest := events[0], WithoutSweeps(events[1..]);
      StepSweptIff(a, b, e);
      SweepInvisible(Step(a, e), StepUnswept(b, e), events[1..]);
      if e.Sweep? {
        assert WithoutSweeps(events) == rest;
      } else {
        assert WithoutSweeps(events) == [e] + rest && ([e] + rest)[1..] == rest;
      }
    }
  }

  predicate SweepsAlone(s: State, events: seq<Event>)
    decreases |events|
  {
    events != [] ==>
      (events[0].Sweep? ==> forall key :: key in events[0].keys ==> Alone(s, key))
      && SweepsAlone(Step(s, events[0]), events[1..])
  }

  /** It is enough that no key is swept while a slide of it is under way. */
  lemma {:induction false} AloneMissesNothing(a: State, b: State, events: seq<Event>)
    requires SweptOf(a, b) && SweepsAlone(a, events)
    requires forall r :: r in a.held && a.held[r].key in b.items ==> a.held[r].key in a.items
    ensures NoRevivalMissed(a, b, events)
    decreases |events|
  {
    if events != [] {
      StepSweptIff(a, b, events[0]);
      AloneMissesNothing(Step(a, events[0]), StepUnswept(b, events[0]), events[1..]);
    }
  }

  lemma {:induction false} RunConcat(s: State, p: seq<Event>, q: seq<Event>)
    ensures Run(s, p + q) == Run(Run(s, p), q)
    decreases |p|
  {
    if p == [] {
      assert p + q == q;
    } else {
      assert (p + q)[0] == p[0] && (p + q)[1..] == p[1..] + q;
      RunConcat(Step(s, p[0]), p[1..], q);
    }
  }

  /**
   * One read with a sweep before its slide: the sweep shows if and only if the item elapses in between and the slide
   * would revive it.
   */
  lemma SweepBetweenIff(s: State, r: Reader, key: Key, mid: int, later: int)
    requires CanRead(s, r) && ItemAnswer(s.items, key, s.now).Some? && s.now <= mid <= later
    ensures var read := Step(s, Read(r, key));
      SameLive(Run(read, [Tick(mid), Sweep({key}), Tick(later), Slide(r, later)]),
        Run(read, [Tick(later), Slide(r, later)])) <==>
        !(Elapsed(s.items[key], mid) && !Elapsed(SlidOn(s.items[key], s.items[key], later), later))
  {
    var read := Step(s, Read(r, key));
    var tail := [Tick(later), Slide(r, later)];
    var swept := read.(now := mid, items := Swept(read.items, {key}, mid));
    LateArrival(read, r, later, later);
    RunConcat(read, [Tick(mid), Sweep({key})], tail);
    assert [Tick(mid), Sweep({key})] + tail == [Tick(mid), Sweep({key}), Tick(later), Slide(r, later)];
    TwoSteps(read, Tick(mid), Sweep({key}));
    LateArrival(swept, r, later, later);
    var a, b := Run(swept, tail), Run(read, tail);
    if Elapsed(s.items[key], mid) {
      assert LiveItem(a.items, key, later).None?;
      assert b.items[key] == SlidOn(s.items[key], s.items[key], later);
    } else {
      assert a.items == b.items;
    }
  }

  lemma TwoSteps(s: State, e: Event, f: Event)
    ensures Run(s, [e, f]) == Step(Step(s, e), f)
  {
    assert [e, f][1..] == [f] && [f][1..] == [];
    assert Run(Step(s, e), [f]) == Run(Step(Step(s, e), f), []);
  }

  // ---------------------------------------------------------------- what disturbance does

  function Sliding(length: Span): EntryOptions { EntryOptions(None, None, Some(length)) }

  /** A key is set and read; before the slide of that read arrives, something else happens. */
  function Disturbed(options: EntryOptions, read: int, other: seq<Event>, later: int): State {
    var s := Initial(0);
    var reading := Step(Step(Step(s, Set(0, 1, options, 0)), Tick(read)), Read(0, 0));
    Step(Step(Run(reading, other), Tick(later)), Slide(0, later))
  }

  /** Another client sets the key with an earlier absolute expiration: the old reader's slide makes it overstay. */
  lemma OldSlideOverstays()
    ensures var s := Disturbed(Sliding(100000), 100, [Tick(200), Set(0, 2, EntryOptions(Some(1000), None, None), 200)],
      300);
      ItemAnswer(s.items, 0, 50000) == Some(2)
  {
    var s := Step(Step(Step(Initial(0), Set(0, 1, Sliding(100000), 0)), Tick(100)), Read(0, 0));
    TwoSteps(s, Tick(200), Set(0, 2, EntryOptions(Some(1000), None, None), 200));
  }

  /** Another client sets the key with a longer window: the old reader's slide cuts it short. */
  lemma OldSlideLosesHit()
    ensures var s := Disturbed(Sliding(1500), 1000, [Tick(1100), Set(0, 2, Sliding(1000000), 1100)], 1200);
      Answer(s.entries, 0, 5000) == Some(2) && ItemAnswer(s.items, 0, 5000).None?
  {
    var s := Step(Step(Step(Initial(0), Set(0, 1, Sliding(1500), 0)), Tick(1000)), Read(0, 0));
    TwoSteps(s, Tick(1100), Set(0, 2, Sliding(1000000), 1100));
  }

  /** A sweep comes just before the slide that would have revived the item. */
  lemma SweepLosesHit()
    ensures var swept := Disturbed(Sliding(1000), 999, [Tick(1000), Sweep({0})], 1001);
      ItemAnswer(swept.items, 0, 1500).None?
    ensures var unswept := Disturbed(Sliding(1000), 999, [Tick(1000)], 1001);
      ItemAnswer(unswept.items, 0, 1500) == Some(1)
  {
    var s := Step(Step(Step(Initial(0), Set(0, 1, Sliding(1000), 0)), Tick(999)), Read(0, 0));
    TwoSteps(s, Tick(1000), Sweep({0}));
    assert Run(s, [Tick(1000)]) == Run(Step(s, Tick(1000)), []);
  }

  /** Without any other client: two overlapping reads, the second of which memory answers and the table does not. */
  lemma OverdueReadMisses()
    ensures var s := Step(Step(Step(Initial(0), Set(0, 1, Sliding(1500), 0)), Tick(1000)), Read(0, 0));
      InPace(s) && Overdue(Step(s, Tick(2100)), 0)
      && Answer(s.entries, 0, 2100) == Some(1) && ItemAnswer(s.items, 0, 2100).None?
  {
    var set1 := Step(Initial(0), Set(0, 1, Sliding(1500), 0));
    var s := Step(Step(set1, Tick(1000)), Read(0, 0));
    assert Owed(Step(s, Tick(2100)), 0, 0);
    assert Owed(s, 0, 0);
  }
}
