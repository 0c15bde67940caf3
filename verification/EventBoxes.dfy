/** Polling the event inbox and outbox: `queryBox` reads an index partition page by page until it has enough items. */
module EventBoxes {
  import opened Common
  import opened Paging

  /** The entries both the filter expression and the `accept` callback let through. */
  function Accepted<T>(entries: seq<T>, filter: T -> bool, accept: T -> bool): seq<T> {
    Filter(Filter(entries, filter), accept)
  }

  /** Adds the accepted items of one page, stopping once `maxCount` is reached. */
  method AddAccepted<T(==)>(results: seq<T>, page: seq<T>, accept: T -> bool, maxCount: int) returns (all: seq<T>)
    requires |page| <= Max(1, maxCount - |results|)
    ensures all == results + Filter(page, accept)
  {
    all := results;
    var k := 0;
    while k < |page|
      invariant k <= |page|
      invariant all == results + Filter(page[..k], accept)
    {
      FilterPrefix(page, accept, k);
      k := k + 1;
      if accept(page[k - 1]) {
        all := all + [page[k - 1]];
        if |all| >= maxCount { break; }
      }
    }
    assert k == |page|;
    assert page[..|page|] == page;
  }

  lemma AcceptedGrows<T>(order: seq<T>, filter: T -> bool, accept: T -> bool, start: nat, limit: Option<nat>,
      page: Page<T>)
    requires start <= |order| && ValidPage(order, filter, start, limit, page)
    ensures Accepted(order[..start], filter, accept) + Filter(page.items, accept) ==
      Accepted(order[..PageEnd(order, page)], filter, accept)
    ensures |page.items| <= PageEnd(order, page) - start
  {
    PageAppends(order, filter, start, limit, page);
    FilterConcat(Filter(order[..start], filter), page.items, accept);
  }

  lemma AcceptedPrefix<T>(order: seq<T>, filter: T -> bool, accept: T -> bool, end: nat)
    requires end <= |order|
    ensures Accepted(order[..end], filter, accept) <= Accepted(order, filter, accept)
  {
    LiveSoFar(order, filter, end, |order|);
    assert order[..|order|] == order;
    FilterConcat(Filter(order[..end], filter), Filter(order[end..], filter), accept);
  }

  /**
   * The loop stops at the end of the partition or with exactly `maxCount` items; without a positive count after one
   * entry.
   */
  lemma BoxDone<T>(order: seq<T>, filter: T -> bool, accept: T -> bool, evaluated: nat, results: seq<T>, maxCount: int)
    requires evaluated <= |order| && results == Accepted(order[..evaluated], filter, accept)
    requires maxCount >= 1 ==> |results| <= maxCount && (evaluated == |order| || |results| == maxCount)
    requires maxCount <= 0 ==> evaluated == Min(|order|, 1)
    ensures maxCount >= 1 ==> results == FirstN(Accepted(order, filter, accept), maxCount)
    ensures maxCount <= 0 ==> results == Accepted(FirstN(order, 1), filter, accept)
  {
    AcceptedPrefix(order, filter, accept, evaluated);
    assert order[..|order|] == order;
  }

  /**
   * Exact for a positive count. For a count of zero or less the query still evaluates one entry, and returns it when it
   * is accepted.
   */
  method QueryBox<T(==)>(table: Partition<T>, filter: T -> bool, maxCount: int, accept: T -> bool)
      returns (results: seq<T>)
    ensures maxCount >= 1 ==> results == FirstN(Accepted(table.entries, filter, accept), maxCount)
    ensures maxCount <= 0 ==> results == Accepted(FirstN(table.entries, 1), filter, accept)
  {
    ghost var order := table.entries;
    results := [];
    var startKey: Option<nat> := None;
    ghost var evaluated := 0;
    while true
      invariant evaluated <= |order| && evaluated == if startKey.Some? then startKey.value else 0
      invariant results == Accepted(order[..evaluated], filter, accept)
      invariant maxCount >= 1 ==> |results| < maxCount
      invariant maxCount <= 0 ==> evaluated == 0
      decreases |order| - evaluated
    {
      var limit: Option<nat> := Some(Max(1, maxCount - |results|));
      var page := table.Query(true, filter, limit, startKey);
      AcceptedGrows(order, filter, accept, evaluated, limit, page);
      results := AddAccepted(results, page.items, accept, maxCount);
      startKey := page.next;
      evaluated := PageEnd(order, page);
      if startKey.None? || |results| >= maxCount { break; }
    }
    BoxDone(order, filter, accept, evaluated, results, maxCount);
  }

  // ---------------------------------------------------------------- the inbox

  datatype Status = Pending | Discarded | Processed

  /** A stored inbox record; `readable` when its required attributes have the right types. Times are instants. */
  datatype InboxRecord = InboxRecord(id: string, status: Status, creationTime: int, nextRetryTime: Option<int>,
      readable: bool, payload: string)

  predicate Due(r: InboxRecord, now: int) {
    r.status.Pending? && (r.nextRetryTime.None? || r.nextRetryTime.value <= now)
  }

  predicate IsOld(r: InboxRecord, threshold: int) {
    (r.status.Processed? || r.status.Discarded?) && r.creationTime < threshold
  }

  function DueAt(now: int): InboxRecord -> bool { r => Due(r, now) }

  function Accepting(filter: InboxRecord -> bool): InboxRecord -> bool { (r: InboxRecord) => r.readable && filter(r) }

  function OldAt(threshold: int): InboxRecord -> bool { r => IsOld(r, threshold) }

  function Everything(): InboxRecord -> bool { _ => true }

  function KeptAt(threshold: int): InboxRecord -> bool { r => !IsOld(r, threshold) }

  const MAX_SAFE_INTEGER := 9007199254740991

  /** The inbox of one database: the list partition in creation order, one record per id. */
  class EventInbox {
    var records: seq<InboxRecord>

    ghost predicate Valid()
      reads this
    {
      && (forall i, j :: 0 <= i < j < |records| ==> records[i].creationTime <= records[j].creationTime)
      && (forall i, j :: 0 <= i < j < |records| ==> records[i].id != records[j].id)
    }

    constructor (records: seq<InboxRecord>)
      requires forall i, j :: 0 <= i < j < |records| ==> records[i].creationTime <= records[j].creationTime
      requires forall i, j :: 0 <= i < j < |records| ==> records[i].id != records[j].id
      ensures Valid() && this.records == records
    {
      this.records := records;
    }

    /** The oldest due pending events, at most `maxCount` of them; `OldestFirst` says what that means. */
    method GetWaitingEvents(maxCount: int, filter: InboxRecord -> bool, now: int) returns (events: seq<InboxRecord>)
      requires Valid()
      ensures maxCount >= 1 ==> events == FirstN(Accepted(records, DueAt(now), Accepting(filter)), maxCount)
      ensures maxCount <= 0 ==> events == Accepted(FirstN(records, 1), DueAt(now), Accepting(filter))
    {
      var table := new Partition(records);
      events := QueryBox(table, DueAt(now), maxCount, Accepting(filter));
    }

    /** Deletes exactly the processed and discarded events created before the threshold. */
    method DeleteOldEvents(now: int, waitTimeMs: int)
      requires Valid() && |records| <= MAX_SAFE_INTEGER
      modifies this
      ensures Valid()
      ensures records == Filter(old(records), KeptAt(now - waitTimeMs))
    {
      var table := new Partition(records);
      var expired := QueryBox(table, OldAt(now - waitTimeMs), MAX_SAFE_INTEGER, Everything());
      DeletedAreOld(records, now - waitTimeMs, expired);
      FilterValid(records, KeptAt(now - waitTimeMs));
      records := WithoutIds(records, IdsOf(expired));
    }
  }

  function IdsOf(s: seq<InboxRecord>): set<string> { set r | r in s :: r.id }

  function WithIdNotIn(ids: set<string>): InboxRecord -> bool { (r: InboxRecord) => r.id !in ids }

  /** The inbox after deleting the records with these ids. */
  function WithoutIds(s: seq<InboxRecord>, ids: set<string>): seq<InboxRecord> {
    Filter(s, WithIdNotIn(ids))
  }

  lemma ExpiredMembers(records: seq<InboxRecord>, threshold: int, expired: seq<InboxRecord>)
    requires |records| <= MAX_SAFE_INTEGER
    requires expired == FirstN(Accepted(records, OldAt(threshold), Everything()), MAX_SAFE_INTEGER)
    ensures forall r :: r in expired <==> r in records && IsOld(r, threshold)
  {
    AcceptedMembers(records, OldAt(threshold), Everything());
    assert expired == Accepted(records, OldAt(threshold), Everything());
  }

  /** Ids are unique, so deleting an old record by its id deletes no other. */
  lemma DeletedByItsId(records: seq<InboxRecord>, threshold: int, expired: seq<InboxRecord>, i: nat)
    requires forall i, j :: 0 <= i < j < |records| ==> records[i].id != records[j].id
    requires forall r :: r in expired <==> r in records && IsOld(r, threshold)
    requires i < |records|
    ensures WithIdNotIn(IdsOf(expired))(records[i]) <==> KeptAt(threshold)(records[i])
  {
  }

  lemma DeletedAreOld(records: seq<InboxRecord>, threshold: int, expired: seq<InboxRecord>)
    requires forall i, j :: 0 <= i < j < |records| ==> records[i].id != records[j].id
    requires |records| <= MAX_SAFE_INTEGER
    requires expired == FirstN(Accepted(records, OldAt(threshold), Everything()), MAX_SAFE_INTEGER)
    ensures WithoutIds(records, IdsOf(expired)) == Filter(records, KeptAt(threshold))
  {
    var a, b := WithIdNotIn(IdsOf(expired)), KeptAt(threshold);
    forall i | 0 <= i < |records| ensures a(records[i]) <==> b(records[i]) {
      ExpiredMembers(records, threshold, expired);
      DeletedByItsId(records, threshold, expired, i);
    }
    FilterSame(records, a, b);
  }

  predicate Wanted(records: seq<InboxRecord>, r: InboxRecord, now: int, filter: InboxRecord -> bool) {
    r in records && Due(r, now) && r.readable && filter(r)
  }

  /** What polling returns: only due events the caller accepts, and all of them when fewer than asked for. */
  lemma OnlyDueEvents(records: seq<InboxRecord>, now: int, filter: InboxRecord -> bool, maxCount: nat)
    ensures var events := FirstN(Accepted(records, DueAt(now), Accepting(filter)), maxCount);
      && (forall r :: r in events ==> Wanted(records, r, now, filter))
      && (|events| < maxCount ==> forall r :: Wanted(records, r, now, filter) ==> r in events)
  {
    AcceptedMembers(records, DueAt(now), Accepting(filter));
    var all := Accepted(records, DueAt(now), Accepting(filter));
    var events := FirstN(all, maxCount);
    assert forall k :: 0 <= k < |events| ==> events[k] == all[k] && all[k] in all;
    assert |events| < maxCount ==> events == all;
    assert forall r :: Wanted(records, r, now, filter) <==> r in all;
  }

  /** No wanted event is left out in favour of a younger one. */
  lemma OldestFirst(records: seq<InboxRecord>, now: int, filter: InboxRecord -> bool, maxCount: nat, left: InboxRecord,
      taken: InboxRecord)
    requires forall i, j :: 0 <= i < j < |records| ==> records[i].creationTime <= records[j].creationTime
    requires var events := FirstN(Accepted(records, DueAt(now), Accepting(filter)), maxCount);
      Wanted(records, left, now, filter) && left !in events && taken in events
    ensures taken.creationTime <= left.creationTime
  {
    var all := Accepted(records, DueAt(now), Accepting(filter));
    var events := FirstN(all, maxCount);
    AcceptedMembers(records, DueAt(now), Accepting(filter));
    AcceptedOrdered(records, DueAt(now), Accepting(filter));
    var i :| 0 <= i < |all| && all[i] == left;
    var j :| 0 <= j < |events| && events[j] == taken;
    assert forall k :: 0 <= k < |events| ==> all[k] == events[k];
    assert j < i;
  }

  lemma AcceptedMembers<T(!new)>(s: seq<T>, filter: T -> bool, accept: T -> bool)
    ensures forall x :: x in Accepted(s, filter, accept) <==> x in s && filter(x) && accept(x)
  {
    FilterMembers(s, filter);
    FilterMembers(Filter(s, filter), accept);
  }

  lemma {:induction false} FilterOrdered(s: seq<InboxRecord>, keep: InboxRecord -> bool)
    requires forall i, j :: 0 <= i < j < |s| ==> s[i].creationTime <= s[j].creationTime
    ensures forall i, j :: 0 <= i < j < |Filter(s, keep)| ==>
      Filter(s, keep)[i].creationTime <= Filter(s, keep)[j].creationTime
  {
    if s != [] {
      var n := |s| - 1;
      FilterOrdered(s[..n], keep);
      if keep(s[n]) {
        FilterElements(s[..n], keep);
        forall i | 0 <= i < |Filter(s[..n], keep)| ensures Filter(s[..n], keep)[i].creationTime <= s[n].creationTime {
          assert Filter(s[..n], keep)[i] in s[..n];
        }
      }
    }
  }

  lemma AcceptedOrdered(s: seq<InboxRecord>, filter: InboxRecord -> bool, accept: InboxRecord -> bool)
    requires forall i, j :: 0 <= i < j < |s| ==> s[i].creationTime <= s[j].creationTime
    ensures forall i, j :: 0 <= i < j < |Accepted(s, filter, accept)| ==>
      Accepted(s, filter, accept)[i].creationTime <= Accepted(s, filter, accept)[j].creationTime
  {
    FilterOrdered(s, filter);
    FilterOrdered(Filter(s, filter), accept);
  }

  lemma {:induction false} FilterDistinct(s: seq<InboxRecord>, keep: InboxRecord -> bool)
    requires forall i, j :: 0 <= i < j < |s| ==> s[i].id != s[j].id
    ensures forall i, j :: 0 <= i < j < |Filter(s, keep)| ==> Filter(s, keep)[i].id != Filter(s, keep)[j].id
  {
    if s != [] {
      var n := |s| - 1;
      FilterDistinct(s[..n], keep);
      if keep(s[n]) {
        FilterElements(s[..n], keep);
        forall i | 0 <= i < |Filter(s[..n], keep)| ensures Filter(s[..n], keep)[i].id != s[n].id {
          assert Filter(s[..n], keep)[i] in s[..n];
        }
      }
    }
  }

  lemma FilterValid(s: seq<InboxRecord>, keep: InboxRecord -> bool)
    requires forall i, j :: 0 <= i < j < |s| ==> s[i].creationTime <= s[j].creationTime
    requires forall i, j :: 0 <= i < j < |s| ==> s[i].id != s[j].id
    ensures forall i, j :: 0 <= i < j < |Filter(s, keep)| ==>
      Filter(s, keep)[i].creationTime <= Filter(s, keep)[j].creationTime
    ensures forall i, j :: 0 <= i < j < |Filter(s, keep)| ==> Filter(s, keep)[i].id != Filter(s, keep)[j].id
  {
    FilterOrdered(s, keep);
    FilterDistinct(s, keep);
  }
}
