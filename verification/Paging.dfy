/**
 * Paged reads of one index partition. The table cuts pages wherever it likes, as long as a page that does not end the
 * partition evaluates at least one entry; filters apply after `Limit`. The paging loops must still mean
 * "filter, skip, take" on the whole partition.
 */
module Paging {
  import opened Common

  /** `next` is the exclusive start key of the following page: how many entries of the scan are already evaluated. */
  datatype Page<T> = Page(items: seq<T>, next: Option<nat>)

  function PageEnd<T>(order: seq<T>, page: Page<T>): nat {
    if page.next.Some? then page.next.value else |order|
  }

  /** What the table promises about one page of a scan over `order`. */
  predicate ValidPage<T(==)>(order: seq<T>, keep: T -> bool, start: nat, limit: Option<nat>, page: Page<T>) {
    var end := PageEnd(order, page);
    && start <= end <= |order|
    && (page.next.Some? ==> start < end)
    && (limit.Some? ==> end - start <= limit.value)
    && page.items == Filter(order[start..end], keep)
  }

  function Directed<T>(entries: seq<T>, forward: bool): (r: seq<T>)
    ensures |r| == |entries|
  {
    if forward then entries else Reverse(entries)
  }

  /** `Limit` of a query: never below 1. */
  function QueryLimit(limit: Option<int>): (r: Option<nat>)
    ensures r.Some? <==> limit.Some?
    ensures r.Some? ==> r.value >= 1 && r.value >= limit.value
  {
    if limit.None? then None else Some(Max(1, limit.value))
  }

  /** One partition of a secondary index, entries in index order. */
  class Partition<T(==)> {
    const entries: seq<T>

    constructor (entries: seq<T>)
      ensures this.entries == entries
    {
      this.entries := entries;
    }

    /** One query request. Where the page ends is the table's choice. */
    method Query(forward: bool, keep: T -> bool, limit: Option<nat>, startKey: Option<nat>) returns (page: Page<T>)
      requires limit.Some? ==> limit.value >= 1
      requires startKey.Some? ==> startKey.value <= |entries|
      ensures ValidPage(Directed(entries, forward), keep, if startKey.Some? then startKey.value else 0, limit, page)
    {
      var order := Directed(entries, forward);
      var start: nat := if startKey.Some? then startKey.value else 0;
      var most := if limit.Some? then Min(|order|, start + limit.value) else |order|;
      var end: nat :| start <= end <= most && (start < most ==> start < end);
      var last: bool := *;
      if end == |order| && (last || start == end) {
        page := Page(Filter(order[start..end], keep), None);
      } else {
        page := Page(Filter(order[start..end], keep), Some(end));
      }
    }
  }

  // ---------------------------------------------------------------- fetch, count, page

  /** The first `limit` elements; all of them without a limit. */
  function TakeUpTo<T>(s: seq<T>, limit: Option<int>): (r: seq<T>)
    ensures |r| <= |s|
  {
    if limit.None? then s else s[..Max(0, Min(|s|, limit.value))]
  }

  lemma LiveSoFar<T>(order: seq<T>, keep: T -> bool, start: nat, end: nat)
    requires start <= end <= |order|
    ensures Filter(order[..end], keep) == Filter(order[..start], keep) + Filter(order[start..end], keep)
  {
    FilterConcat(order[..start], order[start..end], keep);
    assert order[..start] + order[start..end] == order[..end];
  }

  lemma LiveRest<T>(order: seq<T>, keep: T -> bool, start: nat, end: nat)
    requires start <= end <= |order|
    ensures Filter(order[start..], keep) == Filter(order[start..end], keep) + Filter(order[end..], keep)
  {
    FilterConcat(order[start..end], order[end..], keep);
    assert order[start..end] + order[end..] == order[start..];
  }

  lemma LivePrefix<T>(order: seq<T>, keep: T -> bool, end: nat)
    requires end <= |order|
    ensures Filter(order[..end], keep) <= Filter(order, keep)
  {
    LiveSoFar(order, keep, end, |order|);
    assert order[..|order|] == order;
  }

  /** One more page is one more stretch of the scan. */
  lemma PageAppends<T>(order: seq<T>, keep: T -> bool, start: nat, limit: Option<nat>, page: Page<T>)
    requires start <= |order| && ValidPage(order, keep, start, limit, page)
    ensures Filter(order[..start], keep) + page.items == Filter(order[..PageEnd(order, page)], keep)
    ensures |page.items| <= PageEnd(order, page) - start
  {
    LiveSoFar(order, keep, start, PageEnd(order, page));
  }

  /** The loop stops at the end of the partition or at the limit; either way it holds the first `limit` live items. */
  lemma FetchDone<T>(order: seq<T>, keep: T -> bool, evaluated: nat, limit: Option<int>)
    requires evaluated <= |order|
    requires limit.Some? ==> |Filter(order[..evaluated], keep)| <= limit.value
    requires evaluated == |order| || (limit.Some? && |Filter(order[..evaluated], keep)| == limit.value)
    ensures Filter(order[..evaluated], keep) == TakeUpTo(Filter(order, keep), limit)
  {
    LivePrefix(order, keep, evaluated);
    assert order[..|order|] == order;
  }

  method Fetch<T(==)>(table: Partition<T>, keep: T -> bool, forward: bool, limit: Option<int>) returns (items: seq<T>)
    requires limit.Some? ==> limit.value >= 1
    ensures items == TakeUpTo(Filter(Directed(table.entries, forward), keep), limit)
  {
    ghost var order := Directed(table.entries, forward);
    items := [];
    var startKey: Option<nat> := None;
    ghost var evaluated := 0;
    while true
      invariant evaluated <= |order| && evaluated == if startKey.Some? then startKey.value else 0
      invariant items == Filter(order[..evaluated], keep)
      invariant limit.Some? ==> |items| < limit.value
      decreases |order| - evaluated
    {
      var remaining := if limit.None? then None else Some(limit.value - |items|);
      var page := table.Query(forward, keep, QueryLimit(remaining), startKey);
      PageAppends(order, keep, evaluated, QueryLimit(remaining), page);
      items := items + page.items;
      startKey := page.next;
      evaluated := PageEnd(order, page);
      if startKey.None? || (limit.Some? && |items| >= limit.value) { break; }
    }
    FetchDone(order, keep, evaluated, limit);
  }

  method CountNative<T(==)>(table: Partition<T>, keep: T -> bool) returns (count: nat)
    ensures count == |Filter(table.entries, keep)|
  {
    ghost var order := table.entries;
    count := 0;
    var startKey: Option<nat> := None;
    ghost var evaluated := 0;
    while true
      invariant evaluated <= |order| && evaluated == if startKey.Some? then startKey.value else 0
      invariant count == |Filter(order[..evaluated], keep)|
      decreases |order| - evaluated
    {
      var page := table.Query(true, keep, None, startKey);
      PageAppends(order, keep, evaluated, None, page);
      count := count + |page.items|;
      startKey := page.next;
      evaluated := PageEnd(order, page);
      if startKey.None? { break; }
    }
    assert order[..|order|] == order;
  }

  /**
   * One page of the partition, from the key an earlier page ended with; None where plans with predicates are refused.
   */
  method ToPage<T(==)>(table: Partition<T>, keep: T -> bool, plan: QueryPlan<T>, limit: int,
      exclusiveStartKey: Option<nat>, forward: bool)
    returns (page: Option<Page<T>>)
    requires exclusiveStartKey.Some? ==> exclusiveStartKey.value <= |table.entries|
    ensures page.None? <==> plan.predicates != []
    ensures page.Some? ==>
      ValidPage(Directed(table.entries, forward), keep, if exclusiveStartKey.Some? then exclusiveStartKey.value
        else 0, QueryLimit(Some(limit)), page.value)
  {
    if |plan.predicates| > 0 { return None; }
    var next := table.Query(forward, keep, QueryLimit(Some(limit)), exclusiveStartKey);
    page := Some(next);
  }

  /** A run of `toPage` calls, each started from the key the one before returned, until the partition is exhausted. */
  ghost predicate Chain<T>(order: seq<T>, keep: T -> bool, limit: int, start: nat, pages: seq<Page<T>>)
    decreases |pages|
  {
    && pages != []
    && ValidPage(order, keep, start, QueryLimit(Some(limit)), pages[0])
    && (if pages[0].next.Some? then Chain(order, keep, limit, pages[0].next.value, pages[1..]) else |pages| == 1)
  }

  function Concat<T>(pages: seq<Page<T>>): seq<T> {
    if pages == [] then [] else pages[0].items + Concat(pages[1..])
  }

  /** Chained pages yield every live item once, in order, and a chain cannot go on for ever. */
  lemma {:induction false} ChainYieldsAll<T>(order: seq<T>, keep: T -> bool, limit: int, start: nat,
      pages: seq<Page<T>>)
    requires start <= |order| && Chain(order, keep, limit, start, pages)
    ensures Concat(pages) == Filter(order[start..], keep)
    ensures |pages| <= |order| - start + 1
    decreases |pages|
  {
    if pages[0].next.Some? {
      var end := pages[0].next.value;
      ChainYieldsAll(order, keep, limit, end, pages[1..]);
      LiveRest(order, keep, start, end);
    } else {
      assert order[start..|order|] == order[start..];
      assert Concat(pages[1..]) == [];
    }
  }

  // ---------------------------------------------------------------- query plans

  datatype Direction = Asc | Desc
  datatype SortKey = Name(name: string) | Selector(id: nat)
  datatype OrderClause = OrderClause(key: SortKey, direction: Direction)
  datatype QueryPlan<!T> = QueryPlan(predicates: seq<T -> bool>, ordering: seq<OrderClause>, skip: Option<int>,
      take: Option<int>)

  /** How two entities compare under one sort key: negative, zero or positive. */
  type Comparison<!T> = (SortKey, T, T) -> int

  function Compare<T>(compare: Comparison<T>, ordering: seq<OrderClause>, x: T, y: T): int {
    if ordering == [] then 0
    else
      var c := compare(ordering[0].key, x, y);
      if c != 0 then (if ordering[0].direction.Desc? then -c else c) else Compare(compare, ordering[1..], x, y)
  }

  /** An ordering as one comparison. */
  function Ordered<T>(compare: Comparison<T>, ordering: seq<OrderClause>): (T, T) -> int {
    (x: T, y: T) => Compare(compare, ordering, x, y)
  }

  function FilterAll<T>(items: seq<T>, predicates: seq<T -> bool>): seq<T>
    decreases |predicates|
  {
    if predicates == [] then items else FilterAll(Filter(items, predicates[0]), predicates[1..])
  }

  function Drop<T>(s: seq<T>, count: int): seq<T> { s[Max(0, Min(|s|, count))..] }

  /** A plan evaluated in memory: filter, sort, skip, take. */
  function ExecuteQueryPlan<T>(items: seq<T>, plan: QueryPlan<T>, compare: Comparison<T>): seq<T> {
    var kept := FilterAll(items, plan.predicates);
    var sorted := if plan.ordering == [] then kept else StableSort(kept, Ordered(compare, plan.ordering));
    var skipped := if plan.skip.Some? && plan.skip.value > 0 then Drop(sorted, plan.skip.value) else sorted;
    TakeUpTo(skipped, plan.take)
  }

  /** The scan direction that gives the plan's order for free, if the index provides one. */
  function NativeDirection<T>(plan: QueryPlan<T>, nativeKeys: seq<string>, lower: string -> string): Option<Direction> {
    if plan.ordering == [] then Some(Asc)
    else if |plan.ordering| != 1 then None
    else
      match plan.ordering[0]
      case OrderClause(Name(name), direction) => if lower(name) in nativeKeys then Some(direction) else None
      case OrderClause(Selector(_), _) => None
  }

  /** Fetching `skip + take` live items and slicing them is skipping and taking. */
  lemma SliceOfFetched<T>(live: seq<T>, skip: nat, take: nat)
    ensures var window := Some(skip + take);
      Drop(TakeUpTo(TakeUpTo(live, window), window), skip) == TakeUpTo(Drop(live, skip), Some(take))
  {
  }

  /** The native branch of a plan. */
  method FetchSlice<T(==)>(table: Partition<T>, keep: T -> bool, forward: bool, skip: nat, takeCount: Option<int>)
      returns (result: seq<T>)
    ensures result == TakeUpTo(Drop(Filter(Directed(table.entries, forward), keep), skip), takeCount)
  {
    var take := if takeCount.Some? then Some(Max(0, takeCount.value)) else None;
    if take == Some(0) { return []; }
    var fetched := Fetch(table, keep, forward, if take.None? then None else Some(skip + take.value));
    if take.Some? { SliceOfFetched(Filter(Directed(table.entries, forward), keep), skip, take.value); }
    result := if take.None? then Drop(fetched, skip) else Drop(TakeUpTo(fetched, Some(skip + take.value)), skip);
  }

  method ExecutePlan<T(==)>(table: Partition<T>, keep: T -> bool, plan: QueryPlan<T>, nativeKeys: seq<string>,
      lower: string -> string, compare: Comparison<T>)
    returns (result: seq<T>)
    ensures var direction := NativeDirection(plan, nativeKeys, lower);
      if plan.predicates == [] && direction.Some? then
        var skip := if plan.skip.Some? then Max(0, plan.skip.value) else 0;
        result == TakeUpTo(Drop(Filter(Directed(table.entries, direction.value.Asc?), keep), skip), plan.take)
      else result == ExecuteQueryPlan(Filter(table.entries, keep), plan, compare)
  {
    var direction := NativeDirection(plan, nativeKeys, lower);
    if |plan.predicates| == 0 && direction.Some? {
      var skip := if plan.skip.Some? then Max(0, plan.skip.value) else 0;
      result := FetchSlice(table, keep, direction.value.Asc?, skip, plan.take);
    } else {
      var fetched := Fetch(table, keep, true, None);
      result := ExecuteQueryPlan(fetched, plan, compare);
    }
  }

  /** The index delivers its entries in the order of its native keys; `strict` when no two entries tie. */
  ghost predicate IndexSorted<T>(entries: seq<T>, nativeKeys: seq<string>, lower: string -> string,
      compare: Comparison<T>, strict: bool) {
    forall name: string, i, j :: lower(name) in nativeKeys && 0 <= i < j < |entries| ==>
      var c := compare(Name(name), entries[i], entries[j]);
      c <= 0 && (strict ==> c < 0)
  }

  lemma {:induction false} FilterKeepsOrder<T>(entries: seq<T>, keep: T -> bool, nativeKeys: seq<string>,
      lower: string -> string, compare: Comparison<T>, strict: bool)
    requires IndexSorted(entries, nativeKeys, lower, compare, strict)
    ensures IndexSorted(Filter(entries, keep), nativeKeys, lower, compare, strict)
  {
    if entries != [] {
      var n := |entries| - 1;
      FilterKeepsOrder(entries[..n], keep, nativeKeys, lower, compare, strict);
      if keep(entries[n]) {
        var init := Filter(entries[..n], keep);
        forall name: string, i, j | lower(name) in nativeKeys && 0 <= i < j < |init| + 1
          ensures var c := compare(Name(name), (init + [entries[n]])[i], (init + [entries[n]])[j]);
            c <= 0 && (strict ==> c < 0)
        {
          if j == |init| {
            FilterElements(entries[..n], keep);
            assert init[i] in entries[..n];
            var k :| 0 <= k < n && entries[k] == init[i];
          }
        }
      }
    }
  }

  lemma FilterOne<T>(x: T, keep: T -> bool)
    ensures Filter([x], keep) == if keep(x) then [x] else []
  {
  }

  lemma {:induction false} FilterReverse<T>(s: seq<T>, keep: T -> bool)
    ensures Filter(Reverse(s), keep) == Reverse(Filter(s, keep))
  {
    if s != [] {
      var n := |s| - 1;
      var last := [s[n]];
      calc {
        Filter(Reverse(s), keep);
        Filter(last + Reverse(s[..n]), keep);
        { FilterConcat(last, Reverse(s[..n]), keep); }
        Filter(last, keep) + Filter(Reverse(s[..n]), keep);
        { FilterReverse(s[..n], keep); FilterOne(s[n], keep); }
        (if keep(s[n]) then last else []) + Reverse(Filter(s[..n], keep));
        { ReverseSnoc(Filter(s[..n], keep), s[n]); }
        Reverse(Filter(s[..n], keep) + (if keep(s[n]) then last else []));
        Reverse(Filter(s, keep));
      }
    }
  }

  lemma CompareOne<T>(compare: Comparison<T>, clause: OrderClause, x: T, y: T)
    ensures Compare(compare, [clause], x, y) == var c := compare(clause.key, x, y);
      if clause.direction.Desc? then -c else c
  {
  }

  /**
   * The native plan is the in-memory plan: paging through the index gives what filtering, sorting, skipping and taking
   * the whole partition gives. Descending scans need an index without ties.
   */
  lemma NativePlanRefinesQueryPlan<T>(entries: seq<T>, keep: T -> bool, plan: QueryPlan<T>, nativeKeys: seq<string>,
      lower: string -> string, compare: Comparison<T>)
    requires plan.predicates == []
    requires var direction := NativeDirection(plan, nativeKeys, lower);
      direction.Some? && IndexSorted(entries, nativeKeys, lower, compare, direction.value.Desc?)
    ensures var direction := NativeDirection(plan, nativeKeys, lower);
      var skip := if plan.skip.Some? then Max(0, plan.skip.value) else 0;
      TakeUpTo(Drop(Filter(Directed(entries, direction.value.Asc?), keep), skip), plan.take)
        == ExecuteQueryPlan(Filter(entries, keep), plan, compare)
  {
    var direction := NativeDirection(plan, nativeKeys, lower).value;
    var kept := Filter(entries, keep);
    if plan.ordering != [] {
      var clause := plan.ordering[0];
      assert plan.ordering == [clause];
      FilterKeepsOrder(entries, keep, nativeKeys, lower, compare, direction.Desc?);
      forall i, j | 0 <= i < j < |kept|
        ensures if direction.Asc? then Compare(compare, plan.ordering, kept[i], kept[j]) <= 0
          else Compare(compare, plan.ordering, kept[i], kept[j]) > 0
      {
        CompareOne(compare, clause, kept[i], kept[j]);
      }
      if direction.Asc? {
        SortOfSorted(kept, Ordered(compare, plan.ordering));
      } else {
        SortOfReversed(kept, Ordered(compare, plan.ordering));
        FilterReverse(entries, keep);
      }
    }
  }

  /**
   * And a descending scan needs it: for distinct entities it gives what sorting in memory gives if and only if no two
   * of them tie.
   */
  lemma DescendingScanIff<T>(entries: seq<T>, keep: T -> bool, plan: QueryPlan<T>, nativeKeys: seq<string>,
      lower: string -> string, compare: Comparison<T>)
    requires plan.predicates == [] && plan.skip.None? && plan.take.None? &&
      NativeDirection(plan, nativeKeys, lower) == Some(Desc)
    requires var kept := Filter(entries, keep); forall i, j :: 0 <= i < j < |kept| ==> kept[i] != kept[j]
    ensures var kept := Filter(entries, keep);
      Filter(Directed(entries, false), keep) == ExecuteQueryPlan(kept, plan, compare) <==>
        forall i, j :: 0 <= i < j < |kept| ==> compare(plan.ordering[0].key, kept[i], kept[j]) < 0
  {
    var kept, clause := Filter(entries, keep), plan.ordering[0];
    assert plan.ordering == [clause];
    FilterReverse(entries, keep);
    SortReversesIff(kept, Ordered(compare, plan.ordering));
    forall i, j | 0 <= i < j < |kept|
      ensures Ordered(compare, plan.ordering)(kept[i], kept[j]) > 0 <==> compare(clause.key, kept[i], kept[j]) < 0
    {
      CompareOne(compare, clause, kept[i], kept[j]);
    }
  }
}
