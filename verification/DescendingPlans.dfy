/** Descending plans over an index with ties: which windows a reversed scan answers as sorting in memory does. */
module DescendingPlans {
  import opened Common
  import opened Paging

  /** The sign laws of a comparison that goes by some order of the keys. */
  ghost predicate Lawful<T(!new)>(c: (T, T) -> int) {
    && (forall x, y :: c(x, y) < 0 <==> c(y, x) > 0)
    && (forall x, y, z :: c(x, y) <= 0 && c(y, z) <= 0 ==> c(x, z) <= 0)
  }

  function Descending<T>(c: (T, T) -> int): (T, T) -> int { (x: T, y: T) => -c(x, y) }

  // ---------------------------------------------------------------- groups of ties

  function GroupStart<T>(s: seq<T>, c: (T, T) -> int, y: nat): (g: nat)
    requires y < |s|
    ensures g <= y
  {
    if y > 0 && c(s[y - 1], s[y]) == 0 then GroupStart(s, c, y - 1) else y
  }

  function GroupEnd<T>(s: seq<T>, c: (T, T) -> int, y: nat): (g: nat)
    requires y < |s|
    ensures y < g <= |s|
    decreases |s| - y
  {
    if y + 1 < |s| && c(s[y], s[y + 1]) == 0 then GroupEnd(s, c, y + 1) else y + 1
  }

  /** As many ties before it as after it. */
  predicate InTheMiddle<T>(s: seq<T>, c: (T, T) -> int, y: nat)
    requires y < |s|
  {
    y - GroupStart(s, c, y) == GroupEnd(s, c, y) - 1 - y
  }

  /** The order by one key. */
  function KeyOrder<T>(compare: Comparison<T>, key: SortKey): (T, T) -> int { (x: T, y: T) => compare(key, x, y) }

  lemma {:induction false} InGroup<T>(s: seq<T>, c: (T, T) -> int, y: nat, i: nat)
    requires y < |s| && GroupStart(s, c, y) <= i <= y
    ensures GroupStart(s, c, i) == GroupStart(s, c, y) && GroupEnd(s, c, i) == GroupEnd(s, c, y)
    decreases y
  {
    if i < y { InGroup(s, c, y - 1, i); }
  }

  lemma {:induction false} GroupStartIsStart<T>(s: seq<T>, c: (T, T) -> int, y: nat)
    requires y < |s|
    ensures var g := GroupStart(s, c, y); g > 0 ==> c(s[g - 1], s[g]) != 0
  {
    if y > 0 && c(s[y - 1], s[y]) == 0 { GroupStartIsStart(s, c, y - 1); }
  }

  lemma {:induction false} StartInPrefix<T>(s: seq<T>, c: (T, T) -> int, g: nat, y: nat)
    requires y < g <= |s|
    ensures GroupStart(s[..g], c, y) == GroupStart(s, c, y)
  {
    if y > 0 { StartInPrefix(s, c, g, y - 1); }
  }

  lemma {:induction false} EndInPrefix<T>(s: seq<T>, c: (T, T) -> int, g: nat, y: nat)
    requires y < g < |s| && c(s[g - 1], s[g]) != 0
    ensures GroupEnd(s[..g], c, y) == GroupEnd(s, c, y)
    decreases g - y
  {
    if y + 1 < g { EndInPrefix(s, c, g, y + 1); }
  }

  /** Two elements tie exactly if they are in one group; others are in ascending order. */
  predicate TieInGroup<T>(s: seq<T>, c: (T, T) -> int, i: nat, j: nat)
    requires i < j < |s|
  {
    c(s[i], s[j]) <= 0 && (c(s[i], s[j]) == 0 <==> GroupStart(s, c, j) <= i)
  }

  ghost predicate InGroups<T>(s: seq<T>, c: (T, T) -> int) {
    forall i: nat, j: nat :: i < j < |s| ==> TieInGroup(s, c, i, j)
  }

  lemma AtMost<T(!new)>(c: (T, T) -> int, x: T, y: T, z: T)
    requires Lawful(c) && c(x, y) <= 0 && c(y, z) <= 0
    ensures c(x, z) <= 0
  {
  }

  lemma Flipped<T(!new)>(c: (T, T) -> int, x: T, y: T)
    requires Lawful(c)
    ensures (c(x, y) < 0 <==> c(y, x) > 0) && (c(x, y) == 0 <==> c(y, x) == 0)
  {
  }

  lemma {:induction false} SortedInGroups<T(!new)>(s: seq<T>, c: (T, T) -> int, i: nat, j: nat)
    requires Lawful(c) && Sorted(s, c) && i < j < |s|
    ensures c(s[i], s[j]) == 0 <==> GroupStart(s, c, j) <= i
    decreases j
  {
    var x, y, z := s[i], s[j - 1], s[j];
    if i < j - 1 { SortedInGroups(s, c, i, j - 1); }
    Flipped(c, x, y);
    Flipped(c, y, z);
    Flipped(c, x, z);
    if c(y, z) == 0 {
      if i < j - 1 && c(x, y) == 0 { AtMost(c, z, y, x); }
      if i < j - 1 && c(x, z) == 0 { AtMost(c, y, z, x); }
    } else if i < j - 1 && c(x, z) == 0 {
      AtMost(c, z, x, y);
    }
  }

  lemma Grouped<T(!new)>(s: seq<T>, c: (T, T) -> int)
    requires Lawful(c) && Sorted(s, c)
    ensures InGroups(s, c)
  {
    forall i: nat, j: nat | i < j < |s| ensures TieInGroup(s, c, i, j) { SortedInGroups(s, c, i, j); }
  }

  // ---------------------------------------------------------------- sorting group by group

  ghost predicate NoneAfter<T>(s: seq<T>, x: T, compare: (T, T) -> int) {
    forall i :: 0 <= i < |s| ==> compare(s[i], x) <= 0
  }

  ghost predicate AllAfter<T>(s: seq<T>, x: T, compare: (T, T) -> int) {
    forall i :: 0 <= i < |s| ==> compare(s[i], x) > 0
  }

  lemma {:induction false} InsertBetween<T>(ties: seq<T>, rest: seq<T>, x: T, compare: (T, T) -> int)
    requires NoneAfter(ties, x, compare) && AllAfter(rest, x, compare)
    ensures Insert(ties + rest, x, compare) == ties + [x] + rest
  {
    var n := |rest|;
    if n == 0 {
      assert ties + rest == ties;
    } else {
      InsertBetween(ties, rest[..n - 1], x, compare);
      assert (ties + rest)[..|ties| + n - 1] == ties + rest[..n - 1];
      assert ties + [x] + rest == (ties + [x] + rest[..n - 1]) + [rest[n - 1]];
    }
  }

  lemma SortedIsMember<T>(items: seq<T>, compare: (T, T) -> int, i: nat)
    requires i < |items|
    ensures StableSort(items, compare)[i] in items
  {
    SortMembers(items, compare);
    assert StableSort(items, compare)[i] in multiset(StableSort(items, compare));
  }

  lemma TiesStay<T>(s: seq<T>, c: (T, T) -> int, g: nat, n: nat)
    requires InGroups(s, c) && g < n <= |s| && GroupStart(s, c, n - 1) == g
    ensures NoneAfter(s[g..n - 1], s[n - 1], Descending(c))
  {
    var ties := s[g..n - 1];
    forall i | 0 <= i < |ties| ensures Descending(c)(ties[i], s[n - 1]) <= 0 {
      assert TieInGroup(s, c, g + i, n - 1);
    }
  }

  lemma RestMakesWay<T>(s: seq<T>, c: (T, T) -> int, g: nat, n: nat)
    requires InGroups(s, c) && g < n <= |s| && GroupStart(s, c, n - 1) == g
    ensures AllAfter(StableSort(s[..g], Descending(c)), s[n - 1], Descending(c))
  {
    var rest := StableSort(s[..g], Descending(c));
    forall i | 0 <= i < |rest| ensures Descending(c)(rest[i], s[n - 1]) > 0 {
      SortedIsMember(s[..g], Descending(c), i);
      var k :| 0 <= k < g && s[..g][k] == rest[i];
      assert TieInGroup(s, c, k, n - 1);
    }
  }

  lemma GroupGrows<T>(s: seq<T>, c: (T, T) -> int, g: nat, n: nat)
    requires InGroups(s, c) && g < n <= |s| && GroupStart(s, c, n - 1) == g
    ensures var rest := StableSort(s[..g], Descending(c));
      Insert(s[g..n - 1] + rest, s[n - 1], Descending(c)) == s[g..n] + rest
  {
    TiesStay(s, c, g, n);
    RestMakesWay(s, c, g, n);
    InsertBetween(s[g..n - 1], StableSort(s[..g], Descending(c)), s[n - 1], Descending(c));
    assert s[g..n] == s[g..n - 1] + [s[n - 1]];
  }

  lemma SortLast<T>(s: seq<T>, n: nat, compare: (T, T) -> int)
    requires 0 < n <= |s|
    ensures StableSort(s[..n], compare) == Insert(StableSort(s[..n - 1], compare), s[n - 1], compare)
  {
    assert s[..n][..n - 1] == s[..n - 1];
  }

  /** The last group comes first, in its own order, and the rest is sorted after it. */
  lemma {:induction false} LastGroupFirst<T>(s: seq<T>, c: (T, T) -> int, g: nat, n: nat)
    requires InGroups(s, c) && g <= n <= |s|
    requires n > g ==> GroupStart(s, c, n - 1) == g
    ensures StableSort(s[..n], Descending(c)) == s[g..n] + StableSort(s[..g], Descending(c))
    decreases n
  {
    if n > g {
      if n - 1 > g { InGroup(s, c, n - 1, n - 2); }
      LastGroupFirst(s, c, g, n - 1);
      GroupGrows(s, c, g, n);
      SortLast(s, n, Descending(c));
    } else {
      assert s[g..n] == [];
    }
  }

  /** The place with as many elements of the group before it as there are after the `y`-th. */
  function Mirror<T>(s: seq<T>, c: (T, T) -> int, y: nat): (m: nat)
    requires y < |s|
    ensures m < |s|
  {
    GroupStart(s, c, y) + GroupEnd(s, c, y) - 1 - y
  }

  lemma MirrorInLast<T>(s: seq<T>, c: (T, T) -> int, y: nat)
    requires y < |s| && GroupStart(s, c, |s| - 1) <= y
    ensures Mirror(s, c, y) == GroupStart(s, c, |s| - 1) + (|s| - 1 - y)
  {
    InGroup(s, c, |s| - 1, y);
  }

  lemma MirrorInPrefix<T>(s: seq<T>, c: (T, T) -> int, g: nat, y: nat)
    requires y < g < |s| && GroupStart(s, c, |s| - 1) == g
    ensures Mirror(s[..g], c, y) == Mirror(s, c, y)
  {
    GroupStartIsStart(s, c, |s| - 1);
    StartInPrefix(s, c, g, y);
    EndInPrefix(s, c, g, y);
  }

  lemma PrefixInGroups<T>(s: seq<T>, c: (T, T) -> int, g: nat)
    requires InGroups(s, c) && g <= |s|
    ensures InGroups(s[..g], c)
  {
    forall i: nat, j: nat | i < j < g ensures TieInGroup(s[..g], c, i, j) {
      assert TieInGroup(s, c, i, j);
      StartInPrefix(s, c, g, j);
    }
  }

  /** The `y`-th element from the end is the mirrored one of `s`. */
  ghost predicate MirrorsAt<T>(sorted: seq<T>, s: seq<T>, c: (T, T) -> int, y: nat)
    requires y < |s|
  {
    |sorted| == |s| && sorted[|s| - 1 - y] == s[Mirror(s, c, y)]
  }

  lemma LastMirrors<T>(s: seq<T>, c: (T, T) -> int, rest: seq<T>, y: nat)
    requires s != [] && GroupStart(s, c, |s| - 1) <= y < |s| && |rest| == GroupStart(s, c, |s| - 1)
    ensures MirrorsAt(s[GroupStart(s, c, |s| - 1)..] + rest, s, c, y)
  {
    var g := GroupStart(s, c, |s| - 1);
    MirrorInLast(s, c, y);
    FromSlice(s, g, rest, |s| - 1 - y);
  }

  lemma FromSlice<T>(s: seq<T>, g: nat, rest: seq<T>, i: nat)
    requires g + i < |s|
    ensures (s[g..] + rest)[i] == s[g + i]
  {
  }

  lemma FromRest<T>(s: seq<T>, g: nat, rest: seq<T>, i: nat)
    requires g <= |s| && i < |rest|
    ensures (s[g..] + rest)[|s| - g + i] == rest[i]
  {
  }

  lemma RestMirrors<T>(s: seq<T>, c: (T, T) -> int, rest: seq<T>, g: nat, y: nat)
    requires y < g < |s| && GroupStart(s, c, |s| - 1) == g && MirrorsAt(rest, s[..g], c, y)
    ensures MirrorsAt(s[g..] + rest, s, c, y)
  {
    MirrorInPrefix(s, c, g, y);
    assert s[..g][Mirror(s[..g], c, y)] == s[Mirror(s, c, y)];
    FromRest(s, g, rest, g - 1 - y);
  }

  lemma WholeSorted<T>(s: seq<T>, c: (T, T) -> int)
    requires InGroups(s, c) && s != []
    ensures var g := GroupStart(s, c, |s| - 1);
      StableSort(s, Descending(c)) == s[g..] + StableSort(s[..g], Descending(c))
  {
    var g := GroupStart(s, c, |s| - 1);
    LastGroupFirst(s, c, g, |s|);
    assert s[..|s|] == s && s[g..|s|] == s[g..];
  }

  /** Sorting a list in descending order reverses the groups and keeps the order within each. */
  lemma {:induction false} SortMirrors<T>(s: seq<T>, c: (T, T) -> int, y: nat)
    requires InGroups(s, c) && y < |s|
    ensures MirrorsAt(StableSort(s, Descending(c)), s, c, y)
    decreases |s|
  {
    var g := GroupStart(s, c, |s| - 1);
    WholeSorted(s, c);
    if y >= g {
      LastMirrors(s, c, StableSort(s[..g], Descending(c)), y);
    } else {
      PrefixInGroups(s, c, g);
      SortMirrors(s[..g], c, y);
      RestMirrors(s, c, StableSort(s[..g], Descending(c)), g, y);
    }
  }

  // ---------------------------------------------------------------- windows

  /** Whether the element that is `y`-th in ascending order has a place in this window of the descending order. */
  predicate InWindow(n: nat, y: nat, skip: nat, take: Option<int>) {
    skip <= n - 1 - y && (take.Some? ==> n - 1 - y < skip + take.value)
  }

  ghost predicate SameAt<T>(a: seq<T>, b: seq<T>, y: nat)
    requires y < |a| == |b|
  {
    a[|a| - 1 - y] == b[|a| - 1 - y]
  }

  lemma WindowsEqualIff<T>(a: seq<T>, b: seq<T>, skip: nat, take: Option<int>)
    requires |a| == |b|
    ensures TakeUpTo(Drop(a, skip), take) == TakeUpTo(Drop(b, skip), take)
      <==> forall y: nat :: y < |a| && InWindow(|a|, y, skip, take) ==> SameAt(a, b, y)
  {
    var n := |a|;
    var v, w := TakeUpTo(Drop(a, skip), take), TakeUpTo(Drop(b, skip), take);
    if v == w {
      forall y: nat | y < n && InWindow(n, y, skip, take) ensures SameAt(a, b, y) {
        assert v[n - 1 - y - skip] == w[n - 1 - y - skip];
      }
    }
    if forall y: nat :: y < n && InWindow(n, y, skip, take) ==> SameAt(a, b, y) {
      forall i | 0 <= i < |v| ensures v[i] == w[i] {
        var y := n - 1 - (i + skip);
        assert InWindow(n, y, skip, take) && SameAt(a, b, y);
      }
    }
  }

  /**
   * A descending scan answers a plan as sorting in memory does if and only if every element in the window stands in the
   * middle of its group of ties: the newest n, say, without a tie among them or with the next.
   */
  lemma DescendingWindowIff<T(!new)>(entries: seq<T>, keep: T -> bool, plan: QueryPlan<T>, nativeKeys: seq<string>,
                                     lower: string -> string, compare: Comparison<T>)
    requires plan.predicates == [] && NativeDirection(plan, nativeKeys, lower) == Some(Desc)
    requires var c := KeyOrder(compare, plan.ordering[0].key); Lawful(c) && Sorted(Filter(entries, keep), c)
    requires AllDistinct(Filter(entries, keep))
    ensures var kept, c := Filter(entries, keep), KeyOrder(compare, plan.ordering[0].key);
      TakeUpTo(Drop(Filter(Directed(entries, false), keep), Skipped(plan)), plan.take) ==
        ExecuteQueryPlan(kept, plan, compare)
      <==> forall y: nat :: y < |kept| && InWindow(|kept|, y, Skipped(plan), plan.take) ==> InTheMiddle(kept, c, y)
  {
    var kept, c := Filter(entries, keep), KeyOrder(compare, plan.ordering[0].key);
    FilterReverse(entries, keep);
    DescendingPlan(kept, plan, compare);
    Grouped(kept, c);
    MirroredWindowIff(kept, c, Skipped(plan), plan.take);
  }

  function Skipped<T>(plan: QueryPlan<T>): nat { if plan.skip.Some? then Max(0, plan.skip.value) else 0 }

  lemma DescendingPlan<T>(items: seq<T>, plan: QueryPlan<T>, compare: Comparison<T>)
    requires plan.predicates == [] && |plan.ordering| == 1 && plan.ordering[0].direction.Desc?
    ensures ExecuteQueryPlan(items, plan, compare)
      == TakeUpTo(Drop(StableSort(items, Descending(KeyOrder(compare, plan.ordering[0].key))), Skipped(plan)),
        plan.take)
  {
    assert plan.ordering == [plan.ordering[0]];
    SameOrder(compare, plan.ordering[0], items);
  }

  lemma {:induction false} SameInsert<T>(sorted: seq<T>, x: T, a: (T, T) -> int, b: (T, T) -> int)
    requires forall x, y :: a(x, y) == b(x, y)
    ensures Insert(sorted, x, a) == Insert(sorted, x, b)
  {
    if sorted != [] { SameInsert(sorted[..|sorted| - 1], x, a, b); }
  }

  lemma {:induction false} SameSort<T>(items: seq<T>, a: (T, T) -> int, b: (T, T) -> int)
    requires forall x, y :: a(x, y) == b(x, y)
    ensures StableSort(items, a) == StableSort(items, b)
  {
    if items != [] {
      var n := |items| - 1;
      SameSort(items[..n], a, b);
      SameInsert(StableSort(items[..n], a), items[n], a, b);
    }
  }

  /** The plan's comparison is the descending one. */
  lemma SameOrder<T>(compare: Comparison<T>, clause: OrderClause, items: seq<T>)
    requires clause.direction.Desc?
    ensures StableSort(items, Ordered(compare, [clause])) ==
      StableSort(items, Descending(KeyOrder(compare, clause.key)))
  {
    forall x, y ensures Ordered(compare, [clause])(x, y) == Descending(KeyOrder(compare, clause.key))(x, y) {
      CompareOne(compare, clause, x, y);
    }
    SameSort(items, Ordered(compare, [clause]), Descending(KeyOrder(compare, clause.key)));
  }

  ghost predicate Differ<T>(s: seq<T>, i: nat, j: nat)
    requires i < j < |s|
  {
    s[i] != s[j]
  }

  ghost predicate AllDistinct<T>(s: seq<T>) { forall i: nat, j: nat :: i < j < |s| ==> Differ(s, i, j) }

  lemma Distinct<T>(s: seq<T>, i: nat, j: nat)
    requires i < |s| && j < |s| && AllDistinct(s)
    ensures s[i] == s[j] <==> i == j
  {
    assert i < j ==> Differ(s, i, j);
    assert j < i ==> Differ(s, j, i);
  }


  lemma MirrorSame<T>(sorted: seq<T>, kept: seq<T>, c: (T, T) -> int, y: nat)
    requires y < |kept| && MirrorsAt(sorted, kept, c, y)
    requires kept[y] == kept[Mirror(kept, c, y)] <==> y == Mirror(kept, c, y)
    ensures InTheMiddle(kept, c, y) <==> sorted[|kept| - 1 - y] == kept[y]
  {
  }

  lemma SameAsReverse<T>(sorted: seq<T>, s: seq<T>, y: nat)
    requires y < |s| == |sorted|
    ensures SameAt(Reverse(s), sorted, y) <==> sorted[|s| - 1 - y] == s[y]
  {
  }

  /** An element keeps its place, counted from the end, exactly if it is in the middle of its group. */
  lemma MiddleIff<T>(kept: seq<T>, c: (T, T) -> int, y: nat)
    requires InGroups(kept, c) && AllDistinct(kept) && y < |kept|
    ensures InTheMiddle(kept, c, y) <==> SameAt(Reverse(kept), StableSort(kept, Descending(c)), y)
  {
    Distinct(kept, y, Mirror(kept, c, y));
    SortMirrors(kept, c, y);
    MirrorSame(StableSort(kept, Descending(c)), kept, c, y);
    SameAsReverse(StableSort(kept, Descending(c)), kept, y);
  }

  lemma MirroredWindowIff<T>(kept: seq<T>, c: (T, T) -> int, skip: nat, take: Option<int>)
    requires InGroups(kept, c) && AllDistinct(kept)
    ensures TakeUpTo(Drop(Reverse(kept), skip), take) == TakeUpTo(Drop(StableSort(kept, Descending(c)), skip), take)
      <==> forall y: nat :: y < |kept| && InWindow(|kept|, y, skip, take) ==> InTheMiddle(kept, c, y)
  {
    var sorted := StableSort(kept, Descending(c));
    WindowsEqualIff(Reverse(kept), sorted, skip, take);
    forall y: nat | y < |kept| ensures InTheMiddle(kept, c, y) <==> SameAt(Reverse(kept), sorted, y) {
      MiddleIff(kept, c, y);
    }
  }
}
