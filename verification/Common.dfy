/** Small vocabulary shared by the other modules: optional values, list filtering, decimal text and string order. */
module Common {

  datatype Option<+T> = None | Some(value: T)

  function Min(a: int, b: int): int { if a <= b then a else b }

  function Max(a: int, b: int): int { if a <= b then b else a }

  function FirstN<T>(s: seq<T>, n: nat): seq<T> { s[..Min(|s|, n)] }

  /** The elements of `s` that satisfy `keep`, in order. */
  function Filter<T>(s: seq<T>, keep: T -> bool): (r: seq<T>)
    ensures |r| <= |s|
  {
    if s == [] then []
    else if keep(s[|s| - 1]) then Filter(s[..|s| - 1], keep) + [s[|s| - 1]]
    else Filter(s[..|s| - 1], keep)
  }

  lemma {:induction false} FilterConcat<T>(a: seq<T>, b: seq<T>, keep: T -> bool)
    ensures Filter(a + b, keep) == Filter(a, keep) + Filter(b, keep)
  {
    if b == [] {
      assert a + b == a;
    } else {
      var n := |b| - 1;
      FilterConcat(a, b[..n], keep);
      assert (a + b)[..|a| + n] == a + b[..n] && (a + b)[|a| + n] == b[n];
      if keep(b[n]) { Appended(Filter(a, keep), Filter(b[..n], keep), b[n]); }
    }
  }

  lemma Appended<T>(a: seq<T>, b: seq<T>, x: T)
    ensures (a + b) + [x] == a + (b + [x])
  {
  }

  lemma FilterPrefix<T>(s: seq<T>, keep: T -> bool, k: nat)
    requires k < |s|
    ensures Filter(s[..k + 1], keep) == if keep(s[k]) then Filter(s[..k], keep) + [s[k]] else Filter(s[..k], keep)
  {
    assert s[..k + 1][..k] == s[..k];
  }

  lemma {:induction false} FilterElements<T>(s: seq<T>, keep: T -> bool)
    ensures forall i :: 0 <= i < |Filter(s, keep)| ==> Filter(s, keep)[i] in s && keep(Filter(s, keep)[i])
  {
    if s != [] {
      var n := |s| - 1;
      FilterElements(s[..n], keep);
      assert s == s[..n] + [s[n]];
    }
  }

  lemma {:induction false} FilterKeeps<T>(s: seq<T>, keep: T -> bool, x: T)
    requires x in s && keep(x)
    ensures x in Filter(s, keep)
  {
    var n := |s| - 1;
    assert s == s[..n] + [s[n]];
    if x in s[..n] { FilterKeeps(s[..n], keep, x); }
  }

  lemma {:induction false} FilterMembers<T(!new)>(s: seq<T>, keep: T -> bool)
    ensures forall x :: x in Filter(s, keep) <==> x in s && keep(x)
  {
    if s != [] {
      var n := |s| - 1;
      FilterMembers(s[..n], keep);
      assert s == s[..n] + [s[n]];
    }
  }

  /** The first occurrence of every element, in order. */
  function Unique<T(==)>(s: seq<T>): seq<T> {
    if s == [] then []
    else
      var n := |s| - 1;
      var init := Unique(s[..n]);
      if s[n] in init then init else init + [s[n]]
  }

  lemma {:induction false} UniqueMembers<T>(s: seq<T>, x: T)
    ensures x in Unique(s) <==> x in s
  {
    if s != [] {
      var n := |s| - 1;
      assert s == s[..n] + [s[n]];
      UniqueMembers(s[..n], x);
    }
  }

  lemma {:induction false} FilterSame<T>(s: seq<T>, a: T -> bool, b: T -> bool)
    requires forall i :: 0 <= i < |s| ==> (a(s[i]) <==> b(s[i]))
    ensures Filter(s, a) == Filter(s, b)
  {
    if s != [] { FilterSame(s[..|s| - 1], a, b); }
  }

  lemma SnocEqual<T>(a: seq<T>, x: T, b: seq<T>, y: T)
    requires a + [x] == b + [y]
    ensures a == b && x == y
  {
    assert (a + [x])[..|a|] == a && (b + [y])[..|b|] == b;
    assert (a + [x])[|a|] == x && (b + [y])[|b|] == y;
  }

  // ---------------------------------------------------------------- reversing and stable sorting

  function Reverse<T>(s: seq<T>): (r: seq<T>)
    ensures |r| == |s|
    ensures forall i :: 0 <= i < |s| ==> r[i] == s[|s| - 1 - i]
  {
    if s == [] then [] else [s[|s| - 1]] + Reverse(s[..|s| - 1])
  }

  lemma ReverseSnoc<T>(s: seq<T>, x: T)
    ensures Reverse(s + [x]) == [x] + Reverse(s)
  {
  }

  /** Places `x` after everything that does not compare greater. */
  function Insert<T>(sorted: seq<T>, x: T, compare: (T, T) -> int): (r: seq<T>)
    ensures |r| == |sorted| + 1
  {
    if sorted == [] then [x]
    else
      var n := |sorted| - 1;
      if compare(sorted[n], x) <= 0 then sorted + [x] else Insert(sorted[..n], x, compare) + [sorted[n]]
  }

  /** The stable sort: equal elements keep their order. */
  function StableSort<T>(items: seq<T>, compare: (T, T) -> int): (r: seq<T>)
    ensures |r| == |items|
  {
    if items == [] then [] else Insert(StableSort(items[..|items| - 1], compare), items[|items| - 1], compare)
  }

  lemma {:induction false} SortOfSorted<T>(items: seq<T>, compare: (T, T) -> int)
    requires forall i, j :: 0 <= i < j < |items| ==> compare(items[i], items[j]) <= 0
    ensures StableSort(items, compare) == items
  {
    if items != [] { SortOfSorted(items[..|items| - 1], compare); }
  }

  lemma {:induction false} InsertFirst<T>(sorted: seq<T>, x: T, compare: (T, T) -> int)
    requires forall i :: 0 <= i < |sorted| ==> compare(sorted[i], x) > 0
    ensures Insert(sorted, x, compare) == [x] + sorted
  {
    if sorted != [] { InsertFirst(sorted[..|sorted| - 1], x, compare); }
  }

  lemma {:induction false} SortOfReversed<T>(items: seq<T>, compare: (T, T) -> int)
    requires forall i, j :: 0 <= i < j < |items| ==> compare(items[i], items[j]) > 0
    ensures StableSort(items, compare) == Reverse(items)
  {
    if items != [] {
      var n := |items| - 1;
      SortOfReversed(items[..n], compare);
      InsertFirst(Reverse(items[..n]), items[n], compare);
    }
  }

  lemma {:induction false} InsertedFirst<T>(sorted: seq<T>, x: T, compare: (T, T) -> int)
    requires x !in sorted && Insert(sorted, x, compare)[0] == x
    ensures forall i :: 0 <= i < |sorted| ==> compare(sorted[i], x) > 0
  {
    if sorted != [] {
      var n := |sorted| - 1;
      if compare(sorted[n], x) > 0 { InsertedFirst(sorted[..n], x, compare); }
    }
  }

  lemma InsertedInFront<T>(sorted: seq<T>, reversed: seq<T>, x: T, compare: (T, T) -> int)
    requires x !in sorted && Insert(sorted, x, compare) == [x] + reversed
    ensures sorted == reversed && forall i :: 0 <= i < |sorted| ==> compare(sorted[i], x) > 0
  {
    InsertedFirst(sorted, x, compare);
    InsertFirst(sorted, x, compare);
    assert ([x] + sorted)[1..] == sorted && ([x] + reversed)[1..] == reversed;
  }

  lemma NotInSort<T>(items: seq<T>, x: T, compare: (T, T) -> int)
    requires x !in items
    ensures x !in StableSort(items, compare)
  {
    SortMembers(items, compare);
    assert x !in multiset(items);
  }

  lemma {:induction false} ReversingSort<T>(items: seq<T>, compare: (T, T) -> int)
    requires forall i, j :: 0 <= i < j < |items| ==> items[i] != items[j]
    requires StableSort(items, compare) == Reverse(items)
    ensures forall i, j :: 0 <= i < j < |items| ==> compare(items[i], items[j]) > 0
  {
    if items != [] {
      var n := |items| - 1;
      var init, x := items[..n], items[n];
      NotInSort(init, x, compare);
      InsertedInFront(StableSort(init, compare), Reverse(init), x, compare);
      ReversingSort(init, compare);
      forall i | 0 <= i < n ensures compare(items[i], x) > 0 { assert Reverse(init)[n - 1 - i] == items[i]; }
    }
  }

  /** Sorting distinct elements reverses them exactly if every one of them compares greater than all after it. */
  lemma SortReversesIff<T>(items: seq<T>, compare: (T, T) -> int)
    requires forall i, j :: 0 <= i < j < |items| ==> items[i] != items[j]
    ensures StableSort(items, compare) == Reverse(items) <==> forall i, j ::
      0 <= i < j < |items| ==> compare(items[i], items[j]) > 0
  {
    if StableSort(items, compare) == Reverse(items) { ReversingSort(items, compare); }
    if forall i, j :: 0 <= i < j < |items| ==> compare(items[i], items[j]) > 0 { SortOfReversed(items, compare); }
  }

  lemma {:induction false} InsertMembers<T>(sorted: seq<T>, x: T, compare: (T, T) -> int)
    ensures multiset(Insert(sorted, x, compare)) == multiset(sorted) + multiset{x}
  {
    if sorted != [] {
      var n := |sorted| - 1;
      assert sorted == sorted[..n] + [sorted[n]];
      InsertMembers(sorted[..n], x, compare);
    }
  }

  lemma {:induction false} SortMembers<T>(items: seq<T>, compare: (T, T) -> int)
    ensures multiset(StableSort(items, compare)) == multiset(items)
  {
    if items != [] {
      var n := |items| - 1;
      assert items == items[..n] + [items[n]];
      SortMembers(items[..n], compare);
      InsertMembers(StableSort(items[..n], compare), items[n], compare);
    }
  }

  /** The sign laws a comparison needs for sorting to make sense. */
  ghost predicate TotalPreorder<T(!new)>(compare: (T, T) -> int) {
    && (forall x, y :: compare(x, y) <= 0 || compare(y, x) <= 0)
    && (forall x, y, z :: compare(x, y) <= 0 && compare(y, z) <= 0 ==> compare(x, z) <= 0)
  }

  ghost predicate Sorted<T>(s: seq<T>, compare: (T, T) -> int) {
    forall i, j :: 0 <= i < j < |s| ==> compare(s[i], s[j]) <= 0
  }

  lemma Transitive<T(!new)>(compare: (T, T) -> int, x: T, y: T, z: T)
    requires TotalPreorder(compare) && compare(x, y) <= 0 && compare(y, z) <= 0
    ensures compare(x, z) <= 0
  {
  }

  lemma {:induction false} InsertBelow<T>(sorted: seq<T>, x: T, compare: (T, T) -> int, bound: T)
    requires compare(x, bound) <= 0 && forall i :: 0 <= i < |sorted| ==> compare(sorted[i], bound) <= 0
    ensures forall i :: 0 <= i < |Insert(sorted, x, compare)| ==> compare(Insert(sorted, x, compare)[i], bound) <= 0
  {
    if sorted != [] { InsertBelow(sorted[..|sorted| - 1], x, compare, bound); }
  }

  lemma {:induction false} InsertSorted<T(!new)>(sorted: seq<T>, x: T, compare: (T, T) -> int)
    requires TotalPreorder(compare) && Sorted(sorted, compare)
    ensures Sorted(Insert(sorted, x, compare), compare)
    decreases |sorted|
  {
    if sorted != [] {
      var n := |sorted| - 1;
      if compare(sorted[n], x) <= 0 {
        forall i | 0 <= i < n ensures compare(sorted[i], x) <= 0 { Transitive(compare, sorted[i], sorted[n], x); }
      } else {
        InsertSorted(sorted[..n], x, compare);
        InsertBelow(sorted[..n], x, compare, sorted[n]);
      }
    }
  }

  lemma {:induction false} SortSorts<T(!new)>(items: seq<T>, compare: (T, T) -> int)
    requires TotalPreorder(compare)
    ensures Sorted(StableSort(items, compare), compare)
    decreases |items|
  {
    if items != [] {
      SortSorts(items[..|items| - 1], compare);
      InsertSorted(StableSort(items[..|items| - 1], compare), items[|items| - 1], compare);
    }
  }

  /** Nothing among the first `n` of a sorted list comes after something that was cut off. */
  lemma FirstAreBest<T(!new)>(items: seq<T>, compare: (T, T) -> int, n: nat, left: T, taken: T)
    requires TotalPreorder(compare) && left in items
    requires left !in FirstN(StableSort(items, compare), n) && taken in FirstN(StableSort(items, compare), n)
    ensures compare(taken, left) <= 0
  {
    var sorted := StableSort(items, compare);
    SortMembers(items, compare);
    SortSorts(items, compare);
    assert left in multiset(sorted);
    var i :| 0 <= i < |sorted| && sorted[i] == left;
    var first := FirstN(sorted, n);
    var k :| 0 <= k < |first| && first[k] == taken;
    assert forall m :: 0 <= m < |first| ==> first[m] == sorted[m] && first[m] in first;
    assert sorted[k] == taken;
  }

  // ---------------------------------------------------------------- texts joined by a separator

  /** `long` goes on after `short` with the separator and more, which the other rest starts with. */
  ghost predicate CutApart(sep: string, short: string, rest: string, long: string, rest': string) {
    exists x: string :: long == short + sep + x && rest == x + sep + rest'
  }

  /** `long` goes on after `short` with the first `k` characters of a separator that overlaps itself. */
  ghost predicate CutAt(sep: string, k: int, short: string, rest: string, long: string, rest': string) {
    && 0 < k < |sep| && long == short + sep[..k]
    && sep[k..] == sep[..|sep| - k] && rest == sep[|sep| - k..] + rest'
  }

  ghost predicate Overlaps(sep: string, short: string, rest: string, long: string, rest': string) {
    CutApart(sep, short, rest, long, rest') || exists k :: CutAt(sep, k, short, rest, long, rest')
  }

  lemma SamePrefix(p: string, a: string, b: string)
    requires p + a == p + b
    ensures a == b
  {
    assert (p + a)[|p|..] == a && (p + b)[|p|..] == b;
  }

  lemma Associative(p: string, q: string, r: string)
    ensures (p + q) + r == p + (q + r)
  {
  }

  /** A separator shifted by less than its length. */
  lemma ShiftedWithin(sep: string, k: nat, b: string, d: string)
    requires 0 < k < |sep| && sep + b == sep[..k] + (sep + d)
    ensures sep[k..] == sep[..|sep| - k] && b == sep[|sep| - k..] + d
  {
    var u, n := sep[k..], |sep| - k;
    assert sep == sep[..k] + u;
    Associative(sep[..k], u, b);
    SamePrefix(sep[..k], u + b, sep + d);
    assert (u + b)[..n] == u && (sep + d)[..n] == sep[..n];
    assert (u + b)[n..] == b && (sep + d)[n..] == sep[n..] + d;
  }

  /** A separator shifted by at least its length. */
  lemma ShiftedApart(sep: string, y: string, b: string, d: string)
    requires |y| >= |sep| && sep + b == y + (sep + d)
    ensures y[..|sep|] == sep && b == y[|sep|..] + sep + d
  {
    var n := |sep|;
    assert (sep + b)[..n] == sep && (y + (sep + d))[..n] == y[..n];
    assert (sep + b)[n..] == b && (y + (sep + d))[n..] == y[n..] + (sep + d);
    Associative(y[n..], sep, d);
  }

  lemma LongerOverlaps(sep: string, a: string, b: string, c: string, d: string)
    requires sep != "" && a + sep + b == c + sep + d && |a| < |c|
    ensures Overlaps(sep, a, b, c, d)
  {
    var y := c[|a|..];
    Associative(a, sep, b);
    Associative(c, sep, d);
    assert (a + (sep + b))[..|a|] == a && (c + (sep + d))[..|a|] == c[..|a|];
    assert c == a + y;
    Associative(a, y, sep + d);
    SamePrefix(a, sep + b, y + (sep + d));
    if |y| < |sep| {
      assert (sep + b)[..|y|] == sep[..|y|] && (y + (sep + d))[..|y|] == y;
      ShiftedWithin(sep, |y|, b, d);
      assert CutAt(sep, |y|, a, b, c, d);
    } else {
      ShiftedApart(sep, y, b, d);
      var x := y[|sep|..];
      assert y == sep + x;
      Associative(a, sep, x);
      assert c == a + sep + x && b == x + sep + d;
    }
  }

  lemma CutAtIsEqual(sep: string, k: int, a: string, b: string, c: string, d: string)
    requires CutAt(sep, k, a, b, c, d)
    ensures a + sep + b == c + sep + d
  {
    var n := |sep| - k;
    var head, tail := sep[..k], sep[n..];
    calc {
      a + sep + b;
      { assert sep == head + sep[k..]; }
      a + (head + sep[..n]) + (tail + d);
      { Associative(a, head, sep[..n]); }
      (c + sep[..n]) + (tail + d);
      { Associative(c, sep[..n], tail + d); Associative(sep[..n], tail, d); }
      c + ((sep[..n] + tail) + d);
      { assert sep == sep[..n] + tail; Associative(c, sep, d); }
      c + sep + d;
    }
  }

  lemma OverlapIsEqual(sep: string, a: string, b: string, c: string, d: string)
    requires Overlaps(sep, a, b, c, d)
    ensures a + sep + b == c + sep + d
  {
    if k :| CutAt(sep, k, a, b, c, d) {
      CutAtIsEqual(sep, k, a, b, c, d);
    } else {
      var x: string :| c == a + sep + x && b == x + sep + d;
      Associative(x, sep, d);
      Associative(a + sep, x, sep + d);
      Associative(c, sep, d);
    }
  }

  /** Joined texts are equal exactly if their parts are, or the separators stand at different places and overlap. */
  lemma JoinedEqualIff(sep: string, a: string, b: string, c: string, d: string)
    requires sep != ""
    ensures a + sep + b == c + sep + d <==> (a == c && b == d) || Overlaps(sep, a, b, c, d) || Overlaps(sep, c, d, a, b)
  {
    if a + sep + b == c + sep + d {
      if |a| < |c| {
        LongerOverlaps(sep, a, b, c, d);
      } else if |c| < |a| {
        LongerOverlaps(sep, c, d, a, b);
      } else {
        var s := a + sep + b;
        assert s[..|a|] == a && s[..|c|] == c && s[|a| + |sep|..] == b && s[|c| + |sep|..] == d;
      }
    }
    if Overlaps(sep, a, b, c, d) { OverlapIsEqual(sep, a, b, c, d); }
    if Overlaps(sep, c, d, a, b) { OverlapIsEqual(sep, c, d, a, b); }
  }

  // ---------------------------------------------------------------- decimal text

  function Digit(d: nat): (c: char)
    requires d < 10
    ensures '0' <= c <= '9' && c as int == '0' as int + d
  {
    ('0' as int + d) as char
  }

  /** `String(n)` of a non-negative integer. */
  function Decimal(n: nat): (s: string)
    ensures s != [] && forall i :: 0 <= i < |s| ==> '0' <= s[i] <= '9'
  {
    if n < 10 then [Digit(n)] else Decimal(n / 10) + [Digit(n % 10)]
  }

  lemma {:induction false} DecimalInjective(m: nat, n: nat)
    requires Decimal(m) == Decimal(n)
    ensures m == n
  {
    var s := Decimal(m);
    assert s[|s| - 1] == Digit(m % 10) == Digit(n % 10);
    if m >= 10 && n >= 10 {
      assert Decimal(m / 10) == s[..|s| - 1] == Decimal(n / 10);
      DecimalInjective(m / 10, n / 10);
    }
  }

  function PowerOfTen(w: nat): (n: nat)
    ensures n >= 1
  {
    if w == 0 then 1 else PowerOfTen(w - 1) * 10
  }

  // ---------------------------------------------------------------- string order

  /** Strict lexicographic order on code units, as JavaScript `<` and DynamoDB order strings. */
  predicate StrLess(a: string, b: string) {
    b != [] && (a == [] || a[0] < b[0] || (a[0] == b[0] && StrLess(a[1..], b[1..])))
  }

  /** Equal prefixes do not matter to the order. */
  lemma {:induction false} StrLessSamePrefix(p: string, a: string, b: string)
    ensures StrLess(p + a, p + b) <==> StrLess(a, b)
  {
    if p == [] {
      assert p + a == a && p + b == b;
    } else {
      StrLessSamePrefix(p[1..], a, b);
      assert (p + a)[1..] == p[1..] + a && (p + b)[1..] == p[1..] + b;
    }
  }

  /** A different pair of heads of one length decides the order of everything that starts with them. */
  lemma {:induction false} StrLessFirstDifference(p: string, q: string, a: string, b: string)
    requires |p| == |q| && p != q
    ensures StrLess(p + a, q + b) <==> StrLess(p, q)
  {
    if p[0] == q[0] {
      assert p[1..] != q[1..] by {
        assert p == [p[0]] + p[1..] && q == [q[0]] + q[1..];
      }
      StrLessFirstDifference(p[1..], q[1..], a, b);
    }
    assert (p + a)[1..] == p[1..] + a && (q + b)[1..] == q[1..] + b;
  }

  lemma {:induction false} StrLessIrreflexive(a: string)
    ensures !StrLess(a, a)
  {
    if a != [] { StrLessIrreflexive(a[1..]); }
  }

  lemma {:induction false} StrLessAsymmetric(a: string, b: string)
    requires StrLess(a, b)
    ensures !StrLess(b, a) && a != b
  {
    if a != [] && a[0] == b[0] { StrLessAsymmetric(a[1..], b[1..]); }
  }
}
