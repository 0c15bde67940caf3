/**
 * The extra properties of entity changes, which merging carries over under a counted key where the key is taken. A
 * counted key that is taken as well is overwritten.
 */
module ExtraProperties {
  import opened Common
  import Digits = DateTimeFormat

  /** Values are only compared. */
  datatype Property = Property(key: string, value: int)

  // ---------------------------------------------------------------- counted keys

  /** Where the first "__" is, or -1. */
  function Separator(s: string): (i: int)
    ensures -1 <= i && (i >= 0 ==> i + 2 <= |s|)
  {
    if |s| < 2 then -1
    else if s[0] == '_' && s[1] == '_' then 0
    else
      var i := Separator(s[1..]);
      if i < 0 then -1 else i + 1
  }

  predicate Plain(key: string) { Separator(key) < 0 }

  predicate IsNumber(s: string) { s != "" && Digits.AllDigits(s) }

  /** A counter after the only "__" goes up by one; any other key gets the counter 2. */
  function AddCounter(key: string): string {
    var i := Separator(key);
    if i >= 0 && Separator(key[i + 2..]) < 0 && IsNumber(key[i + 2..])
    then key[..i] + "__" + Decimal(Digits.Value(key[i + 2..]) + 1)
    else key + "__2"
  }

  lemma {:induction false} SeparatorIn(s: string, t: string)
    requires Plain(s) && (s == "" || s[|s| - 1] != '_')
    ensures Separator(s + "__" + t) == |s|
  {
    if s == "" {
      assert s + "__" + t == "__" + t;
    } else {
      SeparatorInRest(s);
      SeparatorIn(s[1..], t);
      assert (s + "__" + t)[1..] == s[1..] + "__" + t;
      assert (s + "__" + t)[0] == s[0] && (s + "__" + t)[1] == if |s| > 1 then s[1] else '_';
    }
  }

  lemma SeparatorInRest(s: string)
    requires Plain(s) && s != ""
    ensures Plain(s[1..])
  {
  }

  lemma {:induction false} SomeSeparator(s: string, t: string)
    ensures 0 <= Separator(s + "__" + t) <= |s|
  {
    if s == "" {
      assert s + "__" + t == "__" + t;
    } else {
      SomeSeparator(s[1..], t);
      assert (s + "__" + t)[1..] == s[1..] + "__" + t;
    }
  }

  lemma {:induction false} NoSeparatorInDigits(s: string)
    requires forall i :: 0 <= i < |s| ==> s[i] != '_'
    ensures Plain(s)
  {
    if |s| >= 2 { NoSeparatorInDigits(s[1..]); }
  }

  lemma {:induction false} DigitsOnly(s: string)
    requires Digits.AllDigits(s)
    ensures forall i :: 0 <= i < |s| ==> s[i] != '_'
  {
    if s != "" {
      DigitsOnly(s[..|s| - 1]);
      assert s == s[..|s| - 1] + [s[|s| - 1]];
    }
  }

  /** The counter of a plain key starts at 2 and then counts up, unless the key ends in an underscore. */
  lemma CounterCounts(key: string, n: nat)
    requires Plain(key) && (key == "" || key[|key| - 1] != '_')
    ensures AddCounter(key) == key + "__2"
    ensures AddCounter(key + "__" + Decimal(n)) == key + "__" + Decimal(n + 1)
  {
    var counted := key + "__" + Decimal(n);
    SeparatorIn(key, Decimal(n));
    assert counted[|key| + 2..] == Decimal(n) && counted[..|key|] == key;
    Digits.DecimalValue(n);
    DigitsOnly(Decimal(n));
    NoSeparatorInDigits(Decimal(n));
  }

  // ---------------------------------------------------------------- the properties of one change

  function Lookup(props: seq<Property>, key: string): Option<int> {
    if props == [] then None
    else if props[|props| - 1].key == key then Some(props[|props| - 1].value)
    else Lookup(props[..|props| - 1], key)
  }

  predicate HasKey(props: seq<Property>, key: string) { Lookup(props, key).Some? }

  /** A key that is there keeps its place and gets the new value. */
  function WithProperty(props: seq<Property>, key: string, value: int): seq<Property> {
    if props == [] then [Property(key, value)]
    else
      var n := |props| - 1;
      if props[n].key == key then props[..n] + [Property(key, value)]
      else if HasKey(props[..n], key) then WithProperty(props[..n], key, value) + [props[n]]
      else props + [Property(key, value)]
  }

  function KeyFor(props: seq<Property>, key: string): string { if HasKey(props, key) then AddCounter(key) else key }

  function Put(props: seq<Property>, p: Property): seq<Property> { WithProperty(props, KeyFor(props, p.key), p.value) }

  /** The properties after those of another change are merged into them. */
  function MergedExtras(props: seq<Property>, more: seq<Property>): seq<Property> {
    if more == [] then props
    else
      var n := |more| - 1;
      Put(MergedExtras(props, more[..n]), more[n])
  }

  class ExtraProperties {
    var entries: seq<Property>

    constructor ()
      ensures entries == []
    {
      entries := [];
    }

    method Has(key: string) returns (found: bool)
      ensures found == HasKey(entries, key)
    {
      found := HasKey(entries, key);
    }

    method Set(key: string, value: int)
      modifies this
      ensures entries == WithProperty(old(entries), key, value)
    {
      entries := WithProperty(entries, key, value);
    }

    /** The second loop of `merge`. */
    method Merge(other: ExtraProperties)
      requires other != this
      modifies this
      ensures entries == MergedExtras(old(entries), other.entries)
    {
      for i := 0 to |other.entries|
        invariant other.entries == old(other.entries)
        invariant entries == MergedExtras(old(entries), other.entries[..i])
      {
        assert other.entries[..i + 1][..i] == other.entries[..i];
        var p := other.entries[i];
        var taken := Has(p.key);
        Set(if taken then AddCounter(p.key) else p.key, p.value);
      }
      assert other.entries[..|other.entries|] == other.entries;
    }
  }

  // ---------------------------------------------------------------- when a value gets lost

  function ValuesOf(props: seq<Property>): multiset<int> {
    if props == [] then multiset{} else ValuesOf(props[..|props| - 1]) + multiset{props[|props| - 1].value}
  }

  lemma {:induction false} ValuesSize(props: seq<Property>)
    ensures |ValuesOf(props)| == |props|
  {
    if props != [] { ValuesSize(props[..|props| - 1]); }
  }

  lemma {:induction false} WithPropertyMeans(props: seq<Property>, key: string, value: int, other: string)
    ensures Lookup(WithProperty(props, key, value), other) == if other == key then Some(value) else Lookup(props, other)
    ensures |WithProperty(props, key, value)| == if HasKey(props, key) then |props| else |props| + 1
  {
    if props != [] { WithPropertyMeans(props[..|props| - 1], key, value, other); }
  }

  lemma NewPropertyValues(props: seq<Property>, key: string, value: int)
    requires !HasKey(props, key)
    ensures ValuesOf(WithProperty(props, key, value)) == ValuesOf(props) + multiset{value}
  {
    if props != [] { assert (props + [Property(key, value)])[..|props|] == props; }
  }

  /** No property finds both its key and its counted key taken. */
  predicate NoneOverwritten(props: seq<Property>, more: seq<Property>) {
    more == [] ||
    (var n := |more| - 1;
      var before := MergedExtras(props, more[..n]);
      NoneOverwritten(props, more[..n]) && !HasKey(before, KeyFor(before, more[n].key)))
  }

  lemma {:induction false} MergedSize(props: seq<Property>, more: seq<Property>)
    ensures |MergedExtras(props, more)| <= |props| + |more|
    ensures |MergedExtras(props, more)| == |props| + |more| <==> NoneOverwritten(props, more)
  {
    if more != [] {
      var n := |more| - 1;
      var before := MergedExtras(props, more[..n]);
      MergedSize(props, more[..n]);
      WithPropertyMeans(before, KeyFor(before, more[n].key), more[n].value, "");
    }
  }

  lemma {:induction false} MergedValues(props: seq<Property>, more: seq<Property>)
    requires NoneOverwritten(props, more)
    ensures ValuesOf(MergedExtras(props, more)) == ValuesOf(props) + ValuesOf(more)
  {
    if more != [] {
      var n := |more| - 1;
      var before := MergedExtras(props, more[..n]);
      MergedValues(props, more[..n]);
      NewPropertyValues(before, KeyFor(before, more[n].key), more[n].value);
    }
  }

  /** Merging keeps every value if and only if no property finds both its key and its counted key taken. */
  lemma NothingLostIff(props: seq<Property>, more: seq<Property>)
    ensures ValuesOf(MergedExtras(props, more)) == ValuesOf(props) + ValuesOf(more) <==> NoneOverwritten(props, more)
  {
    MergedSize(props, more);
    if NoneOverwritten(props, more) { MergedValues(props, more); }
    ValuesSize(MergedExtras(props, more));
    ValuesSize(props);
    ValuesSize(more);
    assert |ValuesOf(props) + ValuesOf(more)| == |props| + |more|;
  }

  // ---------------------------------------------------------------- a whole group of changes

  /** The properties of a group of changes merged one by one into its first. */
  function GroupExtras(group: seq<seq<Property>>): seq<Property> {
    if group == [] then []
    else if |group| == 1 then group[0]
    else MergedExtras(GroupExtras(group[..|group| - 1]), group[|group| - 1])
  }

  function All(group: seq<seq<Property>>): seq<Property> {
    if group == [] then [] else All(group[..|group| - 1]) + group[|group| - 1]
  }

  function Fold<S, T>(f: (S, T) -> S, s: S, list: seq<T>): S {
    if list == [] then s else f(Fold(f, s, list[..|list| - 1]), list[|list| - 1])
  }

  lemma {:induction false} FoldConcat<S, T>(f: (S, T) -> S, s: S, a: seq<T>, b: seq<T>)
    ensures Fold(f, s, a + b) == Fold(f, Fold(f, s, a), b)
  {
    if b == [] {
      assert a + b == a;
    } else {
      FoldConcat(f, s, a, b[..|b| - 1]);
      assert (a + b)[..|a + b| - 1] == a + b[..|b| - 1];
    }
  }

  lemma {:induction false} MergedIsFold(props: seq<Property>, more: seq<Property>)
    ensures MergedExtras(props, more) == Fold(Put, props, more)
  {
    if more != [] { MergedIsFold(props, more[..|more| - 1]); }
  }

  lemma MergedConcat(props: seq<Property>, a: seq<Property>, b: seq<Property>)
    ensures MergedExtras(props, a + b) == MergedExtras(MergedExtras(props, a), b)
  {
    MergedIsFold(props, a + b);
    MergedIsFold(props, a);
    MergedIsFold(MergedExtras(props, a), b);
    FoldConcat(Put, props, a, b);
  }

  predicate DistinctKeys(props: seq<Property>) {
    props == [] || (!HasKey(props[..|props| - 1], props[|props| - 1].key) && DistinctKeys(props[..|props| - 1]))
  }

  lemma {:induction false} MergedIntoNone(props: seq<Property>)
    requires DistinctKeys(props)
    ensures MergedExtras([], props) == props
  {
    if props != [] {
      var n := |props| - 1;
      MergedIntoNone(props[..n]);
      assert WithProperty(props[..n], props[n].key, props[n].value) == props;
    }
  }

  lemma {:induction false} GroupIsMerged(group: seq<seq<Property>>)
    requires forall i :: 0 <= i < |group| ==> DistinctKeys(group[i])
    ensures GroupExtras(group) == MergedExtras([], All(group))
  {
    if |group| == 1 {
      MergedIntoNone(group[0]);
      assert All(group) == group[0];
    } else if group != [] {
      var n := |group| - 1;
      GroupIsMerged(group[..n]);
      MergedConcat([], All(group[..n]), group[n]);
    }
  }

  predicate PlainKeys(props: seq<Property>) { forall i :: 0 <= i < |props| ==> Plain(props[i].key) }

  function Count(props: seq<Property>, key: string): nat {
    if props == [] then 0 else Count(props[..|props| - 1], key) + (if props[|props| - 1].key == key then 1 else 0)
  }

  function First(props: seq<Property>, key: string): Option<int> {
    if props == [] then None
    else
      var before := First(props[..|props| - 1], key);
      if before.None? && props[|props| - 1].key == key then Some(props[|props| - 1].value) else before
  }

  lemma CountedKey(key: string)
    requires Plain(key)
    ensures AddCounter(key) == key + "__2" && !Plain(key + "__2")
  {
    SomeSeparator(key, "2");
    assert key + "__2" == key + "__" + "2";
  }

  lemma CountedDiffer(a: string, b: string)
    requires a + "__2" == b + "__2"
    ensures a == b
  {
    assert (a + "__2")[..|a|] == a && (b + "__2")[..|b|] == b;
  }

  /** Of a plain key the first value stays under the key and the last, if there is another, under the counted key. */
  lemma {:induction false} FirstAndLast(all: seq<Property>, key: string)
    requires PlainKeys(all) && Plain(key)
    ensures Lookup(MergedExtras([], all), key) == First(all, key)
    ensures Lookup(MergedExtras([], all), key + "__2") == if Count(all, key) >= 2 then Lookup(all, key) else None
    ensures First(all, key).Some? <==> Count(all, key) >= 1
  {
    if all != [] {
      var n := |all| - 1;
      var before, p := MergedExtras([], all[..n]), all[n];
      FirstAndLast(all[..n], key);
      FirstAndLast(all[..n], p.key);
      CountedKey(key);
      CountedKey(p.key);
      WithPropertyMeans(before, KeyFor(before, p.key), p.value, key);
      WithPropertyMeans(before, KeyFor(before, p.key), p.value, key + "__2");
      if p.key + "__2" == key + "__2" { CountedDiffer(p.key, key); }
    }
  }

  lemma {:induction false} CountPrefix(all: seq<Property>, n: nat, key: string)
    requires n <= |all|
    ensures Count(all[..n], key) <= Count(all, key)
  {
    if n < |all| {
      CountPrefix(all[..|all| - 1], n, key);
      assert all[..|all| - 1][..n] == all[..n];
    } else {
      assert all[..n] == all;
    }
  }

  ghost predicate AtMostTwice(all: seq<Property>) { forall key :: Plain(key) ==> Count(all, key) <= 2 }

  lemma AtMostTwiceSnoc(all: seq<Property>)
    requires all != [] && PlainKeys(all)
    ensures AtMostTwice(all) <==>
      AtMostTwice(all[..|all| - 1]) && Count(all[..|all| - 1], all[|all| - 1].key) < 2
  {
    var n := |all| - 1;
    if AtMostTwice(all) {
      forall key | Plain(key) ensures Count(all[..n], key) <= 2 { CountPrefix(all, n, key); }
    }
  }

  lemma OverwritesThird(all: seq<Property>, p: Property)
    requires PlainKeys(all) && Plain(p.key)
    ensures var before := MergedExtras([], all); HasKey(before, KeyFor(before, p.key)) <==> Count(all, p.key) >= 2
  {
    FirstAndLast(all, p.key);
    CountedKey(p.key);
    FoundIff(all, p.key);
  }

  lemma {:induction false} FoundIff(all: seq<Property>, key: string)
    ensures HasKey(all, key) <==> Count(all, key) >= 1
  {
    if all != [] { FoundIff(all[..|all| - 1], key); }
  }

  lemma {:induction false} OverwrittenIff(all: seq<Property>)
    requires PlainKeys(all)
    ensures NoneOverwritten([], all) <==> AtMostTwice(all)
  {
    if all != [] {
      var n := |all| - 1;
      OverwrittenIff(all[..n]);
      OverwritesThird(all[..n], all[n]);
      AtMostTwiceSnoc(all);
    }
  }

  /**
   * Merging a group of changes whose properties have plain keys keeps every value if and only if no key is carried by
   * more than two of the changes.
   */
  lemma GroupKeepsAllIff(group: seq<seq<Property>>)
    requires forall i :: 0 <= i < |group| ==> DistinctKeys(group[i])
    requires PlainKeys(All(group))
    ensures ValuesOf(GroupExtras(group)) == ValuesOf(All(group)) <==> AtMostTwice(All(group))
  {
    GroupIsMerged(group);
    NothingLostIff([], All(group));
    OverwrittenIff(All(group));
  }

  /** Of a key that three or more of the changes carry, only the first and the last value survive. */
  lemma OnlyFirstAndLast(group: seq<seq<Property>>, key: string)
    requires forall i :: 0 <= i < |group| ==> DistinctKeys(group[i])
    requires PlainKeys(All(group)) && Plain(key)
    ensures var extras := GroupExtras(group);
      && Lookup(extras, key) == First(All(group), key)
      && Lookup(extras, AddCounter(key)) == if Count(All(group), key) >= 2 then Lookup(All(group), key) else None
  {
    GroupIsMerged(group);
    FirstAndLast(All(group), key);
    CountedKey(key);
  }
}
