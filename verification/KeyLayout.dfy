/**
 * The keys of the single table: which entities can collide, and in which order a list partition returns its entities.
 */
module KeyLayout {
  import opened Common

  datatype ItemKey = ItemKey(pk: string, sk: string)

  function ItemKeyOf(prefix: string, scope: string, name: string, id: string): ItemKey {
    ItemKey(prefix + scope + "#" + name + "#" + id, name)
  }

  function ListPartitionKey(prefix: string, scope: string, name: string): string { prefix + scope + "#" + name }

  /** Partition of a secondary index: within the scope, or across all of them. */
  function IndexPartitionKey(prefix: string, scope: string, name: string, scoped: bool,
      value: Option<string>): Option<string> {
    if value.None? then None
    else if scoped then Some(prefix + scope + "#" + name + "#" + value.value)
    else Some(value.value)
  }

  // ---------------------------------------------------------------- collisions

  /** The text before the first '#'. */
  lemma FirstPart(a: string, b: string, c: string, d: string)
    requires '#' !in a && '#' !in c && a + "#" + b == c + "#" + d
    ensures a == c && b == d
  {
    var s, t := a + "#" + b, c + "#" + d;
    assert s[|a|] == '#' && t[|c|] == '#';
    assert forall i :: 0 <= i < |a| ==> s[i] == a[i] && a[i] in a;
    assert forall i :: 0 <= i < |c| ==> t[i] == c[i] && c[i] in c;
    assert |a| == |c|;
    assert s[..|a|] == a && t[..|c|] == c && s[|a| + 1..] == b && t[|c| + 1..] == d;
  }

  /** With '#'-free scopes no two entities share a key, even if entity names or ids contain '#'. */
  lemma ItemKeyInjective(prefix: string, scope: string, name: string, id: string, scope': string, name': string,
      id': string)
    requires '#' !in scope && '#' !in scope'
    requires ItemKeyOf(prefix, scope, name, id) == ItemKeyOf(prefix, scope', name', id')
    ensures scope == scope' && name == name' && id == id'
  {
    var rest, rest' := name + "#" + id, name' + "#" + id';
    assert prefix + scope + "#" + name + "#" + id == prefix + (scope + "#" + rest);
    assert prefix + scope' + "#" + name' + "#" + id' == prefix + (scope' + "#" + rest');
    SamePrefix(prefix, scope + "#" + rest, scope' + "#" + rest');
    FirstPart(scope, rest, scope', rest');
    assert rest == (name + "#") + id && rest' == (name + "#") + id';
    SamePrefix(name + "#", id, id');
  }

  /** What a partition key of a scope looks like, list or scoped index alike. */
  ghost predicate InScope(prefix: string, scope: string, pk: string) {
    exists rest :: pk == prefix + (scope + "#" + rest)
  }

  lemma KeysAreInScope(prefix: string, scope: string, name: string, value: string)
    ensures InScope(prefix, scope, ListPartitionKey(prefix, scope, name))
    ensures InScope(prefix, scope, IndexPartitionKey(prefix, scope, name, true, Some(value)).value)
  {
    assert ListPartitionKey(prefix, scope, name) == prefix + (scope + "#" + name);
    assert prefix + scope + "#" + name + "#" + value == prefix + (scope + "#" + (name + "#" + value));
  }

  /** Tenants never share a list partition or a scoped index partition, whatever the entity names and values. */
  lemma ScopesAreSeparate(prefix: string, scope: string, scope': string, pk: string)
    requires '#' !in scope && '#' !in scope'
    requires InScope(prefix, scope, pk) && InScope(prefix, scope', pk)
    ensures scope == scope'
  {
    var rest :| pk == prefix + (scope + "#" + rest);
    var rest' :| pk == prefix + (scope' + "#" + rest');
    SamePrefix(prefix, scope + "#" + rest, scope' + "#" + rest');
    FirstPart(scope, rest, scope', rest');
  }

  /** A scope with '#' would read another tenant's list. */
  lemma HashInScopeCollides(prefix: string)
    ensures ListPartitionKey(prefix, "a#b", "c") == ListPartitionKey(prefix, "a", "b#c")
  {
  }

  /**
   * Exactly when two lists share a partition: they are the same, or one scope goes on with '#' into the other's name.
   */
  lemma ListPartitionsShareIff(prefix: string, scope: string, name: string, scope': string, name': string)
    ensures ListPartitionKey(prefix, scope, name) == ListPartitionKey(prefix, scope', name') <==>
      (scope == scope' && name == name') || CutApart("#", scope, name, scope', name') ||
        CutApart("#", scope', name', scope, name)
  {
    assert ListPartitionKey(prefix, scope, name) == prefix + (scope + "#" + name);
    assert ListPartitionKey(prefix, scope', name') == prefix + (scope' + "#" + name');
    if ListPartitionKey(prefix, scope, name) == ListPartitionKey(prefix, scope', name') {
      SamePrefix(prefix, scope + "#" + name, scope' + "#" + name');
    }
    JoinedEqualIff("#", scope, name, scope', name');
  }

  /** Exactly when two entities share an item key: same name, and same scope and id or overlapping at "#name#". */
  lemma ItemKeysShareIff(prefix: string, scope: string, name: string, id: string, scope': string, name': string,
      id': string)
    ensures ItemKeyOf(prefix, scope, name, id) == ItemKeyOf(prefix, scope', name', id') <==>
      name == name' && ((scope == scope' && id == id') || Overlaps("#" + name + "#", scope, id, scope', id') ||
        Overlaps("#" + name + "#", scope', id', scope, id))
  {
    if name == name' {
      var sep := "#" + name + "#";
      assert ItemKeyOf(prefix, scope, name, id).pk == prefix + (scope + sep + id);
      assert ItemKeyOf(prefix, scope', name', id').pk == prefix + (scope' + sep + id');
      if ItemKeyOf(prefix, scope, name, id) == ItemKeyOf(prefix, scope', name', id') {
        SamePrefix(prefix, scope + sep + id, scope' + sep + id');
      }
      JoinedEqualIff(sep, scope, id, scope', id');
    }
  }

  /** `long` is `short`, a '#' and anything more. */
  ghost predicate GoesOn(short: string, long: string) { exists x: string :: long == short + "#" + x }

  /**
   * Two scopes can share the partition of some list if and only if they are equal or one goes on with '#' where the
   * other ends.
   */
  lemma ScopesShareListIff(prefix: string, scope: string, scope': string)
    ensures (exists name: string, name': string ::
      ListPartitionKey(prefix, scope, name) == ListPartitionKey(prefix, scope', name'))
      <==> scope == scope' || GoesOn(scope, scope') || GoesOn(scope', scope)
  {
    forall name: string, name': string | ListPartitionKey(prefix, scope, name) ==
      ListPartitionKey(prefix, scope', name')
      ensures scope == scope' || GoesOn(scope, scope') || GoesOn(scope', scope)
    {
      ListPartitionsShareIff(prefix, scope, name, scope', name');
    }
    if scope == scope' {
      assert ListPartitionKey(prefix, scope, "") == ListPartitionKey(prefix, scope', "");
    } else if x: string :| scope' == scope + "#" + x {
      assert ListPartitionKey(prefix, scope, x + "#") == ListPartitionKey(prefix, scope', "") by {
        assert prefix + scope + "#" + (x + "#") == prefix + (scope + "#" + x) + "#" + "";
      }
    } else if x: string :| scope == scope' + "#" + x {
      assert ListPartitionKey(prefix, scope, "") == ListPartitionKey(prefix, scope', x + "#") by {
        assert prefix + (scope' + "#" + x) + "#" + "" == prefix + scope' + "#" + (x + "#");
      }
    }
  }

  /** An item of the longer scope is read as an item of the shorter one: name `x`, and an id that starts with `x`. */
  lemma GoingOnSharesItem(prefix: string, scope: string, x: string)
    ensures ItemKeyOf(prefix, scope, x, x + "#") == ItemKeyOf(prefix, scope + "#" + x, x, "")
  {
    assert prefix + scope + "#" + x + "#" + (x + "#") == prefix + (scope + "#" + x) + "#" + x + "#" + "";
  }

  /** And the same condition decides whether two scopes can share the key of some item. */
  lemma ScopesShareItemIff(prefix: string, scope: string, scope': string)
    ensures (exists name: string, id: string, id': string ::
      ItemKeyOf(prefix, scope, name, id) == ItemKeyOf(prefix, scope', name, id'))
      <==> scope == scope' || GoesOn(scope, scope') || GoesOn(scope', scope)
  {
    forall name: string, id: string, id': string | ItemKeyOf(prefix, scope, name, id) ==
      ItemKeyOf(prefix, scope', name, id')
      ensures scope == scope' || GoesOn(scope, scope') || GoesOn(scope', scope)
    {
      ItemAndList(prefix, scope, name, id);
      ItemAndList(prefix, scope', name, id');
      ScopesShareListIff(prefix, scope, scope');
    }
    if scope == scope' {
      assert ItemKeyOf(prefix, scope, "", "") == ItemKeyOf(prefix, scope', "", "");
    } else if x: string :| scope' == scope + "#" + x {
      GoingOnSharesItem(prefix, scope, x);
    } else if x: string :| scope == scope' + "#" + x {
      GoingOnSharesItem(prefix, scope', x);
    }
  }

  lemma ItemAndList(prefix: string, scope: string, name: string, id: string)
    ensures ItemKeyOf(prefix, scope, name, id).pk == ListPartitionKey(prefix, scope, name + "#" + id)
  {
    assert prefix + scope + "#" + name + "#" + id == prefix + scope + "#" + (name + "#" + id);
  }

  // ---------------------------------------------------------------- order

  /** A UTC instant: the year, and month, day, hour, minute, second and millisecond. */
  datatype Moment = Moment(year: int, fields: seq<nat>)

  function Width(i: nat): nat { if i == 5 then 3 else 2 }

  predicate ValidFields(fields: seq<nat>) {
    |fields| == 6 && forall i :: 0 <= i < 6 ==> fields[i] < PowerOfTen(Width(i))
  }

  predicate ValidMoment(d: Moment) { -1000000 < d.year < 1000000 && ValidFields(d.fields) }

  /** `n` in exactly `w` digits. */
  function Pad(n: nat, w: nat): (s: string)
    ensures |s| == w
  {
    if w == 0 then "" else Pad(n / 10, w - 1) + [Digit(n % 10)]
  }

  function Separator(i: nat): char {
    if i == 0 || i == 1 then '-' else if i == 2 then 'T' else if i == 5 then '.' else ':'
  }

  /** The text of the fields from number `i` on. */
  function FieldsText(fields: seq<nat>, i: nat): string
    requires |fields| == 6 && i <= 6
    decreases 6 - i
  {
    if i == 6 then "Z" else ([Separator(i)] + Pad(fields[i], Width(i))) + FieldsText(fields, i + 1)
  }

  /** Four digits for the years 0 to 9999, a sign and six digits for all others. */
  function YearText(year: int): string {
    if 0 <= year <= 9999 then Pad(year, 4) else if year < 0 then "-" + Pad(-year, 6) else "+" + Pad(year, 6)
  }

  function IsoText(d: Moment): string
    requires ValidMoment(d)
  {
    YearText(d.year) + FieldsText(d.fields, 0)
  }

  function ListSortKey(creationTimeInSortKey: bool, creationTime: Option<Moment>, id: string): string
    requires creationTime.Some? ==> ValidMoment(creationTime.value)
  {
    if !creationTimeInSortKey then id
    else (if creationTime.Some? then IsoText(creationTime.value) else "") + ("#" + id)
  }

  predicate FieldsBefore(a: seq<nat>, b: seq<nat>, i: nat)
    requires |a| == |b| == 6 && i <= 6
    decreases 6 - i
  {
    i < 6 && (a[i] < b[i] || (a[i] == b[i] && FieldsBefore(a, b, i + 1)))
  }

  /** Chronological order. */
  predicate Before(a: Moment, b: Moment)
    requires ValidMoment(a) && ValidMoment(b)
  {
    a.year < b.year || (a.year == b.year && FieldsBefore(a.fields, b.fields, 0))
  }

  /** Texts of one length first decide by their heads. */
  lemma HeadsDecide(a: string, b: string, c: string, d: string)
    requires |a| == |b|
    ensures StrLess(a + c, b + d) <==> StrLess(a, b) || (a == b && StrLess(c, d))
  {
    if a == b {
      StrLessSamePrefix(a, c, d);
      StrLessIrreflexive(a);
    } else {
      StrLessFirstDifference(a, b, c, d);
    }
  }

  lemma {:induction false} PadOrder(m: nat, n: nat, w: nat)
    requires m < PowerOfTen(w) && n < PowerOfTen(w)
    ensures StrLess(Pad(m, w), Pad(n, w)) <==> m < n
    ensures Pad(m, w) == Pad(n, w) <==> m == n
  {
    if w > 0 {
      PadOrder(m / 10, n / 10, w - 1);
      var x, y := [Digit(m % 10)], [Digit(n % 10)];
      HeadsDecide(Pad(m / 10, w - 1), Pad(n / 10, w - 1), x, y);
      assert x[1..] == y[1..] == [];
      assert StrLess(x, y) <==> m % 10 < n % 10;
      assert Pad(m, w)[..w - 1] == Pad(m / 10, w - 1) && Pad(n, w)[..w - 1] == Pad(n / 10, w - 1);
      assert Pad(m, w)[w - 1] == x[0] && Pad(n, w)[w - 1] == y[0];
    }
  }

  lemma PieceDecides(s: string, x: string, y: string, c: string, d: string)
    requires |x| == |y|
    ensures StrLess((s + x) + c, (s + y) + d) <==> StrLess(x, y) || (x == y && StrLess(c, d))
  {
    StrLessSamePrefix(s, x, y);
    HeadsDecide(s + x, s + y, c, d);
    assert (s + x)[|s|..] == x && (s + y)[|s|..] == y;
  }

  lemma SameTail(a: seq<nat>, b: seq<nat>, i: nat)
    requires i < |a| == |b|
    ensures a[i..] == b[i..] <==> a[i] == b[i] && a[i + 1..] == b[i + 1..]
  {
  }

  lemma {:induction false} FieldsOrder(a: seq<nat>, b: seq<nat>, i: nat, c: string, d: string)
    requires ValidFields(a) && ValidFields(b) && i <= 6
    ensures StrLess(FieldsText(a, i) + c, FieldsText(b, i) + d) <==>
      FieldsBefore(a, b, i) || (a[i..] == b[i..] && StrLess(c, d))
    decreases 6 - i
  {
    if i == 6 {
      HeadsDecide("Z", "Z", c, d);
      StrLessIrreflexive("Z");
    } else {
      var x, y, s := Pad(a[i], Width(i)), Pad(b[i], Width(i)), [Separator(i)];
      var restA, restB := FieldsText(a, i + 1) + c, FieldsText(b, i + 1) + d;
      FieldsOrder(a, b, i + 1, c, d);
      PadOrder(a[i], b[i], Width(i));
      PieceDecides(s, x, y, restA, restB);
      Associative(s + x, FieldsText(a, i + 1), c);
      Associative(s + y, FieldsText(b, i + 1), d);
      SameTail(a, b, i);
    }
  }

  /** Years written alike: with four digits, or with the same sign. */
  datatype Era = BeforeZero | FourDigits | AfterFourDigits

  function EraOf(year: int): Era {
    if year < 0 then BeforeZero else if year <= 9999 then FourDigits else AfterFourDigits
  }

  /** How two different years compare as text. */
  predicate YearTextLess(y: int, z: int) {
    match (EraOf(y), EraOf(z))
    case (BeforeZero, BeforeZero) => z < y
    case (BeforeZero, FourDigits) => true
    case (BeforeZero, AfterFourDigits) => false
    case (FourDigits, FourDigits) => y < z
    case (FourDigits, _) => false
    case (AfterFourDigits, AfterFourDigits) => y < z
    case (AfterFourDigits, _) => true
  }

  lemma FirstCharDecides(a: string, b: string)
    requires a != [] && b != [] && a[0] != b[0]
    ensures StrLess(a, b) <==> a[0] < b[0]
  {
  }

  lemma PadStarts(n: nat, w: nat)
    requires w >= 1
    ensures '0' <= Pad(n, w)[0] <= '9'
  {
  }

  lemma SignedOrder(sign: string, m: nat, n: nat, c: string, d: string)
    requires m < 1000000 && n < 1000000
    ensures StrLess((sign + Pad(m, 6)) + c, (sign + Pad(n, 6)) + d) <==> m < n || (m == n && StrLess(c, d))
  {
    assert PowerOfTen(3) == 1000 && PowerOfTen(6) == 1000000;
    PadOrder(m, n, 6);
    PieceDecides(sign, Pad(m, 6), Pad(n, 6), c, d);
  }

  lemma YearStart(year: int, rest: string)
    ensures YearText(year) != [] && (YearText(year) + rest)[0] == YearText(year)[0]
    ensures match EraOf(year)
      case BeforeZero => YearText(year)[0] == '-'
      case FourDigits => '0' <= YearText(year)[0] <= '9'
      case AfterFourDigits => YearText(year)[0] == '+'
  {
    if EraOf(year).FourDigits? { PadStarts(year, 4); }
  }

  lemma YearOrder(y: int, z: int, c: string, d: string)
    requires -1000000 < y < 1000000 && -1000000 < z < 1000000
    ensures StrLess(YearText(y) + c, YearText(z) + d) <==> if y == z then StrLess(c, d) else YearTextLess(y, z)
  {
    if EraOf(y) == EraOf(z) {
      match EraOf(y) {
        case BeforeZero => SignedOrder("-", -y, -z, c, d);
        case AfterFourDigits => SignedOrder("+", y, z, c, d);
        case FourDigits =>
          assert PowerOfTen(2) == 100 && PowerOfTen(4) == 10000;
          PadOrder(y, z, 4);
          HeadsDecide(Pad(y, 4), Pad(z, 4), c, d);
      }
    } else {
      YearStart(y, c);
      YearStart(z, d);
      FirstCharDecides(YearText(y) + c, YearText(z) + d);
    }
  }

  /** The sort order of two dated keys, for all years. */
  lemma SortKeyOrder(a: Moment, id: string, b: Moment, id': string)
    requires ValidMoment(a) && ValidMoment(b)
    ensures StrLess(ListSortKey(true, Some(a), id), ListSortKey(true, Some(b), id')) <==>
      if a.year != b.year then YearTextLess(a.year, b.year)
      else FieldsBefore(a.fields, b.fields, 0) || (a == b && StrLess(id, id'))
  {
    var c, d := "#" + id, "#" + id';
    assert ListSortKey(true, Some(a), id) == YearText(a.year) + (FieldsText(a.fields, 0) + c);
    assert ListSortKey(true, Some(b), id') == YearText(b.year) + (FieldsText(b.fields, 0) + d);
    YearOrder(a.year, b.year, FieldsText(a.fields, 0) + c, FieldsText(b.fields, 0) + d);
    FieldsOrder(a.fields, b.fields, 0, c, d);
    StrLessSamePrefix("#", id, id');
    assert a.fields[0..] == a.fields && b.fields[0..] == b.fields;
  }

  /** In the years 0 to 9999 a list partition is ordered by creation time, then id. */
  lemma ListOrder(a: Moment, id: string, b: Moment, id': string)
    requires ValidMoment(a) && ValidMoment(b) && 0 <= a.year <= 9999 && 0 <= b.year <= 9999
    ensures StrLess(ListSortKey(true, Some(a), id), ListSortKey(true, Some(b), id')) <==>
      Before(a, b) || (a == b && StrLess(id, id'))
  {
    SortKeyOrder(a, id, b, id');
  }

  /** Outside them an earlier entity sorts first exactly unless the years cross 9999 upwards or differ below zero. */
  lemma ListOrderIff(a: Moment, id: string, b: Moment, id': string)
    requires ValidMoment(a) && ValidMoment(b) && Before(a, b)
    ensures StrLess(ListSortKey(true, Some(a), id), ListSortKey(true, Some(b), id'))
      <==> !(a.year <= 9999 < b.year) && !(a.year < b.year < 0)
  {
    SortKeyOrder(a, id, b, id');
  }

  /** Entities without a creation time come before all dated ones, ordered by id. */
  lemma UndatedFirst(id: string, id': string, b: Moment)
    requires ValidMoment(b)
    ensures StrLess(ListSortKey(true, None, id), ListSortKey(true, Some(b), id'))
    ensures StrLess(ListSortKey(true, None, id), ListSortKey(true, None, id')) <==> StrLess(id, id')
  {
    YearStart(b.year, FieldsText(b.fields, 0));
    StrLessSamePrefix("#", id, id');
    assert "" + ("#" + id) == "#" + id && "" + ("#" + id') == "#" + id';
    FirstCharDecides("#" + id, IsoText(b) + ("#" + id'));
  }
}
