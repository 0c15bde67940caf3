/**
 * Which entities survive serializing and deserializing: exactly those whose nodes agree about the tags of their paths.
 */
module EntityRoundTrip {
  import opened Common
  import opened EntitySerializer

  // ---------------------------------------------------------------- what survives a round trip

  /** `v` as it can come back: null, functions and invalid dates as undefined, function-valued properties gone. */
  function Norm(v: Value): Value
    decreases v, 1
  {
    match v
    case Null => Undefined
    case Func => Undefined
    case Date(time) => if time.None? then Undefined else v
    case Arr(items) => Arr(NormAll(items))
    case Obj(props) => Obj(NormProps(props))
    case Extra(props) => Extra(NormProps(props))
    case MapV(entries) => MapV(MapFrom(NormPairs(entries)))
    case SetV(elems) => SetV(SetFrom(NormAll(elems)))
    case _ => v
  }

  function NormAll(items: seq<Value>): (r: seq<Value>)
    ensures |r| == |items|
    decreases items, 0
  {
    if items == [] then [] else NormAll(items[..|items| - 1]) + [Norm(items[|items| - 1])]
  }

  function NormPair(e: Entry): Entry
    decreases e, 0
  {
    Entry(Norm(e.key), Norm(e.value))
  }

  function NormPairs(entries: seq<Entry>): (r: seq<Entry>)
    ensures |r| == |entries|
    decreases entries, 0
  {
    if entries == [] then [] else NormPairs(entries[..|entries| - 1]) + [NormPair(entries[|entries| - 1])]
  }

  function NormProps(props: seq<Prop>): seq<Prop>
    decreases props, 0
  {
    if props == [] then []
    else
      var last := props[|props| - 1];
      var before := NormProps(props[..|props| - 1]);
      if last.value.Func? then before else before + [Prop(last.key, Norm(last.value))]
  }

  /** Map keys and set elements stay distinct after normalization, everywhere in the tree. */
  ghost predicate Distinct(v: Value)
    decreases v, 1
  {
    match v
    case Arr(items) => DistinctAll(items)
    case Obj(props) => DistinctProps(props)
    case Extra(props) => DistinctProps(props)
    case MapV(entries) =>
      var pairs := NormPairs(entries);
      && DistinctPairs(entries)
      && (forall i, j :: 0 <= i < j < |pairs| ==> !SameKey(pairs[i].key, pairs[j].key))
    case SetV(elems) =>
      var values := NormAll(elems);
      && DistinctAll(elems)
      && (forall i, j :: 0 <= i < j < |values| ==> !SameKey(values[i], values[j]))
    case _ => true
  }

  ghost predicate DistinctAll(items: seq<Value>)
    decreases items, 0
  {
    items != [] ==> DistinctAll(items[..|items| - 1]) && Distinct(items[|items| - 1])
  }

  ghost predicate DistinctPair(e: Entry)
    decreases e, 0
  {
    Distinct(e.key) && Distinct(e.value)
  }

  ghost predicate DistinctPairs(entries: seq<Entry>)
    decreases entries, 0
  {
    entries != [] ==> DistinctPairs(entries[..|entries| - 1]) && DistinctPair(entries[|entries| - 1])
  }

  ghost predicate DistinctProps(props: seq<Prop>)
    decreases props, 0
  {
    props != [] ==> DistinctProps(props[..|props| - 1]) && Distinct(props[|props| - 1].value)
  }

  lemma {:induction false} MapFromDistinct(pairs: seq<Entry>)
    requires forall i, j :: 0 <= i < j < |pairs| ==> !SameKey(pairs[i].key, pairs[j].key)
    ensures MapFrom(pairs) == pairs
  {
    if pairs != [] {
      MapFromDistinct(pairs[..|pairs| - 1]);
    }
  }

  lemma {:induction false} MapFromFull(pairs: seq<Entry>)
    requires |MapFrom(pairs)| == |pairs|
    ensures MapFrom(pairs) == pairs
  {
    if pairs != [] {
      MapFromFull(pairs[..|pairs| - 1]);
    }
  }

  lemma {:induction false} SetFromDistinct(values: seq<Value>)
    requires forall i, j :: 0 <= i < j < |values| ==> !SameKey(values[i], values[j])
    ensures SetFrom(values) == values
  {
    if values != [] {
      SetFromDistinct(values[..|values| - 1]);
    }
  }

  lemma {:induction false} SetFromFull(values: seq<Value>)
    requires |SetFrom(values)| == |values|
    ensures SetFrom(values) == values
  {
    if values != [] {
      SetFromFull(values[..|values| - 1]);
    }
  }

  // ---------------------------------------------------------------- the round trip, node by node

  /** Stored as null, so read back as undefined before any tag is looked at. */
  predicate Vanishes(v: Value) {
    v.Undefined? || v.Null? || v.Func? || (v.Date? && v.time.None?)
  }

  function Lookup(types: Types, path: string): Option<Tag> {
    if path in types then Some(types[path]) else None
  }

  predicate Fits(n: Node, types: Types) {
    Vanishes(n.value) || Lookup(types, n.path) == OwnTag(n.value)
  }

  /** Every node finds its own tag, or none if it has none, at its path. */
  ghost predicate Agree(nodes: seq<Node>, types: Types) {
    nodes != [] ==> Agree(nodes[..|nodes| - 1], types) && Fits(nodes[|nodes| - 1], types)
  }

  lemma {:induction false} AgreeEach(nodes: seq<Node>, types: Types)
    ensures Agree(nodes, types) <==> forall i :: 0 <= i < |nodes| ==> Fits(nodes[i], types)
  {
    if nodes != [] {
      var n := |nodes| - 1;
      AgreeEach(nodes[..n], types);
      if forall i :: 0 <= i < |nodes| ==> Fits(nodes[i], types) {
        assert forall i :: 0 <= i < n ==> Fits(nodes[..n][i], types);
      }
      assert Agree(nodes, types) ==> forall i :: 0 <= i < n ==> Fits(nodes[..n][i], types);
    }
  }

  lemma {:induction false} AgreeConcat(a: seq<Node>, b: seq<Node>, types: Types)
    ensures Agree(a + b, types) <==> Agree(a, types) && Agree(b, types)
  {
    if b == [] {
      assert a + b == a;
    } else {
      AgreeConcat(a, b[..|b| - 1], types);
      assert (a + b)[..|a + b| - 1] == a + b[..|b| - 1];
    }
  }

  lemma AgreeCons(n: Node, rest: seq<Node>, types: Types)
    ensures Agree([n] + rest, types) <==> Fits(n, types) && Agree(rest, types)
  {
    AgreeConcat([n], rest, types);
    assert [n][..0] == [];
  }

  ghost predicate KnownTags(types: Types) {
    forall path :: path in types ==> !types[path].Other?
  }

  /** `read` is the normal form if, and where that can be told (`exact`) only if, the tags agree. */
  ghost predicate Matches<T(!new)>(agree: bool, read: Option<T>, norm: T, exact: bool) {
    (agree ==> read == Some(norm)) && (exact && read == Some(norm) ==> agree)
  }

  lemma MatchesAppend<T(!new)>(a: bool, init: Option<seq<T>>, norms: seq<T>, exact: bool, b: bool, last: Option<T>,
      norm: T, exact': bool)
    requires Matches(a, init, norms, exact) && Matches(b, last, norm, exact')
    ensures Matches(a && b, Append(init, last), norms + [norm], exact && exact')
  {
    if init.Some? && last.Some? && init.value + [last.value] == norms + [norm] {
      SnocEqual(init.value, last.value, norms, norm);
    }
  }

  ghost predicate ReadsBack(p: Platform, v: Value, path: string, types: Types) {
    Matches(Agree(Nodes(v, path), types), Read(p, Written(p, v), path, types), Norm(v), Distinct(v) && KnownTags(types))
  }

  ghost predicate ReadsBackAll(p: Platform, items: seq<Value>, path: string, types: Types) {
    Matches(Agree(NodesAll(items, path), types), ReadAll(p, WrittenAll(p, items), path, types), NormAll(items),
      DistinctAll(items) && KnownTags(types))
  }

  ghost predicate ReadsBackPair(p: Platform, e: Entry, path: string, n: nat, types: Types) {
    Matches(Agree(NodesPair(e, path, n), types), ReadPair(p, WrittenPair(p, e), Join(path, Decimal(n)), types),
      NormPair(e), DistinctPair(e) && KnownTags(types))
  }

  ghost predicate ReadsBackPairs(p: Platform, entries: seq<Entry>, path: string, types: Types) {
    Matches(Agree(NodesPairs(entries, path), types), ReadPairs(p, WrittenPairs(p, entries), path, types),
      NormPairs(entries), DistinctPairs(entries) && KnownTags(types))
  }

  ghost predicate ReadsBackProps(p: Platform, props: seq<Prop>, path: string, types: Types) {
    Matches(Agree(NodesProps(props, path), types), ReadProps(p, WrittenProps(p, props), path, types), NormProps(props),
      DistinctProps(props) && KnownTags(types))
  }

  lemma {:induction false} ReadAllWritten(p: Platform, items: seq<Value>, path: string, types: Types)
    requires Lawful(p)
    ensures ReadsBackAll(p, items, path, types)
    decreases items, 0
  {
    if items != [] {
      var n := |items| - 1;
      var at := Join(path, Decimal(n));
      ReadAllWritten(p, items[..n], path, types);
      ReadWritten(p, items[n], at, types);
      AgreeConcat(NodesAll(items[..n], path), Nodes(items[n], at), types);
      assert WrittenAll(p, items)[..n] == WrittenAll(p, items[..n]);
      MatchesAppend(Agree(NodesAll(items[..n], path), types), ReadAll(p, WrittenAll(p, items[..n]), path, types),
        NormAll(items[..n]), DistinctAll(items[..n]) && KnownTags(types),
                    Agree(Nodes(items[n], at), types), Read(p, Written(p, items[n]), at, types), Norm(items[n]),
                      Distinct(items[n]) && KnownTags(types));
    }
  }

  lemma PairPath(path: string, n: nat)
    ensures Join(path, Decimal(n) + ".0") == Join(Join(path, Decimal(n)), Decimal(0))
    ensures Join(path, Decimal(n) + ".1") == Join(Join(path, Decimal(n)), Decimal(1))
  {
  }

  lemma {:induction false} ReadPairWritten(p: Platform, e: Entry, path: string, n: nat, types: Types)
    requires Lawful(p)
    ensures ReadsBackPair(p, e, path, n, types)
    decreases e, 0
  {
    PairPath(path, n);
    ReadWritten(p, e.key, Join(path, Decimal(n) + ".0"), types);
    ReadWritten(p, e.value, Join(path, Decimal(n) + ".1"), types);
    AgreeConcat(Nodes(e.key, Join(path, Decimal(n) + ".0")), Nodes(e.value, Join(path, Decimal(n) + ".1")), types);
  }

  lemma {:induction false} ReadPairsWritten(p: Platform, entries: seq<Entry>, path: string, types: Types)
    requires Lawful(p)
    ensures ReadsBackPairs(p, entries, path, types)
    decreases entries, 0
  {
    if entries != [] {
      var n := |entries| - 1;
      ReadPairsWritten(p, entries[..n], path, types);
      ReadPairWritten(p, entries[n], path, n, types);
      AgreeConcat(NodesPairs(entries[..n], path), NodesPair(entries[n], path, n), types);
      assert WrittenPairs(p, entries)[..n] == WrittenPairs(p, entries[..n]);
      MatchesAppend(Agree(NodesPairs(entries[..n], path), types),
        ReadPairs(p, WrittenPairs(p, entries[..n]), path, types), NormPairs(entries[..n]),
        DistinctPairs(entries[..n]) && KnownTags(types),
                    Agree(NodesPair(entries[n], path, n), types),
                      ReadPair(p, WrittenPair(p, entries[n]), Join(path, Decimal(n)), types), NormPair(entries[n]),
                      DistinctPair(entries[n]) && KnownTags(types));
    }
  }

  lemma {:induction false} ReadPropsWritten(p: Platform, props: seq<Prop>, path: string, types: Types)
    requires Lawful(p)
    ensures ReadsBackProps(p, props, path, types)
    decreases props, 0
  {
    if props != [] {
      var n := |props| - 1;
      var Prop(key, v) := props[n];
      ReadPropsWritten(p, props[..n], path, types);
      if v.Func? {
        assert WrittenProps(p, props) == WrittenProps(p, props[..n]) && NormProps(props) == NormProps(props[..n]);
      } else {
        ReadWritten(p, v, Join(path, key), types);
        AgreeConcat(NodesProps(props[..n], path), Nodes(v, Join(path, key)), types);
        var written := WrittenProps(p, props);
        assert written[..|written| - 1] == WrittenProps(p, props[..n]);
        MatchesAppend(Agree(NodesProps(props[..n], path), types),
          ReadProps(p, WrittenProps(p, props[..n]), path, types), NormProps(props[..n]), DistinctProps(props[..n]) &&
          KnownTags(types),
                      Agree(Nodes(v, Join(path, key)), types), ReadProp(p, IProp(key, Written(p, v)), path, types),
                        Prop(key, Norm(v)), Distinct(v) && KnownTags(types));
      }
    }
  }

  lemma {:induction false} ReadArrayWritten(p: Platform, v: Value, path: string, types: Types)
    requires Lawful(p) && v.Arr?
    ensures ReadsBack(p, v, path, types)
    decreases v, 1
  {
    AgreeCons(Node(path, v), NodesAll(v.items, path), types);
    ReadAllWritten(p, v.items, path, types);
  }

  lemma {:induction false} ReadRecordWritten(p: Platform, v: Value, path: string, types: Types)
    requires Lawful(p) && (v.Obj? || v.Extra?)
    ensures ReadsBack(p, v, path, types)
    decreases v, 1
  {
    AgreeCons(Node(path, v), NodesProps(v.props, path), types);
    ReadPropsWritten(p, v.props, path, types);
  }

  lemma {:induction false} ReadMapWritten(p: Platform, v: Value, path: string, types: Types)
    requires Lawful(p) && v.MapV?
    ensures ReadsBack(p, v, path, types)
    decreases v, 1
  {
    AgreeCons(Node(path, v), NodesPairs(v.entries, path), types);
    ReadPairsWritten(p, v.entries, path, types);
    var item := IArr(WrittenPairs(p, v.entries));
    assert Written(p, v) == item;
    var read := ReadPairs(p, item.items, path, types);
    if Lookup(types, path) == Some(MapTag) {
      assert read.Some? ==> Read(p, item, path, types) == Some(MapV(MapFrom(read.value)));
      if Distinct(v) && KnownTags(types) && Read(p, item, path, types) == Some(Norm(v)) {
        MapFromDistinct(NormPairs(v.entries));
        MapFromFull(read.value);
      }
    } else {
      assert KnownTags(types) ==> Read(p, item, path, types) != Some(Norm(v));
    }
  }

  lemma {:induction false} ReadSetWritten(p: Platform, v: Value, path: string, types: Types)
    requires Lawful(p) && v.SetV?
    ensures ReadsBack(p, v, path, types)
    decreases v, 1
  {
    AgreeCons(Node(path, v), NodesAll(v.elems, path), types);
    ReadAllWritten(p, v.elems, path, types);
    var item := IArr(WrittenAll(p, v.elems));
    assert Written(p, v) == item;
    var read := ReadAll(p, item.items, path, types);
    if Lookup(types, path) == Some(SetTag) {
      assert read.Some? ==> Read(p, item, path, types) == Some(SetV(SetFrom(read.value)));
      if Distinct(v) && KnownTags(types) && Read(p, item, path, types) == Some(Norm(v)) {
        SetFromDistinct(NormAll(v.elems));
        SetFromFull(read.value);
      }
    } else {
      assert KnownTags(types) ==> Read(p, item, path, types) != Some(Norm(v));
    }
  }

  lemma ReadLeafWritten(p: Platform, v: Value, path: string, types: Types)
    requires Lawful(p) && !v.Arr? && !v.Obj? && !v.Extra? && !v.MapV? && !v.SetV?
    ensures ReadsBack(p, v, path, types)
  {
  }

  lemma {:induction false} ReadWritten(p: Platform, v: Value, path: string, types: Types)
    requires Lawful(p)
    ensures ReadsBack(p, v, path, types)
    decreases v, 2
  {
    match v
    case Arr(_) => ReadArrayWritten(p, v, path, types);
    case Obj(_) => ReadRecordWritten(p, v, path, types);
    case Extra(_) => ReadRecordWritten(p, v, path, types);
    case MapV(_) => ReadMapWritten(p, v, path, types);
    case SetV(_) => ReadSetWritten(p, v, path, types);
    case _ => ReadLeafWritten(p, v, path, types);
  }

  // ---------------------------------------------------------------- whole entities

  /** A property of this name cannot survive: the attribute is the serializer's own. */
  ghost predicate HasTypesProp(entity: seq<Prop>) {
    entity != [] &&
    var last := entity[|entity| - 1];
    HasTypesProp(entity[..|entity| - 1]) || (last.key == TYPES_ATTRIBUTE && !last.value.Func?)
  }

  /**
   * No property is named like the path table, and every node that is not null finds its own tag, and no other, at its
   * path.
   */
  ghost predicate Unambiguous(p: Platform, entity: seq<Prop>) {
    var nodes := NodesProps(entity, "");
    !HasTypesProp(entity) && Agree(nodes, Seen(p, Record(nodes, map[])))
  }

  lemma {:induction false} RecordKnown(nodes: seq<Node>)
    ensures KnownTags(Record(nodes, map[]))
  {
    if nodes != [] { RecordKnown(nodes[..|nodes| - 1]); }
  }

  lemma {:induction false} KeysSurvive(p: Platform, props: seq<Prop>)
    ensures HasTypesProp(props) <==> exists i ::
      0 <= i < |WrittenProps(p, props)| && WrittenProps(p, props)[i].key == TYPES_ATTRIBUTE
    ensures HasTypesProp(props) <==> exists i ::
      0 <= i < |NormProps(props)| && NormProps(props)[i].key == TYPES_ATTRIBUTE
  {
    if props != [] {
      var n := |props| - 1;
      KeysSurvive(p, props[..n]);
      if !props[n].value.Func? {
        var w, v := WrittenProps(p, props), NormProps(props);
        assert w[|w| - 1].key == v[|v| - 1].key == props[n].key;
        assert forall i :: 0 <= i < |w| - 1 ==> w[i] == WrittenProps(p, props[..n])[i];
        assert forall i :: 0 <= i < |v| - 1 ==> v[i] == NormProps(props[..n])[i];
      } else {
        assert WrittenProps(p, props) == WrittenProps(p, props[..n]);
        assert NormProps(props) == NormProps(props[..n]);
        assert HasTypesProp(props) <==> HasTypesProp(props[..n]);
      }
    }
  }

  lemma {:induction false} AttributesOfData(props: seq<IProp>)
    requires forall i :: 0 <= i < |props| ==> props[i].key != TYPES_ATTRIBUTE
    ensures Attributes(DataAttributes(props)) == props
    ensures RawTypes(DataAttributes(props)) == map[]
  {
    if props != [] {
      AttributesOfData(props[..|props| - 1]);
      assert DataAttributes(props)[..|props| - 1] == DataAttributes(props[..|props| - 1]);
    }
  }

  lemma {:induction false} AttributesAvoidTypes(item: seq<Attribute>)
    ensures forall i :: 0 <= i < |Attributes(item)| ==> Attributes(item)[i].key != TYPES_ATTRIBUTE
  {
    if item != [] { AttributesAvoidTypes(item[..|item| - 1]); }
  }

  lemma {:induction false} ReadPropsKeys(p: Platform, props: seq<IProp>, path: string, types: Types)
    ensures var r := ReadProps(p, props, path, types);
      r.Some? ==> forall i :: 0 <= i < |props| ==> r.value[i].key == props[i].key
  {
    if props != [] { ReadPropsKeys(p, props[..|props| - 1], path, types); }
  }

  lemma StoredParts(p: Platform, entity: seq<Prop>)
    requires !HasTypesProp(entity)
    ensures Attributes(Serialized(p, entity)) == WrittenProps(p, entity)
    ensures RawTypes(Serialized(p, entity)) == Record(NodesProps(entity, ""), map[])
  {
    var props := WrittenProps(p, entity);
    KeysSurvive(p, entity);
    forall i | 0 <= i < |props| ensures props[i].key != TYPES_ATTRIBUTE {
      assert !(0 <= i < |WrittenProps(p, entity)| && WrittenProps(p, entity)[i].key == TYPES_ATTRIBUTE);
    }
    AttributesOfData(props);
    var attributes := DataAttributes(props);
    assert forall i :: 0 <= i < |attributes| ==> attributes[i].name == props[i].key;
    var types := Record(NodesProps(entity, ""), map[]);
    assert (attributes + [Attribute(TYPES_ATTRIBUTE, TypeTable(types))])[..|attributes|] == attributes;
  }

  /**
   * The round trip, exactly: deserializing a serialized entity gives the entity back, up to normalization, if and only
   * if it is unambiguous. Only the "only if" half needs map keys and set elements that stay distinct.
   */
  lemma RoundTrip(p: Platform, entity: seq<Prop>)
    requires Lawful(p)
    ensures Unambiguous(p, entity) ==> Deserialize(p, Serialized(p, entity)) == Some(NormProps(entity))
    ensures DistinctProps(entity) && Deserialize(p, Serialized(p, entity)) == Some(NormProps(entity)) ==>
      Unambiguous(p, entity)
  {
    var item := Serialized(p, entity);
    if HasTypesProp(entity) {
      KeysSurvive(p, entity);
      AttributesAvoidTypes(item);
      ReadPropsKeys(p, Attributes(item), "", Seen(p, RawTypes(item)));
      var i :| 0 <= i < |NormProps(entity)| && NormProps(entity)[i].key == TYPES_ATTRIBUTE;
      var r := Deserialize(p, item);
      assert r.Some? && |r.value| == |NormProps(entity)| ==> r.value[i].key != TYPES_ATTRIBUTE;
    } else {
      StoredParts(p, entity);
      RecordKnown(NodesProps(entity, ""));
      ReadPropsWritten(p, entity, "", Seen(p, Record(NodesProps(entity, ""), map[])));
    }
  }

  // ---------------------------------------------------------------- dot-free keys are unambiguous

  /** `q` is `path` or lies below it. */
  predicate Under(path: string, q: string) {
    path <= q && (|q| > |path| ==> q[|path|] == '.')
  }

  ghost predicate DotFree(s: string) { '.' !in s }

  lemma JoinUnder(path: string, segment: string, q: string)
    requires path != "" && Under(Join(path, segment), q)
    ensures Under(path, q) && q != path
  {
  }

  /** If a path lies below two segments of one parent, the longer segment goes on with a dot. */
  lemma NextIsDot(path: string, s: string, t: string, q: string)
    requires Under(Join(path, s), q) && Under(Join(path, t), q)
    ensures |s| < |t| ==> t[|s|] == '.'
    ensures |s| == |t| ==> s == t
  {
    var base := if path == "" then "" else path + ".";
    assert Join(path, s) == base + s && Join(path, t) == base + t;
    var rest := q[|base|..];
    assert s == rest[..|s|] && t == rest[..|t|];
    if |s| < |t| {
      assert t[|s|] == rest[|s|] == q[|Join(path, s)|];
    }
  }

  /** Different dot-free segments lead to disjoint regions. */
  lemma SegmentsDisjoint(path: string, s: string, t: string, q: string)
    requires DotFree(s) && DotFree(t)
    requires Under(Join(path, s), q) && Under(Join(path, t), q)
    ensures s == t
  {
    NextIsDot(path, s, t, q);
    NextIsDot(path, t, s, q);
  }

  ghost predicate DotFreeKeys(v: Value)
    decreases v, 1
  {
    match v
    case Arr(items) => DotFreeAll(items)
    case Obj(props) => DotFreeProps(props)
    case Extra(props) => DotFreeProps(props)
    case MapV(entries) => DotFreePairs(entries)
    case SetV(elems) => DotFreeAll(elems)
    case _ => true
  }

  ghost predicate DotFreeAll(items: seq<Value>)
    decreases items, 0
  {
    items != [] ==> DotFreeAll(items[..|items| - 1]) && DotFreeKeys(items[|items| - 1])
  }

  ghost predicate DotFreePair(e: Entry)
    decreases e, 0
  {
    DotFreeKeys(e.key) && DotFreeKeys(e.value)
  }

  ghost predicate DotFreePairs(entries: seq<Entry>)
    decreases entries, 0
  {
    entries != [] ==> DotFreePairs(entries[..|entries| - 1]) && DotFreePair(entries[|entries| - 1])
  }

  /** Keys are dot-free here and below, and no object lists a key twice. */
  ghost predicate DotFreeProps(props: seq<Prop>)
    decreases props, 0
  {
    props != [] ==>
      var n := |props| - 1;
      && DotFreeProps(props[..n])
      && DotFree(props[n].key)
      && (forall i :: 0 <= i < n ==> props[i].key != props[n].key)
      && DotFreeKeys(props[n].value)
  }

  /** All visited paths differ and lie under `path`. */
  ghost predicate Separate(nodes: seq<Node>) {
    forall i, j :: 0 <= i < j < |nodes| ==> nodes[i].path != nodes[j].path
  }

  ghost predicate AllUnder(nodes: seq<Node>, path: string) {
    forall i :: 0 <= i < |nodes| ==> Under(path, nodes[i].path)
  }

  /** Every node lies under one of the first `n` indexed children of `path`. */
  ghost predicate UnderIndexes(nodes: seq<Node>, path: string, n: nat) {
    forall i :: 0 <= i < |nodes| ==> exists k: nat :: k < n && Under(Join(path, Decimal(k)), nodes[i].path)
  }

  lemma AppendIndexed(before: seq<Node>, nodes: seq<Node>, path: string, n: nat)
    requires Separate(before) && UnderIndexes(before, path, n)
    requires Separate(nodes) && AllUnder(nodes, Join(path, Decimal(n)))
    ensures Separate(before + nodes) && UnderIndexes(before + nodes, path, n + 1)
  {
    forall i, j | 0 <= i < |before| && 0 <= j < |nodes| ensures before[i].path != nodes[j].path {
      var k: nat :| k < n && Under(Join(path, Decimal(k)), before[i].path);
      if before[i].path == nodes[j].path {
        SegmentsDisjoint(path, Decimal(k), Decimal(n), nodes[j].path);
        DecimalInjective(k, n);
      }
    }
  }

  lemma {:induction false} SeparateAll(items: seq<Value>, path: string)
    requires path != "" && DotFreeAll(items)
    ensures Separate(NodesAll(items, path)) && UnderIndexes(NodesAll(items, path), path, |items|)
    decreases items, 0
  {
    if items != [] {
      var n := |items| - 1;
      SeparateAll(items[..n], path);
      SeparateNodes(items[n], Join(path, Decimal(n)));
      AppendIndexed(NodesAll(items[..n], path), Nodes(items[n], Join(path, Decimal(n))), path, n);
    }
  }

  lemma {:induction false} SeparatePair(e: Entry, path: string, n: nat)
    requires path != "" && DotFreePair(e)
    ensures Separate(NodesPair(e, path, n)) && AllUnder(NodesPair(e, path, n), Join(path, Decimal(n)))
    decreases e, 0
  {
    PairPath(path, n);
    var base := Join(path, Decimal(n));
    var keys, values := Nodes(e.key, Join(base, Decimal(0))), Nodes(e.value, Join(base, Decimal(1)));
    SeparateNodes(e.key, Join(base, Decimal(0)));
    SeparateNodes(e.value, Join(base, Decimal(1)));
    forall i | 0 <= i < |keys| ensures Under(base, keys[i].path) { JoinUnder(base, Decimal(0), keys[i].path); }
    forall i | 0 <= i < |values| ensures Under(base, values[i].path) { JoinUnder(base, Decimal(1), values[i].path); }
    forall i, j | 0 <= i < |keys| && 0 <= j < |values| ensures keys[i].path != values[j].path {
      if keys[i].path == values[j].path { SegmentsDisjoint(base, Decimal(0), Decimal(1), keys[i].path); }
    }
  }

  lemma {:induction false} SeparatePairs(entries: seq<Entry>, path: string)
    requires path != "" && DotFreePairs(entries)
    ensures Separate(NodesPairs(entries, path)) && UnderIndexes(NodesPairs(entries, path), path, |entries|)
    decreases entries, 0
  {
    if entries != [] {
      var n := |entries| - 1;
      SeparatePairs(entries[..n], path);
      SeparatePair(entries[n], path, n);
      AppendIndexed(NodesPairs(entries[..n], path), NodesPair(entries[n], path, n), path, n);
    }
  }

  ghost predicate UnderKeys(nodes: seq<Node>, path: string, props: seq<Prop>) {
    forall i :: 0 <= i < |nodes| ==> exists k :: 0 <= k < |props| && Under(Join(path, props[k].key), nodes[i].path)
  }

  ghost predicate NonEmptyKeys(props: seq<Prop>) {
    forall i :: 0 <= i < |props| ==> props[i].key != ""
  }

  lemma AppendKeyed(before: seq<Node>, nodes: seq<Node>, path: string, props: seq<Prop>)
    requires props != [] && forall k :: 0 <= k < |props| ==> DotFree(props[k].key)
    requires forall k :: 0 <= k < |props| - 1 ==> props[k].key != props[|props| - 1].key
    requires Separate(before) && UnderKeys(before, path, props[..|props| - 1])
    requires Separate(nodes) && AllUnder(nodes, Join(path, props[|props| - 1].key))
    ensures Separate(before + nodes) && UnderKeys(before + nodes, path, props)
  {
    var n := |props| - 1;
    forall i | 0 <= i < |before| ensures exists k :: 0 <= k < n && Under(Join(path, props[k].key), before[i].path) {
      var k :| 0 <= k < n && Under(Join(path, props[..n][k].key), before[i].path);
      assert props[..n][k] == props[k];
    }
    forall i, j | 0 <= i < |before| && 0 <= j < |nodes| ensures before[i].path != nodes[j].path {
      var k :| 0 <= k < n && Under(Join(path, props[k].key), before[i].path);
      if before[i].path == nodes[j].path {
        SegmentsDisjoint(path, props[k].key, props[n].key, nodes[j].path);
      }
    }
  }

  lemma {:induction false} DotFreeEach(props: seq<Prop>)
    requires DotFreeProps(props)
    ensures forall k :: 0 <= k < |props| ==> DotFree(props[k].key)
  {
    if props != [] {
      var n := |props| - 1;
      DotFreeEach(props[..n]);
      forall k | 0 <= k < |props| ensures DotFree(props[k].key) { assert k < n ==> props[..n][k] == props[k]; }
    }
  }

  lemma {:induction false} SeparateProps(props: seq<Prop>, path: string)
    requires DotFreeProps(props) && (path == "" ==> NonEmptyKeys(props))
    ensures Separate(NodesProps(props, path)) && UnderKeys(NodesProps(props, path), path, props)
    decreases props, 0
  {
    if props != [] {
      var n := |props| - 1;
      var init := props[..n];
      SeparateProps(init, path);
      DotFreeEach(props);
      if props[n].value.Func? {
        AppendKeyed(NodesProps(init, path), [], path, props);
        assert NodesProps(init, path) + [] == NodesProps(init, path);
      } else {
        SeparateNodes(props[n].value, Join(path, props[n].key));
        AppendKeyed(NodesProps(init, path), Nodes(props[n].value, Join(path, props[n].key)), path, props);
      }
    }
  }

  /** The node itself comes first; everything else lies strictly below its path. */
  lemma PrependSelf(path: string, v: Value, rest: seq<Node>)
    requires Separate(rest)
    requires forall i :: 0 <= i < |rest| ==> Under(path, rest[i].path) && rest[i].path != path
    ensures Separate([Node(path, v)] + rest) && AllUnder([Node(path, v)] + rest, path)
  {
  }

  lemma {:induction false} SeparateNodes(v: Value, path: string)
    requires path != "" && DotFreeKeys(v)
    ensures Separate(Nodes(v, path)) && AllUnder(Nodes(v, path), path)
    decreases v, 1
  {
    var rest := Nodes(v, path)[1..];
    match v {
      case Arr(items) => SeparateAll(items, path);
      case Obj(props) => SeparateProps(props, path);
      case Extra(props) => SeparateProps(props, path);
      case MapV(entries) => SeparatePairs(entries, path);
      case SetV(elems) => SeparateAll(elems, path);
      case _ => assert rest == [];
    }
    forall i | 0 <= i < |rest| ensures Under(path, rest[i].path) && rest[i].path != path {
      BelowSelf(v, path, rest, i);
    }
    PrependSelf(path, v, rest);
    assert Nodes(v, path) == [Node(path, v)] + rest;
  }

  lemma BelowSelf(v: Value, path: string, rest: seq<Node>, i: nat)
    requires path != "" && i < |rest|
    requires (exists n :: UnderIndexes(rest, path, n)) || (exists props: seq<Prop> :: UnderKeys(rest, path, props))
    ensures Under(path, rest[i].path) && rest[i].path != path
  {
  }

  lemma {:induction false} RecordSeparate(nodes: seq<Node>)
    requires Separate(nodes)
    ensures Agree(nodes, Record(nodes, map[]))
    ensures forall path :: path in Record(nodes, map[]) ==> exists i :: 0 <= i < |nodes| && nodes[i].path == path
  {
    if nodes != [] {
      var n := |nodes| - 1;
      var init := nodes[..n];
      RecordSeparate(init);
      var before, types := Record(init, map[]), Record(nodes, map[]);
      assert nodes[n].path !in before;
      AgreeEach(init, before);
      forall i | 0 <= i < |nodes| ensures Fits(nodes[i], types) {
        if i < n {
          assert Fits(init[i], before);
        }
      }
      AgreeEach(nodes, types);
      forall path | path in types ensures exists i :: 0 <= i < |nodes| && nodes[i].path == path {
        if path in before {
          var i :| 0 <= i < |init| && init[i].path == path;
          assert nodes[i].path == path;
        }
      }
    }
  }

  /** No root property has the name of an inherited method. */
  ghost predicate OwnNames(p: Platform, entity: seq<Prop>) {
    forall k :: 0 <= k < |entity| ==> entity[k].key !in p.inherited
  }

  lemma {:induction false} AgreeSeen(p: Platform, nodes: seq<Node>, types: Types)
    requires Agree(nodes, types) && forall i :: 0 <= i < |nodes| ==> nodes[i].path !in p.inherited
    ensures Agree(nodes, Seen(p, types))
  {
    if nodes != [] { AgreeSeen(p, nodes[..|nodes| - 1], types); }
  }

  /** Dot-free keys, non-empty root keys that no object inherits, and no root key `__types` are enough. */
  lemma DotFreeUnambiguous(p: Platform, entity: seq<Prop>)
    requires Lawful(p)
    requires DotFreeProps(entity) && NonEmptyKeys(entity) && OwnNames(p, entity) && !HasTypesProp(entity)
    ensures Unambiguous(p, entity)
  {
    var nodes := NodesProps(entity, "");
    SeparateProps(entity, "");
    RecordSeparate(nodes);
    forall i | 0 <= i < |nodes| ensures nodes[i].path !in p.inherited {
      var k :| 0 <= k < |entity| && Under(Join("", entity[k].key), nodes[i].path);
      if nodes[i].path != entity[k].key { assert nodes[i].path[|entity[k].key|] == '.'; }
    }
    AgreeSeen(p, nodes, Record(nodes, map[]));
  }

  lemma DotFreeRoundTrip(p: Platform, entity: seq<Prop>)
    requires Lawful(p)
    requires DotFreeProps(entity) && NonEmptyKeys(entity) && OwnNames(p, entity) && !HasTypesProp(entity)
    ensures Deserialize(p, Serialized(p, entity)) == Some(NormProps(entity))
  {
    DotFreeUnambiguous(p, entity);
    RoundTrip(p, entity);
  }

  lemma {:induction false} RootNode(entity: seq<Prop>, k: nat)
    requires k < |entity| && !entity[k].value.Func?
    ensures Node(entity[k].key, entity[k].value) in NodesProps(entity, "")
  {
    var n := |entity| - 1;
    if k < n { RootNode(entity[..n], k); }
  }

  /** Every entity with an untagged, present value under an inherited name fails to come back. */
  lemma InheritedNameBreaksRoundTrip(p: Platform, entity: seq<Prop>, k: nat)
    requires Lawful(p) && DistinctProps(entity) && k < |entity| && entity[k].key in p.inherited
    requires !Vanishes(entity[k].value) && OwnTag(entity[k].value).None?
    ensures Deserialize(p, Serialized(p, entity)) != Some(NormProps(entity))
  {
    var nodes := NodesProps(entity, "");
    RootNode(entity, k);
    var i :| 0 <= i < |nodes| && nodes[i] == Node(entity[k].key, entity[k].value);
    assert !Fits(nodes[i], Seen(p, Record(nodes, map[])));
    AgreeEach(nodes, Seen(p, Record(nodes, map[])));
    RoundTrip(p, entity);
  }

  const DOTTED_INNER := [Prop("b", Str("x"))]

  function DottedEntity(t: TimeValue): seq<Prop> {
    [Prop("a.b", Date(Some(t))), Prop("a", Obj(DOTTED_INNER))]
  }

  lemma DottedNodes(t: TimeValue)
    ensures NodesProps(DottedEntity(t), "") ==
      [Node("a.b", Date(Some(t))), Node("a", Obj(DOTTED_INNER)), Node("a.b", Str("x"))]
  {
    var first := DottedEntity(t)[0];
    assert Join("a", "b") == "a.b";
    assert DOTTED_INNER[..0] == [] && DottedEntity(t)[..1] == [first] && [first][..0] == [];
    assert NodesProps(DOTTED_INNER, "a") == [Node("a.b", Str("x"))];
    assert NodesProps([first], "") == [Node("a.b", Date(Some(t)))];
    assert NodesProps(DottedEntity(t), "") == NodesProps([first], "") + Nodes(Obj(DOTTED_INNER), "a");
  }

  lemma DottedDistinct(t: TimeValue)
    ensures DistinctProps(DottedEntity(t))
  {
  }

  /** A dot in a key can make a plain string share the path of a date: the entity does not come back. */
  lemma DottedKeyBreaksRoundTrip(p: Platform, t: TimeValue)
    requires Lawful(p)
    ensures Deserialize(p, Serialized(p, DottedEntity(t))) != Some(NormProps(DottedEntity(t)))
  {
    DottedNodes(t);
    var nodes := NodesProps(DottedEntity(t), "");
    var types := Record(nodes, map[]);
    assert nodes[..2][..1] == [nodes[0]] && [nodes[0]][..0] == [];
    assert types == Record(nodes[..2], map[]) == Record([nodes[0]], map[]) == map["a.b" := DateTag];
    assert !Fits(nodes[2], Seen(p, types));
    AgreeEach(nodes, Seen(p, types));
    DottedDistinct(t);
    RoundTrip(p, DottedEntity(t));
  }
}
