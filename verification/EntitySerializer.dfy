/**
 * The DynamoDB entity serializer: entities become JSON-safe attribute trees plus a side table that records, per dotted
 * path, which values were dates, bigints, dictionaries, maps or sets. Reading undoes writing exactly when no two nodes
 * of the tree disagree about the tag of the path they share.
 */
module EntitySerializer {
  import opened Common

  /** The time values of valid JavaScript dates. */
  type TimeValue = t: int | -8_640_000_000_000_000 <= t <= 8_640_000_000_000_000

  /** A run-time value; the entries of objects and dictionaries are in enumeration order. */
  datatype Value =
    | Undefined
    | Null
    | Func
    | Bool(b: bool)
    | Num(n: real)
    | Str(s: string)
    | BigInt(i: int)
    | Date(time: Option<TimeValue>)
    | Arr(items: seq<Value>)
    | Obj(props: seq<Prop>)
    | Extra(props: seq<Prop>)
    | MapV(entries: seq<Entry>)
    | SetV(elems: seq<Value>)

  datatype Prop = Prop(key: string, value: Value)
  datatype Entry = Entry(key: Value, value: Value)

  /** A stored attribute value. */
  datatype Item =
    | INull
    | IBool(b: bool)
    | INum(n: real)
    | IStr(s: string)
    | IArr(items: seq<Item>)
    | IObj(props: seq<IProp>)

  datatype IProp = IProp(key: string, value: Item)

  /**
   * The type tags; any other text found in a stored table is kept as it is. `Inherited` is a method of every object.
   */
  datatype Tag = DateTag | BigIntTag | ExtraTag | MapTag | SetTag | Other(text: string) | Inherited

  function TagOf(text: string): Tag {
    if text == "date" then DateTag
    else if text == "bigint" then BigIntTag
    else if text == "extraProperties" then ExtraTag
    else if text == "map" then MapTag
    else if text == "set" then SetTag
    else Other(text)
  }

  /** Dotted path to type tag. */
  type Types = map<string, Tag>

  /** The attributes of one item; `__types`, when written by the serializer, holds the path table. */
  datatype Content = Data(item: Item) | TypeTable(types: Types)
  datatype Attribute = Attribute(name: string, content: Content)

  const TYPES_ATTRIBUTE := "__types"

  /**
   * The JavaScript platform: the conversions that the serializer calls, and the names of the methods that every object
   * inherits, such as `constructor` and `toString`. `parseBig` is None where `BigInt()` throws.
   */
  datatype Platform = Platform(
    toIso: TimeValue -> string,
    parseDate: string -> Option<TimeValue>,
    showBig: int -> string,
    parseBig: string -> Option<int>,
    text: Item -> string,
    inherited: set<string>)

  ghost predicate Lawful(p: Platform) {
    && (forall t: TimeValue :: p.parseDate(p.toIso(t)) == Some(t))
    && (forall i: int :: p.parseBig(p.showBig(i)) == Some(i))
    && (forall s: string :: p.text(IStr(s)) == s)
    && (forall name :: name in p.inherited ==> '.' !in name)
  }

  function Join(path: string, segment: string): string {
    if path == "" then segment else path + "." + segment
  }

  // ---------------------------------------------------------------- writing

  /** The tag a value records at its own path. */
  function OwnTag(v: Value): Option<Tag> {
    match v
    case Date(_) => Some(DateTag)
    case BigInt(_) => Some(BigIntTag)
    case Extra(_) => Some(ExtraTag)
    case MapV(_) => Some(MapTag)
    case SetV(_) => Some(SetTag)
    case _ => None
  }

  function Written(p: Platform, v: Value): Item {
    match v
    case Undefined => INull
    case Null => INull
    case Func => INull
    case Bool(b) => IBool(b)
    case Num(n) => INum(n)
    case Str(s) => IStr(s)
    case BigInt(i) => IStr(p.showBig(i))
    case Date(time) => if time.None? then INull else IStr(p.toIso(time.value))
    case Arr(items) => IArr(WrittenAll(p, items))
    case Obj(props) => IObj(WrittenProps(p, props))
    case Extra(props) => IObj(WrittenProps(p, props))
    case MapV(entries) => IArr(WrittenPairs(p, entries))
    case SetV(elems) => IArr(WrittenAll(p, elems))
  }

  function WrittenAll(p: Platform, items: seq<Value>): (r: seq<Item>)
    ensures |r| == |items|
  {
    if items == [] then []
    else WrittenAll(p, items[..|items| - 1]) + [Written(p, items[|items| - 1])]
  }

  function WrittenPair(p: Platform, e: Entry): Item {
    IArr([Written(p, e.key), Written(p, e.value)])
  }

  function WrittenPairs(p: Platform, entries: seq<Entry>): (r: seq<Item>)
    ensures |r| == |entries|
  {
    if entries == [] then []
    else WrittenPairs(p, entries[..|entries| - 1]) + [WrittenPair(p, entries[|entries| - 1])]
  }

  /** Function-valued properties are skipped. */
  function WrittenProps(p: Platform, props: seq<Prop>): seq<IProp> {
    if props == [] then []
    else
      var last := props[|props| - 1];
      var before := WrittenProps(p, props[..|props| - 1]);
      if last.value.Func? then before else before + [IProp(last.key, Written(p, last.value))]
  }

  /** The nodes a write of `v` at `path` visits, in order, each with the path it is visited at. */
  datatype Node = Node(path: string, value: Value)

  function Nodes(v: Value, path: string): seq<Node>
    decreases v, 1
  {
    [Node(path, v)]
    + match v {
        case Arr(items) => NodesAll(items, path)
        case Obj(props) => NodesProps(props, path)
        case Extra(props) => NodesProps(props, path)
        case MapV(entries) => NodesPairs(entries, path)
        case SetV(elems) => NodesAll(elems, path)
        case _ => []
      }
  }

  function NodesAll(items: seq<Value>, path: string): seq<Node>
    decreases items, 0
  {
    if items == [] then []
    else
      var n := |items| - 1;
      NodesAll(items[..n], path) + Nodes(items[n], Join(path, Decimal(n)))
  }

  function NodesPair(e: Entry, path: string, n: nat): seq<Node>
    decreases e, 0
  {
    Nodes(e.key, Join(path, Decimal(n) + ".0")) + Nodes(e.value, Join(path, Decimal(n) + ".1"))
  }

  function NodesPairs(entries: seq<Entry>, path: string): seq<Node>
    decreases entries, 0
  {
    if entries == [] then []
    else
      var n := |entries| - 1;
      NodesPairs(entries[..n], path) + NodesPair(entries[n], path, n)
  }

  function NodesProps(props: seq<Prop>, path: string): seq<Node>
    decreases props, 0
  {
    if props == [] then []
    else
      var last := props[|props| - 1];
      var before := NodesProps(props[..|props| - 1], path);
      if last.value.Func? then before else before + Nodes(last.value, Join(path, last.key))
  }

  /** The path table after visiting `nodes`; later visits win. */
  function Record(nodes: seq<Node>, types: Types): Types {
    if nodes == [] then types
    else
      var last := nodes[|nodes| - 1];
      var before := Record(nodes[..|nodes| - 1], types);
      if OwnTag(last.value).Some? then before[last.path := OwnTag(last.value).value] else before
  }

  lemma {:induction false} RecordConcat(a: seq<Node>, b: seq<Node>, types: Types)
    ensures Record(a + b, types) == Record(b, Record(a, types))
  {
    if b == [] {
      assert a + b == a;
    } else {
      RecordConcat(a, b[..|b| - 1], types);
      assert (a + b)[..|a + b| - 1] == a + b[..|b| - 1];
    }
  }

  /** The path table one `serialize` call shares among all its writes. */
  class TypeMap {
    var tags: Types

    constructor ()
      ensures tags == map[]
    {
      tags := map[];
    }
  }

  method WriteAll(p: Platform, items: seq<Value>, path: string, types: TypeMap) returns (out: seq<Item>)
    modifies types
    ensures out == WrittenAll(p, items)
    ensures types.tags == Record(NodesAll(items, path), old(types.tags))
    decreases items, 0
  {
    out := [];
    for i := 0 to |items|
      invariant out == WrittenAll(p, items[..i])
      invariant types.tags == Record(NodesAll(items[..i], path), old(types.tags))
    {
      assert items[..i + 1][..i] == items[..i];
      RecordConcat(NodesAll(items[..i], path), Nodes(items[i], Join(path, Decimal(i))), old(types.tags));
      var item := Write(p, items[i], Join(path, Decimal(i)), types);
      out := out + [item];
    }
    assert items[..|items|] == items;
  }

  method WritePair(p: Platform, e: Entry, path: string, i: nat, types: TypeMap) returns (out: Item)
    modifies types
    ensures out == WrittenPair(p, e)
    ensures types.tags == Record(NodesPair(e, path, i), old(types.tags))
    decreases e, 0
  {
    RecordConcat(Nodes(e.key, Join(path, Decimal(i) + ".0")), Nodes(e.value, Join(path, Decimal(i) + ".1")),
      types.tags);
    var k := Write(p, e.key, Join(path, Decimal(i) + ".0"), types);
    var v := Write(p, e.value, Join(path, Decimal(i) + ".1"), types);
    out := IArr([k, v]);
  }

  method WritePairs(p: Platform, entries: seq<Entry>, path: string, types: TypeMap) returns (out: seq<Item>)
    modifies types
    ensures out == WrittenPairs(p, entries)
    ensures types.tags == Record(NodesPairs(entries, path), old(types.tags))
    decreases entries, 0
  {
    out := [];
    for i := 0 to |entries|
      invariant out == WrittenPairs(p, entries[..i])
      invariant types.tags == Record(NodesPairs(entries[..i], path), old(types.tags))
    {
      assert entries[..i + 1][..i] == entries[..i];
      RecordConcat(NodesPairs(entries[..i], path), NodesPair(entries[i], path, i), old(types.tags));
      var pair := WritePair(p, entries[i], path, i, types);
      out := out + [pair];
    }
    assert entries[..|entries|] == entries;
  }

  method WriteObject(p: Platform, source: seq<Prop>, path: string, types: TypeMap) returns (result: seq<IProp>)
    modifies types
    ensures result == WrittenProps(p, source)
    ensures types.tags == Record(NodesProps(source, path), old(types.tags))
    decreases source, 0
  {
    result := [];
    for i := 0 to |source|
      invariant result == WrittenProps(p, source[..i])
      invariant types.tags == Record(NodesProps(source[..i], path), old(types.tags))
    {
      assert source[..i + 1][..i] == source[..i];
      var prop := source[i];
      if !prop.value.Func? {
        RecordConcat(NodesProps(source[..i], path), Nodes(prop.value, Join(path, prop.key)), old(types.tags));
        var item := Write(p, prop.value, Join(path, prop.key), types);
        result := result + [IProp(prop.key, item)];
      }
    }
    assert source[..|source|] == source;
  }

  method Write(p: Platform, value: Value, path: string, types: TypeMap) returns (r: Item)
    modifies types
    ensures r == Written(p, value)
    ensures types.tags == Record(Nodes(value, path), old(types.tags))
    decreases value, 1
  {
    assert Nodes(value, path)[..1] == [Node(path, value)];
    RecordConcat([Node(path, value)], Nodes(value, path)[1..], types.tags);
    assert Nodes(value, path) == [Node(path, value)] + Nodes(value, path)[1..];
    if OwnTag(value).Some? {
      types.tags := types.tags[path := OwnTag(value).value];
    }
    match value
    case Undefined => r := INull;
    case Null => r := INull;
    case Func => r := INull;
    case Bool(b) => r := IBool(b);
    case Num(n) => r := INum(n);
    case Str(s) => r := IStr(s);
    case BigInt(i) => r := IStr(p.showBig(i));
    case Date(time) => r := if time.None? then INull else IStr(p.toIso(time.value));
    case Arr(items) =>
      var out := WriteAll(p, items, path, types);
      r := IArr(out);
    case Obj(props) =>
      var out := WriteObject(p, props, path, types);
      r := IObj(out);
    case Extra(props) =>
      var out := WriteObject(p, props, path, types);
      r := IObj(out);
    case MapV(entries) =>
      var out := WritePairs(p, entries, path, types);
      r := IArr(out);
    case SetV(elems) =>
      var out := WriteAll(p, elems, path, types);
      r := IArr(out);
  }

  function DataAttributes(props: seq<IProp>): (r: seq<Attribute>)
    ensures |r| == |props|
    ensures forall i :: 0 <= i < |r| ==> r[i] == Attribute(props[i].key, Data(props[i].value))
  {
    seq(|props|, i requires 0 <= i < |props| => Attribute(props[i].key, Data(props[i].value)))
  }

  /** `attributes[__types] = types`: an existing attribute of that name is overwritten in place. */
  function PutTypes(attributes: seq<Attribute>, types: Types): seq<Attribute> {
    if exists i :: 0 <= i < |attributes| && attributes[i].name == TYPES_ATTRIBUTE then
      seq(|attributes|, i requires 0 <= i < |attributes| =>
        if attributes[i].name == TYPES_ATTRIBUTE then Attribute(TYPES_ATTRIBUTE, TypeTable(types)) else attributes[i])
    else attributes + [Attribute(TYPES_ATTRIBUTE, TypeTable(types))]
  }

  function Serialized(p: Platform, entity: seq<Prop>): seq<Attribute> {
    var attributes := DataAttributes(WrittenProps(p, entity));
    var types := Record(NodesProps(entity, ""), map[]);
    if types == map[] then attributes else PutTypes(attributes, types)
  }

  method Serialize(p: Platform, entity: seq<Prop>) returns (attributes: seq<Attribute>)
    ensures attributes == Serialized(p, entity)
  {
    var types := new TypeMap();
    var props := WriteObject(p, entity, "", types);
    attributes := DataAttributes(props);
    assert types.tags == Record(NodesProps(entity, ""), map[]);
    if types.tags != map[] {
      attributes := PutTypes(attributes, types.tags);
    }
  }

  // ---------------------------------------------------------------- reading

  /** JavaScript `SameValueZero` on the values a read returns: primitives by value, fresh objects never. */
  predicate SameKey(a: Value, b: Value) {
    a == b && (a.Undefined? || a.Bool? || a.Num? || a.Str? || a.BigInt?)
  }

  predicate HasKey(entries: seq<Entry>, k: Value) {
    exists i :: 0 <= i < |entries| && SameKey(entries[i].key, k)
  }

  function MapSet(entries: seq<Entry>, e: Entry): seq<Entry> {
    if HasKey(entries, e.key) then
      seq(|entries|, i requires 0 <= i < |entries| =>
        if SameKey(entries[i].key, e.key) then Entry(entries[i].key, e.value) else entries[i])
    else entries + [e]
  }

  /** `new Map(pairs)`: a repeated key keeps its first position and its last value. */
  function MapFrom(pairs: seq<Entry>): (r: seq<Entry>)
    ensures |r| <= |pairs|
  {
    if pairs == [] then [] else MapSet(MapFrom(pairs[..|pairs| - 1]), pairs[|pairs| - 1])
  }

  predicate HasElement(elems: seq<Value>, v: Value) {
    exists i :: 0 <= i < |elems| && SameKey(elems[i], v)
  }

  /** `new Set(values)`: a repeated element keeps its first position. */
  function SetFrom(values: seq<Value>): (r: seq<Value>)
    ensures |r| <= |values|
  {
    if values == [] then []
    else
      var init := SetFrom(values[..|values| - 1]);
      if HasElement(init, values[|values| - 1]) then init else init + [values[|values| - 1]]
  }

  /** One more result after the ones read so far; an exception anywhere is an exception of the whole. */
  function Append<T>(init: Option<seq<T>>, last: Option<T>): Option<seq<T>> {
    if init.Some? && last.Some? then Some(init.value + [last.value]) else None
  }

  /** None stands for the exception of `BigInt()` on text that is no integer. */
  function Read(p: Platform, item: Item, path: string, types: Types): Option<Value>
    decreases item, 1
  {
    if item.INull? then Some(Undefined)
    else if path in types then
      match types[path]
      case DateTag => Some(Date(p.parseDate(p.text(item))))
      case BigIntTag =>
        (match p.parseBig(p.text(item))
         case Some(i) => Some(BigInt(i))
         case None => None)
      case ExtraTag =>
        if !item.IObj? then Some(Extra([])) else
        (match ReadProps(p, item.props, path, types)
         case Some(props) => Some(Extra(props))
         case None => None)
      case MapTag =>
        if !item.IArr? then Some(MapV([])) else
        (match ReadPairs(p, item.items, path, types)
         case Some(pairs) => Some(MapV(MapFrom(pairs)))
         case None => None)
      case SetTag =>
        if !item.IArr? then Some(SetV([])) else
        (match ReadAll(p, item.items, path, types)
         case Some(values) => Some(SetV(SetFrom(values)))
         case None => None)
      case Other(text) => Some(Str(text))
      case Inherited => Some(Func)
    else
      match item
      case INull => Some(Undefined)
      case IBool(b) => Some(Bool(b))
      case INum(n) => Some(Num(n))
      case IStr(s) => Some(Str(s))
      case IArr(items) =>
        (match ReadAll(p, items, path, types)
         case Some(values) => Some(Arr(values))
         case None => None)
      case IObj(props) =>
        (match ReadProps(p, props, path, types)
         case Some(ps) => Some(Obj(ps))
         case None => None)
  }

  function ReadAll(p: Platform, items: seq<Item>, path: string, types: Types): (r: Option<seq<Value>>)
    ensures r.Some? ==> |r.value| == |items|
    decreases items, 0
  {
    if items == [] then Some([])
    else
      var n := |items| - 1;
      Append(ReadAll(p, items[..n], path, types), Read(p, items[n], Join(path, Decimal(n)), types))
  }

  function ReadPair(p: Platform, pair: Item, path: string, types: Types): Option<Entry>
    decreases pair, 0
  {
    if !pair.IArr? then Some(Entry(Undefined, Undefined))
    else
      var k := if |pair.items| > 0 then Read(p, pair.items[0], Join(path, Decimal(0)), types) else Some(Undefined);
      var v := if |pair.items| > 1 then Read(p, pair.items[1], Join(path, Decimal(1)), types) else Some(Undefined);
      match (k, v)
      case (Some(key), Some(value)) => Some(Entry(key, value))
      case _ => None
  }

  function ReadPairs(p: Platform, pairs: seq<Item>, path: string, types: Types): (r: Option<seq<Entry>>)
    ensures r.Some? ==> |r.value| == |pairs|
    decreases pairs, 0
  {
    if pairs == [] then Some([])
    else
      var n := |pairs| - 1;
      Append(ReadPairs(p, pairs[..n], path, types), ReadPair(p, pairs[n], Join(path, Decimal(n)), types))
  }

  function ReadProp(p: Platform, prop: IProp, path: string, types: Types): Option<Prop>
    decreases prop, 0
  {
    match Read(p, prop.value, Join(path, prop.key), types)
    case Some(v) => Some(Prop(prop.key, v))
    case None => None
  }

  function ReadProps(p: Platform, props: seq<IProp>, path: string, types: Types): (r: Option<seq<Prop>>)
    ensures r.Some? ==> |r.value| == |props|
    decreases props, 0
  {
    if props == [] then Some([])
    else
      var n := |props| - 1;
      Append(ReadProps(p, props[..n], path, types), ReadProp(p, props[n], path, types))
  }

  /** A stored `__types` attribute counts only when it is a record of strings. */
  function TypesOf(content: Content): Types {
    match content
    case TypeTable(types) => types
    case Data(item) =>
      if item.IObj? && (forall i :: 0 <= i < |item.props| ==> item.props[i].value.IStr?) then StringRecord(item.props)
        else map[]
  }

  function StringRecord(props: seq<IProp>): Types
    requires forall i :: 0 <= i < |props| ==> props[i].value.IStr?
  {
    if props == [] then map[]
    else StringRecord(props[..|props| - 1])[props[|props| - 1].key := TagOf(props[|props| - 1].value.s)]
  }

  function RawTypes(item: seq<Attribute>): Types {
    if item == [] then map[]
    else if item[|item| - 1].name == TYPES_ATTRIBUTE then TypesOf(item[|item| - 1].content)
    else RawTypes(item[..|item| - 1])
  }

  function Attributes(item: seq<Attribute>): seq<IProp> {
    if item == [] then []
    else
      var last := item[|item| - 1];
      var before := Attributes(item[..|item| - 1]);
      if last.name == TYPES_ATTRIBUTE || !last.content.Data? then before
        else before + [IProp(last.name, last.content.item)]
  }

  /** What looking up a path in the table finds: its own entries, and behind them what every object inherits. */
  function Seen(p: Platform, types: Types): Types {
    map path | path in types.Keys + p.inherited :: if path in types then types[path] else Inherited
  }

  function Deserialize(p: Platform, item: seq<Attribute>): Option<seq<Prop>> {
    ReadProps(p, Attributes(item), "", Seen(p, RawTypes(item)))
  }
}
