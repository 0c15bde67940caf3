/**
 * `deepClone` of the in-memory database: a copy of an arbitrary object graph, cycles included. JavaScript memory is an
 * explicit heap of cells; `seen` maps every array, map, set and object already entered to its copy.
 */
module DeepClone {
  import opened Common

  type Addr = nat

  /** A JavaScript value: a primitive, passed on as it is, or a reference. Equality is `SameValueZero`. */
  datatype Val = Prim(id: int) | Ref(addr: Addr)

  /** What a node is; maps, sets and objects also have a prototype. */
  datatype Kind = DateKind(time: int) | ArrayKind | MapKind(proto: nat) | SetKind(proto: nat) | ObjectKind(proto: nat)

  /**
   * One element of a container: an array item is a value, a map entry a key and a value, a set element a key, an object
   * property a name and a value. Parts a kind does not use are "" and `Prim(0)`.
   */
  datatype Element = Element(name: string, key: Val, value: Val)

  datatype Cell = Cell(kind: Kind, elements: seq<Element>)

  type Heap = map<Addr, Cell>

  /** One part of element `i` of a cell. */
  datatype Step = KeyOf(i: nat) | ValueOf(i: nat)

  /** Where a value stands: at the root, or in a part of a cell. */
  datatype Slot = Root | Slot(cell: Addr, part: Step)

  /**
   * The heap, the copies recorded so far with their inverse `origin`, the slot each copied date was made for, and the
   * next free address.
   */
  datatype Memory = Memory(heap: Heap, seen: map<Addr, Addr>, origin: map<Addr, Addr>, place: map<Addr, Slot>,
      next: Addr)

  predicate SamePlace(kind: Kind, e: Element, f: Element) {
    match kind
    case MapKind(_) => e.key == f.key
    case SetKind(_) => e.key == f.key
    case ObjectKind(_) => e.name == f.name
    case _ => false
  }

  /** `push`, `map.set`, `set.add` and property assignment: an element whose place is taken replaces the value there. */
  function Add(kind: Kind, elements: seq<Element>, e: Element): seq<Element> {
    if exists i :: 0 <= i < |elements| && SamePlace(kind, elements[i], e) then
      seq(|elements|, i requires 0 <= i < |elements| =>
        if SamePlace(kind, elements[i], e) then elements[i].(value := e.value) else elements[i])
    else elements + [e]
  }

  /** The memory after adding `e` to the cell at `c`. */
  function WithElement(m: Memory, c: Addr, e: Element): Memory
    requires c in m.heap
  {
    m.(heap := m.heap[c := Cell(m.heap[c].kind, Add(m.heap[c].kind, m.heap[c].elements, e))])
  }

  // ---------------------------------------------------------------- legal graphs

  predicate InHeap(heap: Heap, v: Val) { v.Ref? ==> v.addr in heap }

  ghost predicate LegalCell(source: Heap, c: Cell) {
    && (forall i :: 0 <= i < |c.elements| ==> InHeap(source, c.elements[i].key) && InHeap(source, c.elements[i].value))
    && (forall i, j :: 0 <= i < j < |c.elements| ==> !SamePlace(c.kind, c.elements[i], c.elements[j]))
    && (c.kind.DateKind? ==> c.elements == [])
  }

  /** References stay inside, and maps, sets and objects hold each key once. */
  ghost predicate Legal(source: Heap) {
    forall a :: a in source ==> LegalCell(source, source[a])
  }

  predicate IsDate(source: Heap, v: Val) {
    v.Ref? && v.addr in source && source[v.addr].kind.DateKind?
  }

  // ---------------------------------------------------------------- the relation between a graph and its copy

  /**
   * `w`, standing in `slot`, is the copy of `v`: the same primitive, the recorded copy, or a date of the same time made
   * for this slot.
   */
  ghost predicate Related(source: Heap, m: Memory, v: Val, w: Val, slot: Slot) {
    match v
    case Prim(_) => w == v
    case Ref(a) =>
      && w.Ref?
      && a in source
      && w.addr in m.heap && w.addr !in source
      && if source[a].kind.DateKind? then m.heap[w.addr] == source[a] && w.addr in m.place && m.place[w.addr] == slot
         else a in m.seen && m.seen[a] == w.addr
  }

  /** `f`, element `i` of the cell at `c`, is the copy of `e`. */
  ghost predicate RelatedElement(source: Heap, m: Memory, e: Element, f: Element, c: Addr, i: nat) {
    && f.name == e.name
    && Related(source, m, e.key, f.key, Slot(c, KeyOf(i)))
    && Related(source, m, e.value, f.value, Slot(c, ValueOf(i)))
  }

  /** `d`, the cell at `at`, is the copy of the first `n` elements of `c`. */
  ghost predicate CopiedUpTo(source: Heap, m: Memory, c: Cell, d: Cell, at: Addr, n: nat) {
    && d.kind == c.kind
    && |d.elements| == n <= |c.elements|
    && (forall i :: 0 <= i < n ==> RelatedElement(source, m, c.elements[i], d.elements[i], at, i))
  }

  /** The copy of node `a` is complete. */
  ghost predicate Finished(source: Heap, m: Memory, a: Addr) {
    && a in source && a in m.seen && m.seen[a] in m.heap
    && CopiedUpTo(source, m, source[a], m.heap[m.seen[a]], m.seen[a], |source[a].elements|)
  }

  /** The source is untouched; recorded copies are new cells, one per node, of the node's kind. */
  ghost predicate Valid(source: Heap, m: Memory) {
    && (forall a :: a in source ==> a in m.heap && m.heap[a] == source[a])
    && (forall a :: a in m.heap ==> a < m.next)
    && (forall d :: d in m.place ==> d in m.heap)
    && (forall a :: a in m.seen ==>
      && a in source && !source[a].kind.DateKind?
      && m.seen[a] in m.heap && m.seen[a] !in source && m.heap[m.seen[a]].kind == source[a].kind
      && m.seen[a] in m.origin && m.origin[m.seen[a]] == a)
  }

  /** Nothing that existed changed. */
  ghost predicate Kept(m: Memory, m': Memory) {
    && (forall a :: a in m.heap ==> a in m'.heap && m'.heap[a] == m.heap[a])
    && (forall a :: a in m.seen ==> a in m'.seen && m'.seen[a] == m.seen[a])
    && (forall d :: d in m.place ==> d in m'.place && m'.place[d] == m.place[d])
  }

  /** From `m` to `m'` nothing that existed changed, and every node entered in between is finished. */
  ghost predicate Grown(source: Heap, m: Memory, m': Memory) {
    && Valid(source, m')
    && Kept(m, m')
    && forall a :: a in m'.seen && a !in m.seen ==> Finished(source, m', a)
  }

  /** The same, while node `a` is being copied into the new cell `c`, of which `n` elements are there. */
  ghost predicate Copying(source: Heap, m: Memory, m': Memory, a: Addr, c: Addr, n: nat) {
    && Valid(source, m')
    && Kept(m, m')
    && a in source && a !in m.seen && a in m'.seen && m'.seen[a] == c && c !in m.heap
    && CopiedUpTo(source, m', source[a], m'.heap[c], c, n)
    && forall b :: b in m'.seen && b !in m.seen && b != a ==> Finished(source, m', b)
  }

  lemma CopiedKept(source: Heap, m: Memory, m': Memory, c: Cell, d: Cell, at: Addr, n: nat)
    requires Kept(m, m') && CopiedUpTo(source, m, c, d, at, n)
    ensures CopiedUpTo(source, m', c, d, at, n)
  {
  }

  lemma RelatedKept(source: Heap, m: Memory, m': Memory, v: Val, w: Val, slot: Slot)
    requires Kept(m, m') && Related(source, m, v, w, slot)
    ensures Related(source, m', v, w, slot)
  {
  }

  /** Work below the node being copied keeps the partial copy and finishes what it enters. */
  lemma CopyingGrows(source: Heap, m: Memory, m1: Memory, m2: Memory, a: Addr, c: Addr, n: nat)
    requires Copying(source, m, m1, a, c, n) && Grown(source, m1, m2)
    ensures Copying(source, m, m2, a, c, n) && m2.heap[c] == m1.heap[c]
  {
    CopiedKept(source, m1, m2, source[a], m1.heap[c], c, n);
    forall b | b in m2.seen && b !in m.seen && b != a ensures Finished(source, m2, b) {
      if b in m1.seen { CopiedKept(source, m1, m2, source[b], m1.heap[m1.seen[b]], m1.seen[b], |source[b].elements|); }
    }
  }

  /** Overwriting a cell that is no date does not disturb the relation. */
  lemma RelatedOverwrite(source: Heap, m: Memory, over: Addr, new': Cell, v: Val, w: Val, slot: Slot)
    requires over in m.heap && !m.heap[over].kind.DateKind?
    requires Related(source, m, v, w, slot)
    ensures Related(source, m.(heap := m.heap[over := new']), v, w, slot)
  {
  }

  lemma CopiedOverwrite(source: Heap, m: Memory, over: Addr, new': Cell, c: Cell, d: Cell, at: Addr, n: nat)
    requires over in m.heap && !m.heap[over].kind.DateKind?
    requires CopiedUpTo(source, m, c, d, at, n)
    ensures CopiedUpTo(source, m.(heap := m.heap[over := new']), c, d, at, n)
  {
    forall i | 0 <= i < n ensures RelatedElement(source, m.(heap := m.heap[over := new']), c.elements[i], d.elements[i],
      at, i) {
      assert RelatedElement(source, m, c.elements[i], d.elements[i], at, i);
      RelatedOverwrite(source, m, over, new', c.elements[i].key, d.elements[i].key, Slot(at, KeyOf(i)));
      RelatedOverwrite(source, m, over, new', c.elements[i].value, d.elements[i].value, Slot(at, ValueOf(i)));
    }
  }

  lemma CopiedExtends(source: Heap, m: Memory, c: Cell, d: Cell, at: Addr, n: nat, e: Element)
    requires CopiedUpTo(source, m, c, d, at, n) && n < |c.elements| &&
      RelatedElement(source, m, c.elements[n], e, at, n)
    ensures CopiedUpTo(source, m, c, Cell(d.kind, d.elements + [e]), at, n + 1)
  {
  }

  /** A finished node is not the one being written. */
  lemma FinishedOverwrite(source: Heap, m: Memory, over: Addr, new': Cell, b: Addr)
    requires Valid(source, m) && Finished(source, m, b) && m.seen[b] != over
    requires over in m.heap && !m.heap[over].kind.DateKind?
    ensures Finished(source, m.(heap := m.heap[over := new']), b)
  {
    CopiedOverwrite(source, m, over, new', source[b], m.heap[m.seen[b]], m.seen[b], |source[b].elements|);
  }

  lemma ValidOverwrite(source: Heap, m: Memory, over: Addr, new': Cell)
    requires Valid(source, m) && over in m.heap && over !in source && new'.kind == m.heap[over].kind
    ensures Valid(source, m.(heap := m.heap[over := new']))
  {
  }

  /** Writing one more element into the partial copy touches nothing else. */
  lemma CopyingAdvances(source: Heap, m: Memory, m1: Memory, a: Addr, c: Addr, n: nat, e: Element)
    requires Copying(source, m, m1, a, c, n) && n < |source[a].elements|
    requires RelatedElement(source, m1, source[a].elements[n], e, c, n)
    ensures Copying(source, m, m1.(heap := m1.heap[c := Cell(m1.heap[c].kind, m1.heap[c].elements + [e])]), a, c, n + 1)
  {
    var d := Cell(m1.heap[c].kind, m1.heap[c].elements + [e]);
    var m2 := m1.(heap := m1.heap[c := d]);
    ValidOverwrite(source, m1, c, d);
    CopiedExtends(source, m1, source[a], m1.heap[c], c, n, e);
    CopiedOverwrite(source, m1, c, d, source[a], d, c, n + 1);
    OthersFinished(source, m, m1, a, c, d);
  }

  lemma OthersFinished(source: Heap, m: Memory, m1: Memory, a: Addr, c: Addr, d: Cell)
    requires Valid(source, m1) && a in m1.seen && m1.seen[a] == c && c in m1.heap && !m1.heap[c].kind.DateKind?
    requires forall b :: b in m1.seen && b !in m.seen && b != a ==> Finished(source, m1, b)
    ensures forall b :: b in m1.seen && b !in m.seen && b != a ==> Finished(source, m1.(heap := m1.heap[c := d]), b)
  {
    forall b | b in m1.seen && b !in m.seen && b != a ensures Finished(source, m1.(heap := m1.heap[c := d]), b) {
      FinishedOverwrite(source, m1, c, d, b);
    }
  }

  /** The memory after recording a new, empty copy of node `a`. */
  function Entered(m: Memory, a: Addr, kind: Kind): Memory {
    Memory(m.heap[m.next := Cell(kind, [])], m.seen[a := m.next], m.origin[m.next := a], m.place, m.next + 1)
  }

  /** The memory after copying a date for a slot. */
  function DateAdded(m: Memory, date: Cell, slot: Slot): Memory {
    Memory(m.heap[m.next := date], m.seen, m.origin, m.place[m.next := slot], m.next + 1)
  }

  lemma CopyingStarts(source: Heap, m: Memory, a: Addr)
    requires Valid(source, m) && a in source && a !in m.seen && !source[a].kind.DateKind?
    ensures Copying(source, m, Entered(m, a, source[a].kind), a, m.next, 0)
  {
  }

  lemma CopyingEnds(source: Heap, m: Memory, m': Memory, a: Addr, c: Addr, slot: Slot)
    requires a in source && !source[a].kind.DateKind? && Copying(source, m, m', a, c, |source[a].elements|)
    ensures Grown(source, m, m') && Related(source, m', Ref(a), Ref(c), slot)
  {
  }

  /** A date gets a copy of its own for every slot it stands in. */
  lemma DateCopied(source: Heap, m: Memory, a: Addr, slot: Slot)
    requires Valid(source, m) && a in source && source[a].kind.DateKind?
    ensures var m' := DateAdded(m, source[a], slot);
      Grown(source, m, m') && Related(source, m', Ref(a), Ref(m.next), slot)
  {
  }

  /** Copies of different values in different slots differ. */
  lemma CopiesDiffer(source: Heap, m: Memory, v: Val, w: Val, slot: Slot, v': Val, w': Val, slot': Slot)
    requires Valid(source, m) && v != v' && slot != slot'
    requires Related(source, m, v, w, slot) && Related(source, m, v', w', slot')
    ensures w != w'
  {
  }

  /** So a copied element never meets an earlier one in its place: it is appended. */
  lemma NewPlace(source: Heap, before: Memory, m: Memory, a: Addr, c: Addr, i: nat, e: Element)
    requires Legal(source) && Copying(source, before, m, a, c, i)
    requires i < |source[a].elements|
    requires Related(source, m, source[a].elements[i].key, e.key, Slot(c, KeyOf(i))) &&
      e.name == source[a].elements[i].name
    ensures Add(source[a].kind, m.heap[c].elements, e) == m.heap[c].elements + [e]
  {
    var copied := m.heap[c].elements;
    assert LegalCell(source, source[a]);
    forall j | 0 <= j < i ensures !SamePlace(source[a].kind, copied[j], e) {
      var earlier, current := source[a].elements[j], source[a].elements[i];
      assert RelatedElement(source, m, earlier, copied[j], c, j) && !SamePlace(source[a].kind, earlier, current);
      if earlier.key != current.key {
        CopiesDiffer(source, m, earlier.key, copied[j].key, Slot(c, KeyOf(j)), current.key, e.key, Slot(c, KeyOf(i)));
      }
    }
  }

  lemma ElementInHeap(source: Heap, a: Addr, i: nat)
    requires Legal(source) && a in source && i < |source[a].elements|
    ensures InHeap(source, source[a].elements[i].key) && InHeap(source, source[a].elements[i].value)
  {
  }

  /** Copying key and value of element `i` and adding them to the copy is one step of the loop. */
  lemma CopyStep(source: Heap, before: Memory, m0: Memory, m1: Memory, m2: Memory, a: Addr, c: Addr, i: nat, key: Val,
      value: Val)
    requires Legal(source) && Copying(source, before, m0, a, c, i) && Grown(source, m0, m1) && Grown(source, m1, m2)
    requires i < |source[a].elements|
    requires Related(source, m1, source[a].elements[i].key, key, Slot(c, KeyOf(i)))
    requires Related(source, m2, source[a].elements[i].value, value, Slot(c, ValueOf(i)))
    ensures c in m2.heap
    ensures Copying(source, before, WithElement(m2, c, Element(source[a].elements[i].name, key, value)), a, c, i + 1)
  {
    var e := Element(source[a].elements[i].name, key, value);
    CopyingGrows(source, before, m0, m1, a, c, i);
    CopyingGrows(source, before, m1, m2, a, c, i);
    RelatedKept(source, m1, m2, source[a].elements[i].key, key, Slot(c, KeyOf(i)));
    NewPlace(source, before, m2, a, c, i, e);
    CopyingAdvances(source, before, m2, a, c, i, e);
  }

  /** The termination measure: source nodes not yet entered. */
  lemma FewerUnseen(source: Heap, m: Memory, m': Memory)
    requires Kept(m, m')
    ensures source.Keys - m'.seen.Keys <= source.Keys - m.seen.Keys
  {
  }

  class Cloner {
    ghost const source: Heap
    var heap: Heap
    var seen: map<Addr, Addr>
    ghost var origin: map<Addr, Addr>
    ghost var place: map<Addr, Slot>
    var next: Addr

    ghost function Now(): Memory
      reads this
    {
      Memory(heap, seen, origin, place, next)
    }

    /** An empty `seen` on a heap whose addresses lie below `next`. */
    constructor (heap: Heap, next: Addr)
      requires Legal(heap) && forall a :: a in heap ==> a < next
      ensures source == heap && Now() == Memory(heap, map[], map[], map[], next) && Valid(source, Now())
    {
      this.source := heap;
      this.heap := heap;
      this.seen := map[];
      this.origin := map[];
      this.place := map[];
      this.next := next;
    }

    /** `slot` is where the caller will put the copy. */
    method DeepClone(v: Val, ghost slot: Slot) returns (w: Val)
      requires Legal(source) && Valid(source, Now()) && InHeap(source, v)
      modifies this
      ensures Grown(source, old(Now()), Now()) && Related(source, Now(), v, w, slot)
      decreases source.Keys - seen.Keys, 1
    {
      if v.Prim? { return v; }
      if v.addr in seen { return Ref(seen[v.addr]); }
      var cell := heap[v.addr];
      if cell.kind.DateKind? {
        DateCopied(source, Now(), v.addr, slot);
        w := CopyDate(cell, slot);
      } else {
        w := CloneContainer(v.addr, cell, slot);
      }
    }

    /** The branches for arrays, maps, sets and objects: record the empty copy, then copy element after element. */
    method CloneContainer(a: Addr, cell: Cell, ghost slot: Slot) returns (w: Val)
      requires Legal(source) && Valid(source, Now()) && a in source && a !in seen && source[a] == cell &&
        !cell.kind.DateKind?
      modifies this
      ensures Grown(source, old(Now()), Now()) && Related(source, Now(), Ref(a), w, slot)
      decreases source.Keys - seen.Keys, 0
    {
      ghost var before := Now();
      CopyingStarts(source, Now(), a);
      var c := Enter(a, cell.kind);
      for i := 0 to |cell.elements|
        invariant Copying(source, before, Now(), a, c, i)
      {
        AddCopy(before, a, c, i, cell.elements[i]);
      }
      CopyingEnds(source, before, Now(), a, c, slot);
      w := Ref(c);
    }

    /** `new Date(value.getTime())`. */
    method CopyDate(cell: Cell, ghost slot: Slot) returns (w: Val)
      modifies this
      ensures Now() == DateAdded(old(Now()), cell, slot) && w == Ref(old(next))
    {
      heap, place := heap[next := cell], place[next := slot];
      w := Ref(next);
      next := next + 1;
    }

    /** `seen.set(value, copy)` with a new, empty copy. */
    method Enter(a: Addr, kind: Kind) returns (c: Addr)
      modifies this
      ensures Now() == Entered(old(Now()), a, kind) && c == old(next)
    {
      c := next;
      heap, seen, origin, next := heap[c := Cell(kind, [])], seen[a := c], origin[c := a], next + 1;
    }

    method AddCopy(ghost before: Memory, a: Addr, c: Addr, i: nat, e: Element)
      requires Legal(source) && Copying(source, before, Now(), a, c, i)
      requires i < |source[a].elements| && e == source[a].elements[i]
      modifies this
      ensures Copying(source, before, Now(), a, c, i + 1)
      decreases source.Keys - seen.Keys, 3
    {
      ghost var m0 := Now();
      ElementInHeap(source, a, i);
      var key, value, m1 := ClonePair(e, c, i);
      CopyStep(source, before, m0, m1, Now(), a, c, i, key, value);
      Put(c, Element(e.name, key, value));
    }

    /** Key first, then value, both for element `i` of the cell at `c`; `between` is the memory after the key. */
    method ClonePair(e: Element, ghost c: Addr, ghost i: nat) returns (key: Val, value: Val, ghost between: Memory)
      requires Legal(source) && Valid(source, Now()) && InHeap(source, e.key) && InHeap(source, e.value)
      modifies this
      ensures Grown(source, old(Now()), between) && Grown(source, between, Now())
      ensures Related(source, between, e.key, key, Slot(c, KeyOf(i))) &&
        Related(source, Now(), e.value, value, Slot(c, ValueOf(i)))
      decreases source.Keys - seen.Keys, 2
    {
      key := DeepClone(e.key, Slot(c, KeyOf(i)));
      between := Now();
      FewerUnseen(source, old(Now()), between);
      value := DeepClone(e.value, Slot(c, ValueOf(i)));
    }

    /** `push`, `set`, `add` or property assignment on the cell at `c`. */
    method Put(c: Addr, e: Element)
      requires c in heap
      modifies this`heap
      ensures Now() == WithElement(old(Now()), c, e)
    {
      heap := heap[c := Cell(heap[c].kind, Add(heap[c].kind, heap[c].elements, e))];
    }
  }

  // ---------------------------------------------------------------- what the copy looks like from outside

  /** The value an access path leads to: at each step a node's element and whether its key or its value is taken. */
  function Follow(heap: Heap, v: Val, path: seq<Step>): Option<Val> {
    if path == [] then Some(v)
    else
      var at := Follow(heap, v, path[..|path| - 1]);
      var step := path[|path| - 1];
      if at.None? || at.value.Prim? || at.value.addr !in heap || step.i >= |heap[at.value.addr].elements| then None
      else
        var e := heap[at.value.addr].elements[step.i];
        Some(if step.KeyOf? then e.key else e.value)
  }

  /** Where the value a path leads to stands. */
  function SlotAt(heap: Heap, v: Val, path: seq<Step>): Slot {
    if path == [] then Root
    else
      var at := Follow(heap, v, path[..|path| - 1]);
      if at.Some? && at.value.Ref? then Slot(at.value.addr, path[|path| - 1]) else Root
  }

  /** A finished clone: what one top-level `deepClone` with an empty `seen` leaves behind. */
  ghost predicate Cloned(source: Heap, m: Memory, v: Val, w: Val) {
    && Legal(source) && InHeap(source, v)
    && Valid(source, m)
    && (forall a :: a in m.seen ==> Finished(source, m, a))
    && Related(source, m, v, w, Root)
  }

  /**
   * `serialize` and `deserialize` of the in-memory serializer: a clone with nothing seen yet. The source stays as it
   * was.
   */
  method Clone(heap: Heap, next: Addr, v: Val) returns (w: Val, copies: Cloner)
    requires Legal(heap) && InHeap(heap, v) && forall a :: a in heap ==> a < next
    ensures copies.source == heap && Cloned(heap, copies.Now(), v, w)
    ensures forall a :: a in heap ==> a in copies.heap && copies.heap[a] == heap[a]
  {
    copies := new Cloner(heap, next);
    w := copies.DeepClone(v, Root);
  }

  /** Bisimilarity: every access path leads to related values on both sides, or to nothing on both sides. */
  lemma {:induction false} PathsCorrespond(source: Heap, m: Memory, v: Val, w: Val, path: seq<Step>)
    requires Cloned(source, m, v, w)
    ensures var x, y := Follow(source, v, path), Follow(m.heap, w, path);
      x.Some? == y.Some? && (x.Some? ==>
        InHeap(source, x.value) && Related(source, m, x.value, y.value, SlotAt(m.heap, w, path)))
  {
    if path != [] {
      var init := path[..|path| - 1];
      PathsCorrespond(source, m, v, w, init);
      var x := Follow(source, v, init);
      if x.Some? && x.value.Ref? {
        PartsCorrespond(source, m, v, w, x.value.addr, Follow(m.heap, w, init).value.addr, SlotAt(m.heap, w, init),
          path[|path| - 1]);
      }
    }
  }

  /** Related nodes have as many elements, and related parts. */
  lemma PartsCorrespond(source: Heap, m: Memory, v: Val, w: Val, a: Addr, c: Addr, slot: Slot, s: Step)
    requires Cloned(source, m, v, w) && Related(source, m, Ref(a), Ref(c), slot)
    ensures |m.heap[c].elements| == |source[a].elements|
    ensures s.i < |source[a].elements| ==>
      var e, f := source[a].elements[s.i], m.heap[c].elements[s.i];
      var x, y := if s.KeyOf? then e.key else e.value, if s.KeyOf? then f.key else f.value;
      InHeap(source, x) && Related(source, m, x, y, Slot(c, s))
  {
    assert LegalCell(source, source[a]);
    if !source[a].kind.DateKind? {
      assert Finished(source, m, a);
      if s.i < |source[a].elements| {
        assert RelatedElement(source, m, source[a].elements[s.i], m.heap[c].elements[s.i], c, s.i);
      }
    }
  }

  /** The node a path leads to has the same kind, prototype, date value, size and property names as its original. */
  lemma NodesCorrespond(source: Heap, m: Memory, v: Val, w: Val, path: seq<Step>)
    requires Cloned(source, m, v, w)
    ensures var x, y := Follow(source, v, path), Follow(m.heap, w, path);
      && (x.Some? && x.value.Prim? ==> y == x)
      && (x.Some? && x.value.Ref? ==>
        && y.Some? && y.value.Ref? && y.value.addr in m.heap
        && var c, d := source[x.value.addr], m.heap[y.value.addr];
          d.kind == c.kind && |d.elements| == |c.elements| && forall i ::
            0 <= i < |c.elements| ==> d.elements[i].name == c.elements[i].name)
  {
    PathsCorrespond(source, m, v, w, path);
    var x := Follow(source, v, path);
    if x.Some? && x.value.Ref? && !IsDate(source, x.value) {
      var a := x.value.addr;
      assert Finished(source, m, a);
      forall i | 0 <= i < |source[a].elements|
        ensures m.heap[m.seen[a]].elements[i].name == source[a].elements[i].name {
        assert RelatedElement(source, m, source[a].elements[i], m.heap[m.seen[a]].elements[i], m.seen[a], i);
      }
    }
  }

  /** No node of the source can be reached from the clone. */
  lemma CloneIsSeparate(source: Heap, m: Memory, v: Val, w: Val, path: seq<Step>)
    requires Cloned(source, m, v, w)
    ensures var y := Follow(m.heap, w, path); y.Some? && y.value.Ref? ==> y.value.addr !in source
  {
    PathsCorrespond(source, m, v, w, path);
  }

  /**
   * Sharing and cycles are kept for everything but dates: two paths meet in the clone exactly if they meet in the
   * source.
   */
  lemma SharingKept(source: Heap, m: Memory, v: Val, w: Val, p: seq<Step>, q: seq<Step>)
    requires Cloned(source, m, v, w)
    requires Follow(source, v, p).Some? && Follow(source, v, q).Some?
    requires !IsDate(source, Follow(source, v, p).value) && !IsDate(source, Follow(source, v, q).value)
    ensures Follow(source, v, p) == Follow(source, v, q) <==> Follow(m.heap, w, p) == Follow(m.heap, w, q)
  {
    PathsCorrespond(source, m, v, w, p);
    PathsCorrespond(source, m, v, w, q);
  }

  lemma DateHasParent(source: Heap, m: Memory, v: Val, w: Val, path: seq<Step>, s: Step)
    requires Cloned(source, m, v, w)
    requires Follow(source, v, path + [s]).Some?
    ensures var x, y := Follow(source, v, path), Follow(m.heap, w, path);
      && x.Some? && x.value.Ref? && x.value.addr in source && !IsDate(source, x.value)
      && y.Some? && y.value.Ref? && y.value.addr in m.heap && x.value.addr in m.seen &&
        m.seen[x.value.addr] == y.value.addr
      && SlotAt(m.heap, w, path + [s]) == Slot(y.value.addr, s)
  {
    assert (path + [s])[..|path|] == path;
    PathsCorrespond(source, m, v, w, path);
    var a := Follow(source, v, path).value.addr;
    assert LegalCell(source, source[a]);
  }

  /**
   * The sharing of dates is always lost: two paths that meet at a date meet in the clone if and only if they go through
   * the same part of the same node.
   */
  lemma DateSharingLost(source: Heap, m: Memory, v: Val, w: Val, p: seq<Step>, s: Step, q: seq<Step>, t: Step)
    requires Cloned(source, m, v, w)
    requires var x := Follow(source, v, p + [s]);
      x.Some? && IsDate(source, x.value) && Follow(source, v, q + [t]) == x
    ensures Follow(m.heap, w, p + [s]) == Follow(m.heap, w, q + [t]) <==>
      Follow(source, v, p) == Follow(source, v, q) && s == t
  {
    PathsCorrespond(source, m, v, w, p + [s]);
    PathsCorrespond(source, m, v, w, q + [t]);
    DateHasParent(source, m, v, w, p, s);
    DateHasParent(source, m, v, w, q, t);
    assert (p + [s])[..|p|] == p && (q + [t])[..|q|] == q;
  }
}
