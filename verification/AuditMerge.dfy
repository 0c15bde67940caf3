/**
 * Merging the entity changes of an audit log: several updates of one entity become one change, in place in the list.
 * Property values and names are opaque here; names are only compared.
 */
module AuditMerge {
  import opened Common

  type Name = nat

  datatype Prop = Prop(name: Name, original: Option<int>, newValue: Option<int>, typeName: string)

  datatype ChangeType = Created | Updated | Deleted

  /** The text updates are grouped by. */
  datatype GroupKey = GroupKey(text: string)

  function KeyOf(typeName: Option<string>, id: Option<string>): GroupKey {
    GroupKey((if typeName.Some? then typeName.value else "") + "|" + (if id.Some? then id.value else ""))
  }

  /** A change as a value. */
  datatype Change = Change(kind: ChangeType, key: GroupKey, time: int, props: seq<Prop>)

  // ---------------------------------------------------------------- merging property changes

  function IndexOf(props: seq<Prop>, name: Name): (i: int)
    ensures -1 <= i < |props|
    ensures i >= 0 ==> props[i].name == name
  {
    if props == [] then -1
    else
      var i := IndexOf(props[..|props| - 1], name);
      if i >= 0 then i else if props[|props| - 1].name == name then |props| - 1 else -1
  }

  /** A property already listed gets the new value; otherwise the property change is added. */
  function MergedOne(props: seq<Prop>, p: Prop): seq<Prop> {
    var i := IndexOf(props, p.name);
    if i >= 0 then props[i := props[i].(newValue := p.newValue)] else props + [p]
  }

  function MergedProps(props: seq<Prop>, others: seq<Prop>): seq<Prop> {
    if others == [] then props else MergedOne(MergedProps(props, others[..|others| - 1]), others[|others| - 1])
  }

  /** The property changes of a group: the first change's, with the others merged in one by one. */
  function GroupProps(group: seq<Change>): seq<Prop> {
    if group == [] then []
    else if |group| == 1 then group[0].props
    else MergedProps(GroupProps(group[..|group| - 1]), group[|group| - 1].props)
  }

  // ---------------------------------------------------------------- merging changes

  function InGroup(key: GroupKey): Change -> bool { (c: Change) => c.kind.Updated? && c.key == key }

  /** One of the first `n` changes is an update of this entity. */
  predicate HasUpdate(changes: seq<Change>, n: nat, key: GroupKey)
    requires n <= |changes|
  {
    n > 0 && (InGroup(key)(changes[n - 1]) || HasUpdate(changes, n - 1, key))
  }

  lemma {:induction false} HasUpdateIff(changes: seq<Change>, n: nat, key: GroupKey)
    requires n <= |changes|
    ensures HasUpdate(changes, n, key) <==> Filter(changes[..n], InGroup(key)) != []
  {
    if n > 0 {
      HasUpdateIff(changes, n - 1, key);
      FilterPrefix(changes, InGroup(key), n - 1);
    }
  }

  /** A change stays if it is no update, or the first update of its entity. */
  predicate Stays(changes: seq<Change>, i: nat)
    requires i < |changes|
  {
    !changes[i].kind.Updated? || !HasUpdate(changes, i, changes[i].key)
  }

  function MergedChange(changes: seq<Change>, i: nat): Change
    requires i < |changes|
  {
    if changes[i].kind.Updated? then changes[i].(props := GroupProps(Filter(changes, InGroup(changes[i].key))))
      else changes[i]
  }

  function MergedUpTo(changes: seq<Change>, n: nat): seq<Change>
    requires n <= |changes|
  {
    if n == 0 then []
    else if Stays(changes, n - 1) then MergedUpTo(changes, n - 1) + [MergedChange(changes, n - 1)]
    else MergedUpTo(changes, n - 1)
  }

  /** The list after merging. */
  function Merged(changes: seq<Change>): seq<Change> { MergedUpTo(changes, |changes|) }

  // ---------------------------------------------------------------- the objects

  class EntityChangeInfo {
    const changeType: ChangeType
    const key: GroupKey
    const changeTime: int
    var propertyChanges: seq<Prop>

    constructor (changeType: ChangeType, entityTypeFullName: Option<string>, entityId: Option<string>, changeTime: int,
      propertyChanges: seq<Prop>)
      ensures View() == Change(changeType, KeyOf(entityTypeFullName, entityId), changeTime, propertyChanges)
    {
      this.changeType, this.changeTime, this.propertyChanges := changeType, changeTime, propertyChanges;
      key := KeyOf(entityTypeFullName, entityId);
    }

    function View(): Change
      reads this
    {
      Change(changeType, key, changeTime, propertyChanges)
    }

    method Merge(other: EntityChangeInfo)
      modifies this
      ensures propertyChanges == MergedProps(old(propertyChanges), old(other.propertyChanges))
    {
      var others := other.propertyChanges;
      for i := 0 to |others|
        invariant propertyChanges == MergedProps(old(propertyChanges), others[..i])
      {
        assert others[..i + 1][..i] == others[..i];
        var existing := IndexOf(propertyChanges, others[i].name);
        if existing >= 0 {
          propertyChanges := propertyChanges[existing := propertyChanges[existing].(newValue := others[i].newValue)];
        } else {
          propertyChanges := propertyChanges + [others[i]];
        }
      }
      assert others[..|others|] == others;
    }
  }

  type Views = map<EntityChangeInfo, Change>

  /** The values of a list of objects, as recorded in `views`. */
  ghost function Snapshot(list: seq<EntityChangeInfo>, views: Views): (r: seq<Change>)
    requires forall i :: 0 <= i < |list| ==> list[i] in views
    ensures |r| == |list|
  {
    if list == [] then [] else Snapshot(list[..|list| - 1], views) + [views[list[|list| - 1]]]
  }

  function UpdatesOf(key: GroupKey): EntityChangeInfo -> bool {
    (c: EntityChangeInfo) => c.changeType.Updated? && c.key == key
  }

  function NotIn(removed: set<EntityChangeInfo>): EntityChangeInfo -> bool { (c: EntityChangeInfo) => c !in removed }

  function IndexOfObject(list: seq<EntityChangeInfo>, c: EntityChangeInfo): (i: int)
    ensures -1 <= i < |list|
    ensures i >= 0 ==> list[i] == c
    ensures i < 0 ==> c !in list
  {
    if list == [] then -1
    else if list[|list| - 1] == c then |list| - 1
    else IndexOfObject(list[..|list| - 1], c)
  }

  ghost predicate Distinct(list: seq<EntityChangeInfo>) {
    list == [] || (list[|list| - 1] !in list[..|list| - 1] && Distinct(list[..|list| - 1]))
  }

  function RemovedAt<T>(s: seq<T>, i: nat): seq<T>
    requires i < |s|
  {
    s[..i] + s[i + 1..]
  }

  lemma RemovedAtSnoc<T>(s: seq<T>, x: T, i: nat)
    requires i < |s|
    ensures RemovedAt(s + [x], i) == RemovedAt(s, i) + [x]
  {
  }

  lemma RemovedAtEnd<T>(s: seq<T>, x: T)
    ensures RemovedAt(s + [x], |s|) == s
  {
  }

  lemma IndexOfSnoc(list: seq<EntityChangeInfo>, x: EntityChangeInfo, c: EntityChangeInfo)
    ensures IndexOfObject(list + [x], c) == if x == c then |list| else IndexOfObject(list, c)
  {
  }

  /** Splicing one object out of a list of distinct objects. */
  lemma {:induction false} SpliceOut(list: seq<EntityChangeInfo>, removed: set<EntityChangeInfo>, c: EntityChangeInfo)
    requires Distinct(list) && c in list && c !in removed
    ensures var current := Filter(list, NotIn(removed));
      var i := IndexOfObject(current, c);
      i >= 0 && RemovedAt(current, i) == Filter(list, NotIn(removed + {c}))
  {
    var n := |list| - 1;
    var init, last := list[..n], list[n];
    assert list == init + [last];
    var before := Filter(init, NotIn(removed));
    if last == c {
      NothingToRemove(init, removed, c);
      IndexOfSnoc(before, c, c);
      RemovedAtEnd(before, c);
    } else {
      SpliceOut(init, removed, c);
      if last !in removed {
        IndexOfSnoc(before, last, c);
        RemovedAtSnoc(before, last, IndexOfObject(before, c));
      }
    }
  }

  lemma {:induction false} NothingToRemove(list: seq<EntityChangeInfo>, removed: set<EntityChangeInfo>,
      c: EntityChangeInfo)
    requires c !in list
    ensures Filter(list, NotIn(removed + {c})) == Filter(list, NotIn(removed))
  {
    if list != [] { NothingToRemove(list[..|list| - 1], removed, c); }
  }

  lemma {:induction false} DistinctAt(list: seq<EntityChangeInfo>, i: nat)
    requires Distinct(list) && i < |list|
    ensures list[i] !in list[..i]
  {
    var n := |list| - 1;
    if i < n {
      DistinctAt(list[..n], i);
      assert list[..n][..i] == list[..i];
    }
  }

  lemma {:induction false} FilterDistinct(list: seq<EntityChangeInfo>, keep: EntityChangeInfo -> bool)
    requires Distinct(list)
    ensures Distinct(Filter(list, keep))
  {
    if list != [] {
      var n := |list| - 1;
      FilterDistinct(list[..n], keep);
      FilterElements(list[..n], keep);
      var kept := Filter(list[..n], keep);
      if keep(list[n]) { assert (kept + [list[n]])[..|kept|] == kept; }
    }
  }

  lemma SnapshotSnoc(list: seq<EntityChangeInfo>, c: EntityChangeInfo, views: Views)
    requires c in views && forall i :: 0 <= i < |list| ==> list[i] in views
    ensures Snapshot(list + [c], views) == Snapshot(list, views) + [views[c]]
  {
  }

  /** The recorded values have the constant parts of their objects. */
  ghost predicate Faithful(list: seq<EntityChangeInfo>, views: Views) {
    forall i :: 0 <= i < |list| ==>
      list[i] in views && views[list[i]].kind == list[i].changeType && views[list[i]].key == list[i].key
  }

  lemma {:induction false} SnapshotAt(list: seq<EntityChangeInfo>, views: Views)
    requires forall i :: 0 <= i < |list| ==> list[i] in views
    ensures |Snapshot(list, views)| == |list| && forall i ::
      0 <= i < |list| ==> Snapshot(list, views)[i] == views[list[i]]
  {
    if list != [] { SnapshotAt(list[..|list| - 1], views); }
  }

  /** Grouping objects is grouping their values. */
  lemma {:induction false} SnapshotGroup(list: seq<EntityChangeInfo>, views: Views, key: GroupKey)
    requires Faithful(list, views)
    ensures var group := Filter(list, UpdatesOf(key));
      && (forall i :: 0 <= i < |group| ==> group[i] in views)
      && Snapshot(group, views) == Filter(Snapshot(list, views), InGroup(key))
  {
    if list != [] {
      var n := |list| - 1;
      var init, last := list[..n], list[n];
      SnapshotGroup(init, views, key);
      var values := Snapshot(init, views);
      assert (values + [views[last]])[..|values|] == values;
      if UpdatesOf(key)(last) { SnapshotSnoc(Filter(init, UpdatesOf(key)), last, views); }
    }
  }

  /** An update is the first of its group exactly if no update of the same entity comes before it. */
  lemma FirstOfGroup(list: seq<EntityChangeInfo>, i: nat)
    requires Distinct(list) && i < |list| && list[i].changeType.Updated?
    ensures var group := Filter(list, UpdatesOf(list[i].key));
      group != [] && (group[0] == list[i] <==> Filter(list[..i], UpdatesOf(list[i].key)) == [])
  {
    var p, c := UpdatesOf(list[i].key), list[i];
    var earlier, rest := Filter(list[..i], p), Filter(list[i + 1..], p);
    GroupSplits(list, i, p);
    DistinctAt(list, i);
    FilterElements(list[..i], p);
    HeadOf(earlier, c, rest);
  }

  lemma HeadOf<T>(earlier: seq<T>, c: T, rest: seq<T>)
    ensures earlier + [c] + rest != [] && (earlier + [c] + rest)[0] == if earlier == [] then c else earlier[0]
  {
  }

  lemma GroupSplits(list: seq<EntityChangeInfo>, i: nat, p: EntityChangeInfo -> bool)
    requires i < |list| && p(list[i])
    ensures Filter(list, p) == (Filter(list[..i], p) + [list[i]]) + Filter(list[i + 1..], p)
  {
    FilterConcat(list[..i + 1], list[i + 1..], p);
    assert list[..i + 1] + list[i + 1..] == list;
    FilterPrefix(list, p, i);
  }

  // ---------------------------------------------------------------- the audit log

  type Groups = map<GroupKey, seq<EntityChangeInfo>>

  ghost predicate GroupsOf(groups: Groups, list: seq<EntityChangeInfo>) {
    forall key :: Filter(list, UpdatesOf(key)) == if key in groups then groups[key] else []
  }

  method Grouped(changes: seq<EntityChangeInfo>) returns (groups: Groups)
    ensures GroupsOf(groups, changes) && forall key :: key in groups ==> groups[key] != []
  {
    groups := map[];
    for i := 0 to |changes|
      invariant GroupsOf(groups, changes[..i]) && forall key :: key in groups ==> groups[key] != []
    {
      forall key ensures Filter(changes[..i + 1], UpdatesOf(key))
        == if UpdatesOf(key)(changes[i]) then Filter(changes[..i], UpdatesOf(key)) + [changes[i]]
          else Filter(changes[..i], UpdatesOf(key))
      {
        FilterPrefix(changes, UpdatesOf(key), i);
      }
      var change := changes[i];
      if change.changeType.Updated? {
        var group := if change.key in groups then groups[change.key] else [];
        groups := groups[change.key := group + [change]];
      }
    }
    assert changes[..|changes|] == changes;
  }

  ghost function Members(list: seq<EntityChangeInfo>): set<EntityChangeInfo> { set c | c in list }

  ghost function ViewsOf(list: seq<EntityChangeInfo>): seq<Change>
    reads list
  {
    if list == [] then [] else ViewsOf(list[..|list| - 1]) + [list[|list| - 1].View()]
  }

  lemma {:induction false} ViewsAreSnapshot(list: seq<EntityChangeInfo>, views: Views)
    requires forall i :: 0 <= i < |list| ==> list[i] in views && views[list[i]] == list[i].View()
    ensures ViewsOf(list) == Snapshot(list, views)
  {
    if list != [] { ViewsAreSnapshot(list[..|list| - 1], views); }
  }

  lemma {:induction false} KeepAll(list: seq<EntityChangeInfo>)
    ensures Filter(list, NotIn({})) == list
  {
    if list != [] {
      KeepAll(list[..|list| - 1]);
      assert list[..|list| - 1] + [list[|list| - 1]] == list;
    }
  }

  predicate IsFirst(c: EntityChangeInfo, groups: Groups) {
    c.changeType.Updated? && c.key in groups && groups[c.key] != [] && groups[c.key][0] == c
  }

  /** Where one object stands: whether it is out of the list yet, and what it has become. */
  ghost predicate Settled(c: EntityChangeInfo, groups: Groups, rest: set<GroupKey>, removed: set<EntityChangeInfo>,
      before: Views)
    reads c
  {
    && c in before && before[c].kind == c.changeType && before[c].key == c.key
    && (c in removed <==> c.changeType.Updated? && c.key !in rest && !IsFirst(c, groups))
    && (c in removed || c.View() ==
        if IsFirst(c, groups) && c.key !in rest && forall i :: 0 <= i < |groups[c.key]| ==> groups[c.key][i] in before
        then before[c].(props := GroupProps(Snapshot(groups[c.key], before))) else before[c])
  }

  lemma GroupFacts(all: seq<EntityChangeInfo>, groups: Groups, key: GroupKey)
    requires Distinct(all) && GroupsOf(groups, all) && key in groups
    ensures Distinct(groups[key])
    ensures forall i :: 0 <= i < |groups[key]| ==>
      groups[key][i] in all && groups[key][i].changeType.Updated? && groups[key][i].key == key
    ensures forall c :: c in all && c.changeType.Updated? && c.key == key ==> c in groups[key]
  {
    FilterDistinct(all, UpdatesOf(key));
    FilterElements(all, UpdatesOf(key));
    assert groups[key] == Filter(all, UpdatesOf(key));
    forall c | c in all && c.changeType.Updated? && c.key == key ensures c in groups[key] {
      FilterKeeps(all, UpdatesOf(key), c);
    }
  }

  /** Before its turn, a group is untouched. */
  lemma GroupUnsettled(all: seq<EntityChangeInfo>, groups: Groups, rest: set<GroupKey>, removed: set<EntityChangeInfo>,
      before: Views, key: GroupKey)
    requires Distinct(all) && GroupsOf(groups, all) && key in groups && key in rest
    requires forall i :: 0 <= i < |all| ==> Settled(all[i], groups, rest, removed, before)
    ensures forall i :: 0 <= i < |groups[key]| ==>
      groups[key][i] in all && groups[key][i] !in removed && groups[key][i] in before &&
        before[groups[key][i]] == groups[key][i].View()
  {
    GroupFacts(all, groups, key);
    forall i | 0 <= i < |groups[key]| ensures Settled(groups[key][i], groups, rest, removed, before) {
      var j :| 0 <= j < |all| && all[j] == groups[key][i];
    }
  }

  lemma TailOfGroup(group: seq<EntityChangeInfo>, c: EntityChangeInfo)
    requires group != [] && Distinct(group)
    ensures c in Members(group[1..]) <==> c in group && c != group[0]
  {
  }

  lemma SettledAt(c: EntityChangeInfo, groups: Groups, rest: set<GroupKey>, removed: set<EntityChangeInfo>,
      before: Views, key: GroupKey)
    requires key in groups && groups[key] != [] && Distinct(groups[key]) && key in rest
    requires c.changeType.Updated? && c.key == key <==> c in groups[key]
    requires forall i :: 0 <= i < |groups[key]| ==> groups[key][i] in before && groups[key][i] !in removed
    requires c == groups[key][0] ==>
      && before[c].kind == c.changeType && before[c].key == c.key
      && c.View() == before[c].(props := GroupProps(Snapshot(groups[key], before)))
    requires c != groups[key][0] ==> Settled(c, groups, rest, removed, before)
    ensures Settled(c, groups, rest - {key}, removed + Members(groups[key][1..]), before)
  {
    TailOfGroup(groups[key], c);
  }

  /** Merging one group settles it and leaves the others as they are. */
  lemma GroupDone(all: seq<EntityChangeInfo>, groups: Groups, rest: set<GroupKey>, removed: set<EntityChangeInfo>,
      before: Views, key: GroupKey)
    requires Distinct(all) && GroupsOf(groups, all) && key in groups && groups[key] != [] && key in rest
    requires forall i :: 0 <= i < |groups[key]| ==> groups[key][i] in before && groups[key][i] !in removed
    requires var first := groups[key][0]; before[first].kind == first.changeType && before[first].key == first.key
    requires groups[key][0].View() == before[groups[key][0]].(props := GroupProps(Snapshot(groups[key], before)))
    requires forall i :: 0 <= i < |all| && all[i] != groups[key][0] ==> Settled(all[i], groups, rest, removed, before)
    ensures forall i :: 0 <= i < |all| ==>
      Settled(all[i], groups, rest - {key}, removed + Members(groups[key][1..]), before)
  {
    GroupFacts(all, groups, key);
    forall i | 0 <= i < |all| ensures Settled(all[i], groups, rest - {key}, removed + Members(groups[key][1..]),
      before) {
      SettledAt(all[i], groups, rest, removed, before, key);
    }
  }

  lemma UpdatesAreGrouped(all: seq<EntityChangeInfo>, groups: Groups)
    requires GroupsOf(groups, all)
    ensures forall i :: 0 <= i < |all| && all[i].changeType.Updated? ==> all[i].key in groups
  {
    forall i | 0 <= i < |all| && all[i].changeType.Updated? ensures all[i].key in groups {
      FilterKeeps(all, UpdatesOf(all[i].key), all[i]);
    }
  }

  /** Once all groups are merged, the objects left have exactly the merged values. */
  lemma {:induction false} FinalViews(all: seq<EntityChangeInfo>, groups: Groups, removed: set<EntityChangeInfo>,
      before: Views, n: nat)
    requires Distinct(all) && GroupsOf(groups, all) && n <= |all| && forall i :: 0 <= i < |all| ==> all[i] in before
    requires forall i :: 0 <= i < |all| ==> Settled(all[i], groups, {}, removed, before)
    ensures ViewsOf(Filter(all[..n], NotIn(removed))) == MergedUpTo(Snapshot(all, before), n)
  {
    if n > 0 {
      FinalViews(all, groups, removed, before, n - 1);
      FinalView(all, groups, removed, before, n - 1);
      FilterPrefix(all, NotIn(removed), n - 1);
      ViewsSnoc(Filter(all[..n - 1], NotIn(removed)), all[n - 1]);
    }
  }

  lemma MergedViews(all: seq<EntityChangeInfo>, groups: Groups, removed: set<EntityChangeInfo>, before: Views)
    requires Distinct(all) && GroupsOf(groups, all) && forall i :: 0 <= i < |all| ==> all[i] in before
    requires forall i :: 0 <= i < |all| ==> Settled(all[i], groups, {}, removed, before)
    ensures var left := Filter(all, NotIn(removed));
      ViewsOf(left) == Merged(Snapshot(all, before)) && Distinct(left) && forall c :: c in left ==> c in all
  {
    FinalViews(all, groups, removed, before, |all|);
    assert all[..|all|] == all;
    FilterDistinct(all, NotIn(removed));
    FilterElements(all, NotIn(removed));
  }

  lemma ViewsSnoc(list: seq<EntityChangeInfo>, c: EntityChangeInfo)
    ensures ViewsOf(list + [c]) == ViewsOf(list) + [c.View()]
  {
  }

  lemma {:induction false} SnapshotPrefix(list: seq<EntityChangeInfo>, views: Views, n: nat)
    requires n <= |list| && forall i :: 0 <= i < |list| ==> list[i] in views
    ensures |Snapshot(list, views)| == |list| && Snapshot(list[..n], views) == Snapshot(list, views)[..n]
  {
    SnapshotAt(list, views);
    SnapshotAt(list[..n], views);
  }

  lemma FinalView(all: seq<EntityChangeInfo>, groups: Groups, removed: set<EntityChangeInfo>, before: Views, i: nat)
    requires Distinct(all) && GroupsOf(groups, all) && i < |all| && forall i :: 0 <= i < |all| ==> all[i] in before
    requires forall i :: 0 <= i < |all| ==> Settled(all[i], groups, {}, removed, before)
    ensures |Snapshot(all, before)| == |all|
    ensures all[i] !in removed <==> Stays(Snapshot(all, before), i)
    ensures all[i] !in removed ==> all[i].View() == MergedChange(Snapshot(all, before), i)
  {
    var c, values := all[i], Snapshot(all, before);
    assert Settled(c, groups, {}, removed, before);
    SnapshotAt(all, before);
    if c.changeType.Updated? {
      var group := Filter(all, UpdatesOf(c.key));
      FirstOfGroup(all, i);
      assert group == groups[c.key];
      SnapshotPrefix(all, before, i);
      SnapshotGroup(all[..i], before, c.key);
      SnapshotAt(Filter(all[..i], UpdatesOf(c.key)), before);
      SnapshotGroup(all, before, c.key);
      HasUpdateIff(values, i, c.key);
    }
  }

  class AuditLogInfo {
    var entityChanges: seq<EntityChangeInfo>

    constructor ()
      ensures entityChanges == []
    {
      entityChanges := [];
    }

    /** The list afterwards is the merged list of the values before. */
    method MergeEntityChanges()
      requires Distinct(entityChanges)
      modifies this`entityChanges, entityChanges
      ensures Distinct(entityChanges) && forall c :: c in entityChanges ==> c in old(entityChanges)
      ensures ViewsOf(entityChanges) == Merged(old(ViewsOf(entityChanges)))
    {
      ghost var all := entityChanges;
      ghost var before: Views := map c | c in all :: c.View();
      ViewsAreSnapshot(all, before);
      var groups := Grouped(entityChanges);
      KeepAll(all);
      UpdatesAreGrouped(all, groups);
      ghost var removed := MergeGroups(groups, all, before);
      MergedViews(all, groups, removed, before);
    }

    method MergeGroups(groups: Groups, ghost all: seq<EntityChangeInfo>, ghost before: Views)
        returns (ghost removed: set<EntityChangeInfo>)
      requires Distinct(all) && GroupsOf(groups, all) && forall key :: key in groups ==> groups[key] != []
      requires entityChanges == all == Filter(all, NotIn({}))
      requires forall i :: 0 <= i < |all| ==> Settled(all[i], groups, groups.Keys, {}, before)
      modifies this`entityChanges, all
      ensures entityChanges == Filter(all, NotIn(removed))
      ensures forall i :: 0 <= i < |all| ==> Settled(all[i], groups, {}, removed, before)
    {
      removed := {};
      var rest := groups.Keys;
      while rest != {}
        invariant rest <= groups.Keys
        invariant entityChanges == Filter(all, NotIn(removed))
        invariant forall i :: 0 <= i < |all| ==> Settled(all[i], groups, rest, removed, before)
        decreases rest
      {
        var key :| key in rest;
        GroupFacts(all, groups, key);
        assert groups[key][0] in all;
        removed := MergeNextGroup(groups[key], all, groups, rest, removed, before);
        rest := rest - {key};
      }
    }

    method MergeNextGroup(group: seq<EntityChangeInfo>, ghost all: seq<EntityChangeInfo>, ghost groups: Groups,
        ghost rest: set<GroupKey>, ghost removed: set<EntityChangeInfo>, ghost before: Views)
      returns (ghost removed': set<EntityChangeInfo>)
      requires group != [] && group[0].key in groups && group == groups[group[0].key] && group[0].key in rest
      requires Distinct(all) && GroupsOf(groups, all) && entityChanges == Filter(all, NotIn(removed))
      requires forall i :: 0 <= i < |all| ==> Settled(all[i], groups, rest, removed, before)
      modifies this`entityChanges, group[0]
      ensures entityChanges == Filter(all, NotIn(removed'))
      ensures forall i :: 0 <= i < |all| ==> Settled(all[i], groups, rest - {group[0].key}, removed', before)
    {
      GroupFacts(all, groups, group[0].key);
      GroupUnsettled(all, groups, rest, removed, before, group[0].key);
      removed' := removed + Members(group[1..]);
      if |group| > 1 {
        MergeGroup(group, all, removed, before);
      } else {
        GroupStarts(group, before);
        assert group[..1] == group && removed' == removed;
      }
      GroupDone(all, groups, rest, removed, before, group[0].key);
    }

    /** Merges all changes of one group into the first and takes them out of the list. */
    method MergeGroup(group: seq<EntityChangeInfo>, ghost all: seq<EntityChangeInfo>,
        ghost removed: set<EntityChangeInfo>, ghost before: Views)
      requires group != [] && Distinct(group) && Distinct(all)
      requires forall i :: 0 <= i < |group| ==>
        group[i] in all && group[i] !in removed && group[i] in before && before[group[i]] == group[i].View()
      requires entityChanges == Filter(all, NotIn(removed))
      modifies this`entityChanges, group[0]
      ensures entityChanges == Filter(all, NotIn(removed + Members(group[1..])))
      ensures group[0].propertyChanges == GroupProps(Snapshot(group, before))
    {
      var first := group[0];
      GroupStarts(group, before);
      assert removed + Members(group[1..1]) == removed;
      for j := 1 to |group|
        invariant entityChanges == Filter(all, NotIn(removed + Members(group[1..j])))
        invariant first.propertyChanges == GroupProps(Snapshot(group[..j], before))
        invariant forall i :: j <= i < |group| ==> before[group[i]] == group[i].View()
      {
        MergeMember(group, j, all, removed, before);
      }
      assert group[..|group|] == group;
    }

    method MergeMember(group: seq<EntityChangeInfo>, j: nat, ghost all: seq<EntityChangeInfo>,
        ghost removed: set<EntityChangeInfo>, ghost before: Views)
      requires 1 <= j < |group| && Distinct(group) && Distinct(all) && forall i ::
        0 <= i < |group| ==> group[i] in before
      requires group[j] != group[0] && group[j] in all && group[j] !in removed && before[group[j]] == group[j].View()
      requires entityChanges == Filter(all, NotIn(removed + Members(group[1..j])))
      requires group[0].propertyChanges == GroupProps(Snapshot(group[..j], before))
      modifies this`entityChanges, group[0]
      ensures entityChanges == Filter(all, NotIn(removed + Members(group[1..j + 1])))
      ensures group[0].propertyChanges == GroupProps(Snapshot(group[..j + 1], before))
    {
      GroupGrows(group, before, j);
      NotYetRemoved(group, removed, j);
      MergeInto(group[0], group[j], all, removed + Members(group[1..j]));
    }

    /** One more change of the group: merged into the first and spliced out of the list. */
    method MergeInto(first: EntityChangeInfo, change: EntityChangeInfo, ghost all: seq<EntityChangeInfo>,
        ghost removed: set<EntityChangeInfo>)
      requires first != change && Distinct(all) && change in all && change !in removed
      requires entityChanges == Filter(all, NotIn(removed))
      modifies this`entityChanges, first
      ensures entityChanges == Filter(all, NotIn(removed + {change}))
      ensures first.propertyChanges == MergedProps(old(first.propertyChanges), change.propertyChanges)
    {
      first.Merge(change);
      SpliceOut(all, removed, change);
      var index := IndexOfObject(entityChanges, change);
      if index >= 0 { entityChanges := entityChanges[..index] + entityChanges[index + 1..]; }
    }
  }

  lemma GroupStarts(group: seq<EntityChangeInfo>, before: Views)
    requires group != [] && Distinct(group) && group[0] in before
    ensures GroupProps(Snapshot(group[..1], before)) == before[group[0]].props
    ensures forall i :: 1 <= i < |group| ==> group[i] != group[0]
  {
  }

  lemma NotYetRemoved(group: seq<EntityChangeInfo>, removed: set<EntityChangeInfo>, j: nat)
    requires 1 <= j < |group| && Distinct(group) && group[j] !in removed
    ensures group[j] !in removed + Members(group[1..j])
    ensures removed + Members(group[1..j]) + {group[j]} == removed + Members(group[1..j + 1])
  {
    DistinctAt(group, j);
    assert forall c :: c in group[1..j] ==> c in group[..j];
    assert group[1..j + 1] == group[1..j] + [group[j]];
  }

  lemma GroupGrows(group: seq<EntityChangeInfo>, before: Views, j: nat)
    requires 1 <= j < |group| && forall i :: 0 <= i < |group| ==> group[i] in before
    ensures GroupProps(Snapshot(group[..j + 1], before)) ==
      MergedProps(GroupProps(Snapshot(group[..j], before)), before[group[j]].props)
  {
    assert group[..j + 1] == group[..j] + [group[j]];
    SnapshotSnoc(group[..j], group[j], before);
    SnapshotAt(group[..j], before);
    var values := Snapshot(group[..j], before);
    assert (values + [before[group[j]]])[..|values|] == values;
  }

  // ---------------------------------------------------------------- what merging keeps

  /** No two updates of one entity. */
  ghost predicate OneEach(changes: seq<Change>) {
    changes == [] ||
    (var n := |changes| - 1;
      OneEach(changes[..n]) && (changes[n].kind.Updated? ==> Filter(changes[..n], InGroup(changes[n].key)) == []))
  }

  lemma FilterOneMore(changes: seq<Change>, c: Change, keep: Change -> bool)
    ensures Filter(changes + [c], keep) == if keep(c) then Filter(changes, keep) + [c] else Filter(changes, keep)
  {
  }

  lemma {:induction false} NoneMergedBefore(changes: seq<Change>, n: nat, key: GroupKey)
    requires n <= |changes| && Filter(changes[..n], InGroup(key)) == []
    ensures Filter(MergedUpTo(changes, n), InGroup(key)) == []
  {
    if n > 0 {
      FilterPrefix(changes, InGroup(key), n - 1);
      NoneMergedBefore(changes, n - 1, key);
      FilterOneMore(MergedUpTo(changes, n - 1), MergedChange(changes, n - 1), InGroup(key));
    }
  }

  lemma {:induction false} MergedOneEach(changes: seq<Change>, n: nat)
    requires n <= |changes|
    ensures OneEach(MergedUpTo(changes, n))
  {
    if n > 0 {
      MergedOneEach(changes, n - 1);
      var before := MergedUpTo(changes, n - 1);
      assert (before + [MergedChange(changes, n - 1)])[..|before|] == before;
      HasUpdateIff(changes, n - 1, changes[n - 1].key);
      if Stays(changes, n - 1) && changes[n - 1].kind.Updated? { NoneMergedBefore(changes, n - 1, changes[n - 1].key); }
    }
  }

  /** After merging there is one update per entity. */
  lemma OneUpdatePerEntity(changes: seq<Change>)
    ensures OneEach(Merged(changes))
  {
    MergedOneEach(changes, |changes|);
  }

  /** `OneEach` said pairwise. */
  lemma {:induction false} OneEachMeans(changes: seq<Change>, i: nat, j: nat)
    requires OneEach(changes) && i < j < |changes| && changes[i].kind.Updated? && changes[j].kind.Updated?
    ensures changes[i].key != changes[j].key
  {
    var n := |changes| - 1;
    if j < n {
      OneEachMeans(changes[..n], i, j);
    } else if changes[i].key == changes[n].key {
      assert changes[..n][i] == changes[i];
      FilterKeeps(changes[..n], InGroup(changes[n].key), changes[i]);
      assert false;
    }
  }

  function NoUpdate(): Change -> bool { (c: Change) => !c.kind.Updated? }

  lemma OneMoreKept(before: seq<Change>, c: Change, merged: Change, stays: bool)
    requires merged.kind == c.kind && (!c.kind.Updated? ==> merged == c && stays)
    ensures Filter(if stays then before + [merged] else before, NoUpdate())
      == if c.kind.Updated? then Filter(before, NoUpdate()) else Filter(before, NoUpdate()) + [c]
  {
  }

  /** Created and deleted changes keep content and order. */
  lemma OthersKept(changes: seq<Change>)
    ensures Filter(Merged(changes), NoUpdate()) == Filter(changes, NoUpdate())
  {
    OthersKeptUpTo(changes, |changes|);
    OthersAreFilter(changes, |changes|);
    assert changes[..|changes|] == changes;
  }

  /** The changes among the first `n` that are no updates. */
  function OthersIn(changes: seq<Change>, n: nat): seq<Change>
    requires n <= |changes|
  {
    if n == 0 then []
    else if changes[n - 1].kind.Updated? then OthersIn(changes, n - 1)
    else OthersIn(changes, n - 1) + [changes[n - 1]]
  }

  lemma {:induction false} OthersAreFilter(changes: seq<Change>, n: nat)
    requires n <= |changes|
    ensures OthersIn(changes, n) == Filter(changes[..n], NoUpdate())
  {
    if n > 0 {
      OthersAreFilter(changes, n - 1);
      FilterPrefix(changes, NoUpdate(), n - 1);
    }
  }

  lemma {:induction false} OthersKeptUpTo(changes: seq<Change>, n: nat)
    requires n <= |changes|
    ensures Filter(MergedUpTo(changes, n), NoUpdate()) == OthersIn(changes, n)
  {
    if n > 0 {
      OthersKeptUpTo(changes, n - 1);
      OneMoreKept(MergedUpTo(changes, n - 1), changes[n - 1], MergedChange(changes, n - 1), Stays(changes, n - 1));
    }
  }

  lemma {:induction false} SingleGroup(changes: seq<Change>, i: nat)
    requires OneEach(changes) && i < |changes| && changes[i].kind.Updated?
    ensures Filter(changes, InGroup(changes[i].key)) == [changes[i]] &&
      Filter(changes[..i], InGroup(changes[i].key)) == []
  {
    var n := |changes| - 1;
    if i < n {
      SingleGroup(changes[..n], i);
      assert changes[..n][..i] == changes[..i];
      if changes[n].kind.Updated? { OneEachMeans(changes, i, n); }
    }
  }

  lemma NothingToMergeAt(changes: seq<Change>, i: nat)
    requires OneEach(changes) && i < |changes|
    ensures Stays(changes, i) && MergedChange(changes, i) == changes[i]
  {
    HasUpdateIff(changes, i, changes[i].key);
    if changes[i].kind.Updated? { SingleGroup(changes, i); }
  }

  lemma {:induction false} NothingToMerge(changes: seq<Change>, n: nat)
    requires OneEach(changes) && n <= |changes|
    ensures MergedUpTo(changes, n) == changes[..n]
  {
    if n > 0 {
      NothingToMerge(changes, n - 1);
      NothingToMergeAt(changes, n - 1);
      assert changes[..n] == changes[..n - 1] + [changes[n - 1]];
    }
  }

  /** Merging again changes nothing. */
  lemma MergeIdempotent(changes: seq<Change>)
    ensures Merged(Merged(changes)) == Merged(changes)
  {
    OneUpdatePerEntity(changes);
    NothingToMerge(Merged(changes), |Merged(changes)|);
    assert Merged(changes)[..|Merged(changes)|] == Merged(changes);
  }

  // ---------------------------------------------------------------- the net effect on properties

  function First(props: seq<Prop>, name: Name): Option<Prop> {
    var i := IndexOf(props, name);
    if i >= 0 then Some(props[i]) else None
  }

  function Last(props: seq<Prop>, name: Name): Option<Prop> {
    if props == [] then None
    else if props[|props| - 1].name == name then Some(props[|props| - 1])
    else Last(props[..|props| - 1], name)
  }

  /** All property changes of a group, one after another. */
  function AllProps(group: seq<Change>): seq<Prop> {
    if group == [] then [] else AllProps(group[..|group| - 1]) + group[|group| - 1].props
  }

  /** The first original value and the last new value of a property. */
  function NetEffect(props: seq<Prop>, name: Name): Option<Prop> {
    var first, last := First(props, name), Last(props, name);
    if first.None? || last.None? then None else Some(first.value.(newValue := last.value.newValue))
  }

  predicate OncePerName(props: seq<Prop>) {
    props == [] || (OncePerName(props[..|props| - 1]) && IndexOf(props[..|props| - 1], props[|props| - 1].name) < 0)
  }

  lemma {:induction false} OnceIsNet(props: seq<Prop>, name: Name)
    requires OncePerName(props)
    ensures First(props, name) == NetEffect(props, name)
  {
    if props != [] {
      OnceIsNet(props[..|props| - 1], name);
    }
  }

  lemma {:induction false} FirstIffLast(props: seq<Prop>, name: Name)
    ensures First(props, name).None? <==> Last(props, name).None?
  {
    if props != [] { FirstIffLast(props[..|props| - 1], name); }
  }

  lemma {:induction false} IndexOfUpdated(props: seq<Prop>, i: nat, value: Option<int>, name: Name)
    requires i < |props|
    ensures IndexOf(props[i := props[i].(newValue := value)], name) == IndexOf(props, name)
  {
    var n := |props| - 1;
    var props' := props[i := props[i].(newValue := value)];
    if i < n {
      IndexOfUpdated(props[..n], i, value, name);
      assert props'[..n] == props[..n][i := props[..n][i].(newValue := value)];
    } else {
      assert props'[..n] == props[..n];
    }
  }

  lemma FirstSnoc(props: seq<Prop>, p: Prop, name: Name)
    ensures First(props + [p], name) == if First(props, name).None? && p.name == name then Some(p)
      else First(props, name)
    ensures Last(props + [p], name) == if p.name == name then Some(p) else Last(props, name)
  {
  }

  lemma MergedOneNet(props: seq<Prop>, all: seq<Prop>, p: Prop, name: Name)
    requires First(props, name) == NetEffect(all, name) && First(props, p.name) == NetEffect(all, p.name)
    ensures First(MergedOne(props, p), name) == NetEffect(all + [p], name)
  {
    FirstIffLast(all, name);
    FirstIffLast(all, p.name);
    FirstSnoc(all, p, name);
    var i := IndexOf(props, p.name);
    if i >= 0 { IndexOfUpdated(props, i, p.newValue, name); } else { FirstSnoc(props, p, name); }
  }

  lemma {:induction false} MergedPropsNet(props: seq<Prop>, others: seq<Prop>, all: seq<Prop>, name: Name)
    requires forall x :: First(props, x) == NetEffect(all, x)
    ensures First(MergedProps(props, others), name) == NetEffect(all + others, name)
    decreases |others|
  {
    if others != [] {
      var n := |others| - 1;
      MergedPropsNet(props, others[..n], all, name);
      MergedPropsNet(props, others[..n], all, others[n].name);
      MergedOneNet(MergedProps(props, others[..n]), all + others[..n], others[n], name);
      assert all + others[..n] + [others[n]] == all + others;
    } else {
      assert all + others == all;
    }
  }

  /** The merged update of an entity lists every property with its first original and its last new value. */
  lemma {:induction false} MergedNetEffect(group: seq<Change>, name: Name)
    requires group != [] && OncePerName(group[0].props)
    ensures First(GroupProps(group), name) == NetEffect(AllProps(group), name)
    decreases |group|
  {
    var n := |group| - 1;
    if n == 0 {
      OnceIsNet(group[0].props, name);
      assert AllProps(group) == AllProps(group[..0]) + group[0].props == group[0].props;
    } else {
      forall x ensures First(GroupProps(group[..n]), x) == NetEffect(AllProps(group[..n]), x) {
        MergedNetEffect(group[..n], x);
      }
      MergedPropsNet(GroupProps(group[..n]), group[n].props, AllProps(group[..n]), name);
    }
  }

  // ---------------------------------------------------------------- group keys

  /**
   * Changes are grouped by entity: for types without '|' the key determines type and id, absent ones counting as "".
   */
  lemma KeyInjective(typeName: string, id: string, typeName': string, id': string)
    requires '|' !in typeName && '|' !in typeName'
    requires KeyOf(Some(typeName), Some(id)) == KeyOf(Some(typeName'), Some(id'))
    ensures typeName == typeName' && id == id'
  {
    var a, b := typeName + "|" + id, typeName' + "|" + id';
    assert a == b;
    assert a[|typeName|] == '|' && b[|typeName'|] == '|';
    assert forall i :: 0 <= i < |typeName| ==> a[i] == typeName[i] && typeName[i] in typeName;
    assert forall i :: 0 <= i < |typeName'| ==> b[i] == typeName'[i] && typeName'[i] in typeName';
    assert |typeName| == |typeName'|;
    assert a[..|typeName|] == typeName && b[..|typeName'|] == typeName';
    assert a[|typeName| + 1..] == id && b[|typeName'| + 1..] == id';
  }

  /**
   * In general two entities share a key exactly if they are equal or the bar of one lies within the type of the other.
   */
  lemma KeysCollideIff(typeName: string, id: string, typeName': string, id': string)
    ensures KeyOf(Some(typeName), Some(id)) == KeyOf(Some(typeName'), Some(id')) <==>
      (typeName == typeName' && id == id') || CutApart("|", typeName, id, typeName', id') ||
        CutApart("|", typeName', id', typeName, id)
  {
    JoinedEqualIff("|", typeName, id, typeName', id');
  }

  /** With '|' in a type, changes of two different entities can be merged into one. */
  lemma BarInTypeMixesEntities()
    ensures KeyOf(Some("A|B"), Some("C")) == KeyOf(Some("A"), Some("B|C"))
  {
  }
}
