/** The k-way merge of sorted symbol tables with a priority queue of table positions. */
module LinkMerge {
  import opened LinkNames
  import opened LinkObjects

  /** A position in the table of one unit. */
  datatype TagIt = TagIt(unit: nat, pos: nat)

  predicate InTables(units: seq<Unit>, t: TagIt) {
    t.unit < |units| && t.pos < |units[t.unit].table|
  }

  function EntryAt(units: seq<Unit>, t: TagIt): Entry
    requires InTables(units, t)
  {
    units[t.unit].table[t.pos]
  }

  /** Table entries are compared by name, and then by the symbols' addresses. */
  predicate Greater(units: seq<Unit>, a: TagIt, b: TagIt)
    requires InTables(units, a) && InTables(units, b)
  {
    var x, y := EntryAt(units, a), EntryAt(units, b);
    Less(y.name, x.name) || (x.name == y.name && x.symbol.id > y.symbol.id)
  }

  /** How far each table has been read. */
  predicate Positions(units: seq<Unit>, at: seq<nat>) {
    |at| == |units| && forall u {:trigger at[u]} :: 0 <= u < |units| ==> at[u] <= |units[u].table|
  }

  /** The queue holds the next position of every table that has not been read to its end. */
  predicate Queued(units: seq<Unit>, at: seq<nat>, queue: seq<TagIt>) {
    Positions(units, at) &&
    (forall i {:trigger queue[i]} :: 0 <= i < |queue| ==> InTables(units, queue[i]) && queue[i].pos == at[queue[i].unit]) &&
    (forall i, j {:trigger queue[i], queue[j]} :: 0 <= i < j < |queue| ==> queue[i].unit != queue[j].unit) &&
    (forall u {:trigger at[u]} :: 0 <= u < |units| && at[u] < |units[u].table| ==> TagIt(u, at[u]) in queue)
  }

  /** Everything still to be read is named `name` or comes after it. */
  predicate NoneBefore(units: seq<Unit>, at: seq<nat>, name: string)
    requires Positions(units, at)
  {
    forall u, k {:trigger units[u].table[k]} :: 0 <= u < |units| && at[u] <= k < |units[u].table| ==>
      !Less(units[u].table[k].name, name)
  }

  lemma {:induction false} LaterIsGreater(units: seq<Unit>, u: nat, i: nat, j: nat)
    requires WellFormedUnits(units) && u < |units| && i <= j < |units[u].table|
    ensures i < j ==> Less(units[u].table[i].name, units[u].table[j].name)
  {
    assert WellFormedUnit(units[u]);
  }

  /** The least of the next entries is the least of all that are left. */
  lemma {:induction false} HeadsAreLeast(units: seq<Unit>, at: seq<nat>, queue: seq<TagIt>, name: string)
    requires WellFormedUnits(units) && Queued(units, at, queue)
    requires forall i {:trigger queue[i]} :: 0 <= i < |queue| ==> !Less(EntryAt(units, queue[i]).name, name)
    ensures NoneBefore(units, at, name)
  {
    forall u, k | 0 <= u < |units| && at[u] <= k < |units[u].table|
      ensures !Less(units[u].table[k].name, name)
    {
      var head := TagIt(u, at[u]);
      assert head in queue;
      var i :| 0 <= i < |queue| && queue[i] == head;
      LaterIsGreater(units, u, at[u], k);
      if Less(units[u].table[k].name, name) && at[u] < k {
        LessTrans(units[u].table[at[u]].name, units[u].table[k].name, name);
      }
    }
  }

  class TagItPool {
    const units: seq<Unit>
    var queue: seq<TagIt>
    ghost var at: seq<nat>

    ghost predicate Valid()
      reads this
    {
      WellFormedUnits(units) && Queued(units, at, queue)
    }

    /** Pushes the beginning of every table. */
    constructor (us: seq<Unit>)
      requires WellFormedUnits(us)
      ensures Valid() && units == us && at == seq(|us|, _ => 0)
    {
      units := us;
      queue := [];
      at := seq(|us|, _ => 0);
      new;
      for u := 0 to |us|
        invariant units == us && at == seq(|us|, _ => 0)
        invariant forall i {:trigger queue[i]} :: 0 <= i < |queue| ==> InTables(units, queue[i]) && queue[i].pos == 0 && queue[i].unit < u
        invariant forall i, j {:trigger queue[i], queue[j]} :: 0 <= i < j < |queue| ==> queue[i].unit != queue[j].unit
        invariant forall w: nat {:trigger TagIt(w, 0)} :: w < u && |units[w].table| > 0 ==> TagIt(w, 0) in queue
      {
        ghost var before := queue;
        if |us[u].table| > 0 {
          queue := queue + [TagIt(u, 0)];
          assert queue[|before|] == TagIt(u, 0);
        }
        assert forall t :: t in before ==> t in queue;
      }
    }

    /** The index of a least element of the queue. */
    method Top() returns (i: nat)
      requires Valid() && queue != []
      ensures i < |queue| && NoneBefore(units, at, EntryAt(units, queue[i]).name)
    {
      i := 0;
      LessIsIrreflexive(EntryAt(units, queue[0]).name);
      for j := 1 to |queue|
        invariant i < j && forall l {:trigger queue[l]} :: 0 <= l < j ==> !Less(EntryAt(units, queue[l]).name, EntryAt(units, queue[i]).name)
      {
        LessIsTotal(EntryAt(units, queue[i]).name, EntryAt(units, queue[j]).name);
        if Greater(units, queue[i], queue[j]) {
          forall l | 0 <= l < j + 1
            ensures !Less(EntryAt(units, queue[l]).name, EntryAt(units, queue[j]).name)
          {
            if l < j {
              NotLessTrans(EntryAt(units, queue[l]).name, EntryAt(units, queue[i]).name, EntryAt(units, queue[j]).name);
            }
          }
          i := j;
        }
      }
      HeadsAreLeast(units, at, queue, EntryAt(units, queue[i]).name);
    }

    /** Takes an element from the queue and puts the next position of its table in. */
    method Pull(i: nat) returns (t: TagIt)
      requires Valid() && i < |queue|
      modifies this`queue, this`at
      ensures Valid() && InTables(units, t) && t == old(queue)[i] && t.pos == old(at)[t.unit] && at == old(at)[t.unit := t.pos + 1]
    {
      t := queue[i];
      ghost var before := queue;
      queue := queue[..i] + queue[i + 1..];
      RemovedFromQueue(before, i);
      at := at[t.unit := t.pos + 1];
      if t.pos + 1 < |units[t.unit].table| {
        queue := queue + [TagIt(t.unit, t.pos + 1)];
      }
    }

    /** Takes all entries with the least name from the queue. */
    method Next() returns (group: seq<TagIt>)
      requires Valid() && queue != []
      modifies this`queue, this`at
      ensures Valid() && IsGroup(units, group) && NoneBefore(units, old(at), GroupName(units, group))
      ensures AllAfter(units, at, GroupName(units, group)) && Took(units, old(at), at, group)
    {
      hide Took, NoneBefore, AllAfter, LeftToRead;
      ghost var before := at;
      var i := Top();
      var t := Pull(i);
      group := [t];
      var name := EntryAt(units, t).name;
      FirstTaken(units, before, t);
      while queue != []
        invariant Valid() && IsGroup(units, group) && GroupName(units, group) == name
        invariant NoneBefore(units, at, name) && Took(units, before, at, group)
        decreases LeftToRead(units, at)
      {
        i := Top();
        if EntryAt(units, queue[i]).name == name {
          ghost var middle := at;
          t := Pull(i);
          OneMoreTaken(units, before, middle, group, t);
          LessLeft(units, middle, t.unit);
          group := group + [t];
        } else {
          RestIsAfter(units, at, name, queue[i]);
          return;
        }
      }
      NothingLeft(units, at, name);
    }

    /** Takes groups until every table has been read to its end. */
    method AllGroups() returns (groups: seq<seq<TagIt>>)
      requires Valid() && forall u :: 0 <= u < |at| ==> at[u] == 0
      modifies this`queue, this`at
      ensures Merged(units, groups)
    {
      groups := [];
      while queue != []
        invariant Valid() && MergedUpTo(units, at, groups)
        decreases LeftToRead(units, at)
      {
        ghost var before := at;
        var group := Next();
        GroupTaken(units, before, at, groups, group);
        TookLess(units, before, at, group);
        groups := groups + [group];
      }
      EverythingMerged(units, at, groups);
    }
  }

  // ----- Groups -----

  /** Entries with one name, none of them twice. */
  predicate IsGroup(units: seq<Unit>, group: seq<TagIt>) {
    group != [] && (forall i {:trigger group[i]} :: 0 <= i < |group| ==> InTables(units, group[i])) &&
    (forall i {:trigger group[i]} :: 0 <= i < |group| ==> EntryAt(units, group[i]).name == EntryAt(units, group[0]).name) &&
    (forall i, j {:trigger group[i], group[j]} :: 0 <= i < j < |group| ==> group[i] != group[j])
  }

  function GroupName(units: seq<Unit>, group: seq<TagIt>): string
    requires IsGroup(units, group)
  {
    EntryAt(units, group[0]).name
  }

  /** Everything still to be read comes after `name`. */
  predicate AllAfter(units: seq<Unit>, at: seq<nat>, name: string)
    requires Positions(units, at)
  {
    forall u, k {:trigger units[u].table[k]} :: 0 <= u < |units| && at[u] <= k < |units[u].table| ==>
      Less(name, units[u].table[k].name)
  }

  /** The group's entries are those read between `before` and `at`. */
  ghost predicate Took(units: seq<Unit>, before: seq<nat>, at: seq<nat>, group: seq<TagIt>) {
    Positions(units, before) && Positions(units, at) &&
    (forall u {:trigger at[u]} {:trigger before[u]} :: 0 <= u < |units| ==> before[u] <= at[u]) &&
    forall t {:trigger InTables(units, t)} :: InTables(units, t) ==> (before[t.unit] <= t.pos < at[t.unit] <==> t in group)
  }

  lemma {:induction false} FirstTaken(units: seq<Unit>, at: seq<nat>, t: TagIt)
    requires WellFormedUnits(units) && Positions(units, at) && InTables(units, t) && at[t.unit] == t.pos
    requires NoneBefore(units, at, EntryAt(units, t).name)
    ensures var at' := at[t.unit := t.pos + 1];
      IsGroup(units, [t]) && Took(units, at, at', [t]) && NoneBefore(units, at', EntryAt(units, t).name)
  {
  }

  lemma {:induction false} OneMoreTaken(units: seq<Unit>, before: seq<nat>, at: seq<nat>, group: seq<TagIt>, t: TagIt)
    requires WellFormedUnits(units) && IsGroup(units, group) && Took(units, before, at, group) && InTables(units, t) && at[t.unit] == t.pos
    requires EntryAt(units, t).name == GroupName(units, group) && NoneBefore(units, at, GroupName(units, group))
    ensures var at' := at[t.unit := t.pos + 1];
      IsGroup(units, group + [t]) && GroupName(units, group + [t]) == GroupName(units, group) &&
      Took(units, before, at', group + [t]) && NoneBefore(units, at', GroupName(units, group))
  {
    assert t !in group;
  }

  /** What is left after the group's last entry comes after it. */
  lemma {:induction false} RestIsAfter(units: seq<Unit>, at: seq<nat>, name: string, top: TagIt)
    requires Positions(units, at) && InTables(units, top) && at[top.unit] == top.pos && EntryAt(units, top).name != name
    requires NoneBefore(units, at, name) && NoneBefore(units, at, EntryAt(units, top).name)
    ensures AllAfter(units, at, name)
  {
    var next := EntryAt(units, top).name;
    assert !Less(units[top.unit].table[top.pos].name, name);
    LessIsTotal(next, name);
    forall u, k | 0 <= u < |units| && at[u] <= k < |units[u].table|
      ensures Less(name, units[u].table[k].name)
    {
      LessIsTotal(next, units[u].table[k].name);
      if Less(next, units[u].table[k].name) { LessTrans(name, next, units[u].table[k].name); }
    }
  }

  lemma {:induction false} NothingLeft(units: seq<Unit>, at: seq<nat>, name: string)
    requires Queued(units, at, [])
    ensures AllAfter(units, at, name)
  {
    assert forall u {:trigger at[u]} :: 0 <= u < |units| ==> at[u] == |units[u].table|;
  }

  // ----- All groups -----

  predicate InGroups(groups: seq<seq<TagIt>>, t: TagIt) {
    exists g :: 0 <= g < |groups| && t in groups[g]
  }

  predicate Increasing(units: seq<Unit>, groups: seq<seq<TagIt>>) {
    (forall g {:trigger groups[g]} :: 0 <= g < |groups| ==> IsGroup(units, groups[g])) &&
    forall g, h {:trigger groups[g], groups[h]} :: 0 <= g < h < |groups| ==>
      Less(GroupName(units, groups[g]), GroupName(units, groups[h]))
  }

  ghost predicate MergedUpTo(units: seq<Unit>, at: seq<nat>, groups: seq<seq<TagIt>>) {
    Positions(units, at) && Increasing(units, groups) &&
    (forall t {:trigger InTables(units, t)} :: InTables(units, t) ==> (t.pos < at[t.unit] <==> InGroups(groups, t))) &&
    (groups != [] ==> AllAfter(units, at, GroupName(units, groups[|groups| - 1])))
  }

  /** Groups with strictly increasing names that hold every entry of every table. */
  ghost predicate Merged(units: seq<Unit>, groups: seq<seq<TagIt>>) {
    Increasing(units, groups) && forall t {:trigger InTables(units, t)} :: InTables(units, t) ==> InGroups(groups, t)
  }

  lemma {:induction false} GroupTaken(units: seq<Unit>, before: seq<nat>, at: seq<nat>, groups: seq<seq<TagIt>>, group: seq<TagIt>)
    requires MergedUpTo(units, before, groups) && IsGroup(units, group) && Took(units, before, at, group)
    requires AllAfter(units, at, GroupName(units, group))
    ensures MergedUpTo(units, at, groups + [group])
  {
    hide IsGroup, Increasing, InGroups, AllAfter;
    forall t | InTables(units, t)
      ensures t.pos < at[t.unit] <==> InGroups(groups + [group], t)
    {
      InGroupsAppend(groups, group, t);
      assert before[t.unit] <= at[t.unit];
    }
    FirstIsRead(units, before, at, group);
    if groups != [] { LastComesBefore(units, before, groups, group); }
    StillIncreasing(units, groups, group);
    assert (groups + [group])[|groups|] == group;
  }

  lemma {:induction false} FirstIsRead(units: seq<Unit>, before: seq<nat>, at: seq<nat>, group: seq<TagIt>)
    requires IsGroup(units, group) && Took(units, before, at, group)
    ensures InTables(units, group[0]) && before[group[0].unit] <= group[0].pos
  {
    assert InTables(units, group[0]) && group[0] in group;
  }

  lemma {:induction false} LastComesBefore(units: seq<Unit>, at: seq<nat>, groups: seq<seq<TagIt>>, group: seq<TagIt>)
    requires Increasing(units, groups) && groups != [] && Positions(units, at) && IsGroup(units, group)
    requires AllAfter(units, at, GroupName(units, groups[|groups| - 1]))
    requires InTables(units, group[0]) && at[group[0].unit] <= group[0].pos
    ensures Less(GroupName(units, groups[|groups| - 1]), GroupName(units, group))
  {
    assert Less(GroupName(units, groups[|groups| - 1]), units[group[0].unit].table[group[0].pos].name);
  }

  lemma {:induction false} StillIncreasing(units: seq<Unit>, groups: seq<seq<TagIt>>, group: seq<TagIt>)
    requires Increasing(units, groups) && IsGroup(units, group)
    requires groups != [] ==> Less(GroupName(units, groups[|groups| - 1]), GroupName(units, group))
    ensures Increasing(units, groups + [group])
  {
    hide IsGroup;
    forall g | 0 <= g < |groups|
      ensures Less(GroupName(units, groups[g]), GroupName(units, group))
    {
      if g < |groups| - 1 { LessTrans(GroupName(units, groups[g]), GroupName(units, groups[|groups| - 1]), GroupName(units, group)); }
    }
  }

  lemma {:induction false} InGroupsAppend(groups: seq<seq<TagIt>>, group: seq<TagIt>, t: TagIt)
    ensures InGroups(groups + [group], t) <==> InGroups(groups, t) || t in group
  {
    var all := groups + [group];
    if InGroups(groups, t) {
      var g :| 0 <= g < |groups| && t in groups[g];
      assert t in all[g];
    }
    if t in group { assert t in all[|groups|]; }
  }

  lemma {:induction false} EverythingMerged(units: seq<Unit>, at: seq<nat>, groups: seq<seq<TagIt>>)
    requires Queued(units, at, []) && MergedUpTo(units, at, groups)
    ensures Merged(units, groups)
  {
    assert forall u {:trigger at[u]} :: 0 <= u < |units| ==> at[u] == |units[u].table|;
  }

  /** In a merge each entry is in exactly one group, namely the one with its name, and only once there. */
  lemma {:induction false} OneGroupPerName(units: seq<Unit>, groups: seq<seq<TagIt>>, t: TagIt, g: nat)
    requires Merged(units, groups) && InTables(units, t) && g < |groups|
    ensures t in groups[g] <==> EntryAt(units, t).name == GroupName(units, groups[g])
    ensures t in groups[g] ==> multiset(groups[g])[t] == 1 && forall h :: 0 <= h < |groups| && h != g ==> t !in groups[h]
  {
    assert InGroups(groups, t);
    var h :| 0 <= h < |groups| && t in groups[h];
    InGroupHasName(units, groups[h], t);
    if t in groups[g] { InGroupHasName(units, groups[g], t); }
    if g != h { LessIsTotal(GroupName(units, groups[g]), GroupName(units, groups[h])); }
    OnceInGroup(units, groups[h], t);
    forall k | 0 <= k < |groups| && k != h
      ensures t !in groups[k]
    {
      if t in groups[k] {
        InGroupHasName(units, groups[k], t);
        LessIsTotal(GroupName(units, groups[k]), GroupName(units, groups[h]));
      }
    }
  }

  lemma {:induction false} InGroupHasName(units: seq<Unit>, group: seq<TagIt>, t: TagIt)
    requires IsGroup(units, group) && t in group
    ensures InTables(units, t) && EntryAt(units, t).name == GroupName(units, group)
  {
  }

  lemma {:induction false} OnceInGroup(units: seq<Unit>, group: seq<TagIt>, t: TagIt)
    requires IsGroup(units, group) && t in group
    ensures multiset(group)[t] == 1
  {
    var i :| 0 <= i < |group| && group[i] == t;
    assert group == group[..i] + [t] + group[i + 1..];
    assert t !in group[..i] && t !in group[i + 1..];
  }

  // ----- Termination -----

  function LeftFrom(units: seq<Unit>, at: seq<nat>, u: nat): nat
    requires Positions(units, at) && u <= |units|
    decreases |units| - u
  {
    if u == |units| then 0 else |units[u].table| - at[u] + LeftFrom(units, at, u + 1)
  }

  function LeftToRead(units: seq<Unit>, at: seq<nat>): nat
    requires Positions(units, at)
  {
    LeftFrom(units, at, 0)
  }

  lemma {:induction false} LeftFromLess(units: seq<Unit>, at: seq<nat>, u: nat, w: nat)
    requires Positions(units, at) && u <= |units| && w < |units| && at[w] < |units[w].table|
    ensures var at' := at[w := at[w] + 1];
      LeftFrom(units, at', u) == LeftFrom(units, at, u) - if u <= w then 1 else 0
    decreases |units| - u
  {
    if u < |units| { LeftFromLess(units, at, u + 1, w); }
  }

  lemma {:induction false} LessLeft(units: seq<Unit>, at: seq<nat>, w: nat)
    requires Positions(units, at) && w < |units| && at[w] < |units[w].table|
    ensures LeftToRead(units, at[w := at[w] + 1]) < LeftToRead(units, at)
  {
    LeftFromLess(units, at, 0, w);
  }

  lemma {:induction false} LeftFromTook(units: seq<Unit>, before: seq<nat>, at: seq<nat>, u: nat)
    requires Positions(units, before) && Positions(units, at) && u <= |units|
    requires forall w {:trigger at[w]} :: 0 <= w < |units| ==> before[w] <= at[w]
    ensures LeftFrom(units, at, u) <= LeftFrom(units, before, u)
    ensures (exists w {:trigger at[w]} :: u <= w < |units| && before[w] < at[w]) ==> LeftFrom(units, at, u) < LeftFrom(units, before, u)
    decreases |units| - u
  {
    if u < |units| {
      assert before[u] <= at[u];
      LeftFromTook(units, before, at, u + 1);
    }
  }

  lemma {:induction false} TookLess(units: seq<Unit>, before: seq<nat>, at: seq<nat>, group: seq<TagIt>)
    requires IsGroup(units, group) && Took(units, before, at, group)
    ensures LeftToRead(units, at) < LeftToRead(units, before)
  {
    var t := group[0];
    assert InTables(units, t) && t in group;
    assert before[t.unit] < at[t.unit];
    LeftFromTook(units, before, at, 0);
  }

  lemma {:induction false} NotLessTrans(a: string, b: string, c: string)
    requires !Less(a, b) && !Less(b, c)
    ensures !Less(a, c)
  {
    LessIsTotal(a, b);
    LessIsTotal(b, c);
    LessIsTotal(a, c);
    if Less(b, a) && Less(c, b) { LessTrans(c, b, a); }
  }

  lemma {:induction false} RemovedFromQueue(queue: seq<TagIt>, i: nat)
    requires i < |queue|
    requires forall j, k {:trigger queue[j], queue[k]} :: 0 <= j < k < |queue| ==> queue[j].unit != queue[k].unit
    ensures var rest := queue[..i] + queue[i + 1..];
      (forall t :: t in rest <==> t in queue && t != queue[i]) && (forall t :: t in rest ==> t.unit != queue[i].unit) &&
      forall j, k {:trigger rest[j], rest[k]} :: 0 <= j < k < |rest| ==> rest[j].unit != rest[k].unit
  {
    var rest := queue[..i] + queue[i + 1..];
    forall t
      ensures t in rest <==> t in queue && t != queue[i]
    {
      if t in queue && t != queue[i] {
        var j :| 0 <= j < |queue| && queue[j] == t;
        assert rest[if j < i then j else j - 1] == t;
      }
    }
  }
}
