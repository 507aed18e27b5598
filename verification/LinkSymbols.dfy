/** Unification of the object files' symbol tables into one. */
module LinkSymbols {
  import opened Wrappers
  import opened LinkNames
  import opened LinkObjects
  import opened LinkMerge

  /** A function and the object file that defines it. */
  datatype Definition = Definition(unit: nat, code: LinkFunction)

  function OfUnit(u: nat, fs: seq<LinkFunction>): (r: seq<Definition>)
    ensures |r| == |fs| && forall k :: 0 <= k < |r| ==> r[k] == Definition(u, fs[k])
  {
    seq(|fs|, k requires 0 <= k < |fs| => Definition(u, fs[k]))
  }

  /** The functions of the first `n` files, in order. */
  function Definitions(units: seq<Unit>, n: nat): seq<Definition>
    requires n <= |units|
  {
    if n == 0 then [] else Definitions(units, n - 1) + OfUnit(n - 1, units[n - 1].functions)
  }

  predicate DistinctNames(defs: seq<Definition>) {
    forall i, j {:trigger defs[i], defs[j]} :: 0 <= i < j < |defs| ==> defs[i].code.name != defs[j].code.name
  }

  predicate Defines(defs: seq<Definition>, name: string) {
    exists i :: 0 <= i < |defs| && defs[i].code.name == name
  }

  /** A definition comes from its file's functions, and its name is in the file's table. */
  predicate FromUnits(units: seq<Unit>, d: Definition) {
    d.unit < |units| && d.code in units[d.unit].functions && d.code.name in Names(units[d.unit].table)
  }

  /** The function names in the new table belong to the defining files' symbols. */
  predicate FunctionsMapped(units: seq<Unit>, defs: seq<Definition>, table: map<string, Symbol>) {
    forall i {:trigger defs[i]} :: 0 <= i < |defs| ==>
      FromUnits(units, defs[i]) && defs[i].code.name in table &&
      table[defs[i].code.name] == Find(units[defs[i].unit].table, defs[i].code.name)
  }

  /** What check_merge_symbol accepts of a group: objects of one type, which is not that of a function. */
  predicate GroupAgrees(units: seq<Unit>, group: seq<TagIt>)
    requires IsGroup(units, group)
  {
    !EntryAt(units, group[0]).symbol.ty.isFunction &&
    forall i {:trigger group[i]} :: 0 <= i < |group| ==>
      EntryAt(units, group[i]).symbol.kind == ObjectName && EntryAt(units, group[i]).symbol.ty == EntryAt(units, group[0]).symbol.ty
  }

  /** Entries with the same name, in whatever files, that can be one symbol. */
  predicate SameSymbol(a: Symbol, b: Symbol) {
    a.kind == ObjectName && b.kind == ObjectName && a.ty == b.ty && !a.ty.isFunction
  }

  predicate Named(units: seq<Unit>, t: TagIt, name: string) {
    InTables(units, t) && EntryAt(units, t).name == name
  }

  /** All declarations of a name agree. */
  ghost predicate Agrees(units: seq<Unit>, name: string) {
    forall s, t {:trigger Named(units, s, name), Named(units, t, name)} :: Named(units, s, name) && Named(units, t, name) ==>
      SameSymbol(EntryAt(units, s).symbol, EntryAt(units, t).symbol)
  }

  lemma {:induction false} MemberAgrees(units: seq<Unit>, group: seq<TagIt>, s: TagIt, t: TagIt)
    requires IsGroup(units, group) && GroupAgrees(units, group) && s in group && t in group
    ensures InTables(units, s) && InTables(units, t) && SameSymbol(EntryAt(units, s).symbol, EntryAt(units, t).symbol)
  {
  }

  lemma {:induction false} AgreesFromGroup(units: seq<Unit>, groups: seq<seq<TagIt>>, g: nat)
    requires LinkMerge.Merged(units, groups) && g < |groups| && GroupAgrees(units, groups[g])
    ensures Agrees(units, GroupName(units, groups[g]))
  {
    var name := GroupName(units, groups[g]);
    hide IsGroup, GroupAgrees, SameSymbol, LinkMerge.Merged;
    forall s, t | Named(units, s, name) && Named(units, t, name)
      ensures SameSymbol(EntryAt(units, s).symbol, EntryAt(units, t).symbol)
    {
      OneGroupPerName(units, groups, s, g);
      OneGroupPerName(units, groups, t, g);
      MemberAgrees(units, groups[g], s, t);
    }
  }

  lemma {:induction false} GroupFromAgrees(units: seq<Unit>, group: seq<TagIt>)
    requires IsGroup(units, group) && Agrees(units, GroupName(units, group))
    ensures GroupAgrees(units, group)
  {
    var name := GroupName(units, group);
    forall i | 0 <= i < |group|
      ensures SameSymbol(EntryAt(units, group[0]).symbol, EntryAt(units, group[i]).symbol)
    {
      assert Named(units, group[0], name) && Named(units, group[i], name);
    }
    assert Named(units, group[0], name);
  }

  /** The check of a group decides whether all files agree on its name. */
  lemma {:induction false} GroupAgreesIff(units: seq<Unit>, groups: seq<seq<TagIt>>, g: nat)
    requires LinkMerge.Merged(units, groups) && g < |groups|
    ensures GroupAgrees(units, groups[g]) <==> Agrees(units, GroupName(units, groups[g]))
  {
    hide GroupAgrees, Agrees;
    if GroupAgrees(units, groups[g]) { AgreesFromGroup(units, groups, g); }
    if Agrees(units, GroupName(units, groups[g])) { GroupFromAgrees(units, groups[g]); }
  }

  /** The new table's symbol for a name that no file defines as a function is one that some file has under that name, and
      all files agree on it. */
  ghost predicate DeclarationMapped(units: seq<Unit>, table: map<string, Symbol>, name: string) {
    name in table && Agrees(units, name) &&
    exists t :: Named(units, t, name) && EntryAt(units, t).symbol == table[name]
  }

  /** A merge that can succeed: no function is defined twice, and what is not defined is declared consistently, and not as a function. */
  ghost predicate Linkable(units: seq<Unit>) {
    DistinctNames(Definitions(units, |units|)) &&
    forall t {:trigger InTables(units, t)} :: InTables(units, t) ==>
      Defines(Definitions(units, |units|), EntryAt(units, t).name) || Agrees(units, EntryAt(units, t).name)
  }

  lemma {:induction false} DefinitionsGrow(units: seq<Unit>, m: nat, n: nat)
    requires m <= n <= |units|
    ensures Definitions(units, m) <= Definitions(units, n)
    decreases n
  {
    if m < n { DefinitionsGrow(units, m, n - 1); }
  }

  method MergeFunctions(units: seq<Unit>) returns (ok: bool, defs: seq<Definition>, table: map<string, Symbol>)
    requires WellFormedUnits(units)
    ensures ok <==> DistinctNames(Definitions(units, |units|))
    ensures ok ==> defs == Definitions(units, |units|) && FunctionsMapped(units, defs, table)
    ensures ok ==> forall name :: name in table <==> Defines(defs, name)
  {
    ok, defs, table := true, [], map[];
    for u := 0 to |units|
      invariant defs == Definitions(units, u) && DistinctNames(defs) && FunctionsMapped(units, defs, table)
      invariant forall name :: name in table <==> Defines(defs, name)
    {
      var fs := units[u].functions;
      assert WellFormedUnit(units[u]);
      for k := 0 to |fs|
        invariant defs == Definitions(units, u) + OfUnit(u, fs)[..k] && DistinctNames(defs) && FunctionsMapped(units, defs, table)
        invariant forall name :: name in table <==> Defines(defs, name)
      {
        var f := fs[k];
        if f.name in table {
          NotDistinct(units, u, k, defs);
          ok := false;
          return;
        }
        ghost var before := defs;
        defs := defs + [Definition(u, f)];
        table := table[f.name := Find(units[u].table, f.name)];
        OneMoreDefinition(units, before, Definition(u, f), f.name);
      }
    }
  }

  lemma {:induction false} NotDistinct(units: seq<Unit>, u: nat, k: nat, defs: seq<Definition>)
    requires u < |units| && k < |units[u].functions| && defs == Definitions(units, u) + OfUnit(u, units[u].functions)[..k]
    requires Defines(defs, units[u].functions[k].name)
    ensures !DistinctNames(Definitions(units, |units|))
  {
    var all := Definitions(units, |units|);
    var i :| 0 <= i < |defs| && defs[i].code.name == units[u].functions[k].name;
    DefinitionsGrow(units, u + 1, |units|);
    var upTo := Definitions(units, u + 1);
    assert upTo == Definitions(units, u) + OfUnit(u, units[u].functions);
    assert defs <= upTo;
    assert all[i] == defs[i] && all[|defs|] == upTo[|defs|] == Definition(u, units[u].functions[k]);
  }

  lemma {:induction false} OneMoreDefinition(units: seq<Unit>, defs: seq<Definition>, d: Definition, name: string)
    requires DistinctNames(defs) && !Defines(defs, name) && d.code.name == name
    ensures DistinctNames(defs + [d]) && forall n :: Defines(defs + [d], n) <==> Defines(defs, n) || n == name
  {
    var all := defs + [d];
    assert all[|defs|] == d;
    forall n
      ensures Defines(all, n) <==> Defines(defs, n) || n == name
    {
      if Defines(defs, n) {
        var i :| 0 <= i < |defs| && defs[i].code.name == n;
        assert all[i].code.name == n;
      }
    }
  }

  /** check_merge_symbol: goes through a group and compares each entry with the first. */
  method CheckMergeSymbol(units: seq<Unit>, group: seq<TagIt>) returns (ok: bool)
    requires IsGroup(units, group)
    ensures ok <==> GroupAgrees(units, group)
  {
    var first := EntryAt(units, group[0]).symbol;
    if first.ty.isFunction {
      return false;
    }
    for i := 0 to |group|
      invariant forall l {:trigger group[l]} :: 0 <= l < i ==>
        EntryAt(units, group[l]).symbol.kind == ObjectName && EntryAt(units, group[l]).symbol.ty == first.ty
    {
      var symbol := EntryAt(units, group[i]).symbol;
      if symbol.kind != ObjectName || symbol.ty != first.ty {
        return false;
      }
    }
    ok := true;
  }

  /** What the new table holds: every function under its definition, every other name as all files agree on it. */
  ghost predicate TableIsRight(units: seq<Unit>, defs: seq<Definition>, table: map<string, Symbol>) {
    FunctionsMapped(units, defs, table) &&
    forall name {:trigger name in table} :: name in table ==> Defines(defs, name) || DeclarationMapped(units, table, name)
  }

  lemma {:induction false} AddDeclaration(units: seq<Unit>, defs: seq<Definition>, table: map<string, Symbol>, t: TagIt, name: string)
    requires TableIsRight(units, defs, table) && name !in table && Named(units, t, name) && Agrees(units, name)
    ensures TableIsRight(units, defs, table[name := EntryAt(units, t).symbol])
  {
    hide Agrees, FromUnits;
    var table' := table[name := EntryAt(units, t).symbol];
    forall n | n in table'
      ensures Defines(defs, n) || DeclarationMapped(units, table', n)
    {
      assert n != name ==> n in table && table'[n] == table[n];
    }
  }

  /** All names of a merge's groups are names in the tables. */
  lemma {:induction false} GroupIsNamed(units: seq<Unit>, groups: seq<seq<TagIt>>, g: nat)
    requires LinkMerge.Merged(units, groups) && g < |groups|
    ensures IsGroup(units, groups[g]) && Named(units, groups[g][0], GroupName(units, groups[g]))
  {
  }

  lemma {:induction false} NotLinkable(units: seq<Unit>, defs: seq<Definition>, t: TagIt, name: string)
    requires defs == Definitions(units, |units|) && !Defines(defs, name) && Named(units, t, name) && !Agrees(units, name)
    ensures !Linkable(units)
  {
    assert InTables(units, t);
  }

  ghost predicate Decided(units: seq<Unit>, defs: seq<Definition>, table: map<string, Symbol>, name: string) {
    name in table && (Defines(defs, name) || Agrees(units, name))
  }

  lemma {:induction false} InTableIsDecided(units: seq<Unit>, defs: seq<Definition>, table: map<string, Symbol>, name: string)
    requires TableIsRight(units, defs, table) && name in table
    ensures Decided(units, defs, table, name)
  {
    hide FunctionsMapped, Defines, Agrees;
  }

  /** One group: its name is in the table already, or the group is checked and its first symbol taken. */
  method MergeGroup(units: seq<Unit>, ghost groups: seq<seq<TagIt>>, ghost g: nat, group: seq<TagIt>, ghost defs: seq<Definition>,
                    before: map<string, Symbol>) returns (ok: bool, table: map<string, Symbol>)
    requires LinkMerge.Merged(units, groups) && g < |groups| && groups[g] == group && TableIsRight(units, defs, before)
    requires defs == Definitions(units, |units|) && IsGroup(units, group)
    ensures ok ==> TableIsRight(units, defs, table) && Decided(units, defs, table, GroupName(units, group))
    ensures ok ==> forall name :: name in before ==> name in table
    ensures !ok ==> !Linkable(units)
  {
    hide FunctionsMapped, Defines, Agrees, GroupAgrees, TableIsRight, Linkable, DistinctNames, LinkMerge.Merged, Decided;
    table := before;
    GroupIsNamed(units, groups, g);
    var name := GroupName(units, group);
    ok := true;
    if name !in table {
      GroupAgreesIff(units, groups, g);
      ok := CheckMergeSymbol(units, group);
      NameDefined(units, defs, table, name);
      if !ok {
        NotLinkable(units, defs, group[0], name);
        return;
      }
      AddDeclaration(units, defs, table, group[0], name);
      table := table[name := EntryAt(units, group[0]).symbol];
    }
    InTableIsDecided(units, defs, table, name);
  }

  lemma {:induction false} NameDefined(units: seq<Unit>, defs: seq<Definition>, table: map<string, Symbol>, name: string)
    requires TableIsRight(units, defs, table) && name !in table
    ensures !Defines(defs, name)
  {
  }

  ghost predicate DecidedUpTo(units: seq<Unit>, groups: seq<seq<TagIt>>, n: nat, defs: seq<Definition>, table: map<string, Symbol>) {
    n <= |groups| && forall g {:trigger groups[g]} :: 0 <= g < n ==>
      IsGroup(units, groups[g]) && Decided(units, defs, table, GroupName(units, groups[g]))
  }

  lemma {:induction false} OneMoreDecided(units: seq<Unit>, groups: seq<seq<TagIt>>, n: nat, defs: seq<Definition>,
                                          table: map<string, Symbol>, table': map<string, Symbol>)
    requires DecidedUpTo(units, groups, n, defs, table) && n < |groups| && IsGroup(units, groups[n])
    requires (forall name :: name in table ==> name in table') && Decided(units, defs, table', GroupName(units, groups[n]))
    ensures DecidedUpTo(units, groups, n + 1, defs, table')
  {
    hide Defines, Agrees, IsGroup;
  }

  lemma {:induction false} EveryEntryDecided(units: seq<Unit>, groups: seq<seq<TagIt>>, defs: seq<Definition>, table: map<string, Symbol>)
    requires LinkMerge.Merged(units, groups) && defs == Definitions(units, |units|) && DistinctNames(defs)
    requires DecidedUpTo(units, groups, |groups|, defs, table)
    ensures Linkable(units)
    ensures forall t {:trigger InTables(units, t)} :: InTables(units, t) ==> EntryAt(units, t).name in table
  {
    hide Defines, Agrees, DistinctNames;
    forall t | InTables(units, t)
      ensures Decided(units, defs, table, EntryAt(units, t).name)
    {
      assert InGroups(groups, t);
      var g :| 0 <= g < |groups| && t in groups[g];
      InGroupHasName(units, groups[g], t);
    }
  }

  lemma {:induction false} MergedGroup(units: seq<Unit>, groups: seq<seq<TagIt>>, g: nat)
    requires LinkMerge.Merged(units, groups) && g < |groups|
    ensures IsGroup(units, groups[g])
  {
  }

  method MergeGroups(units: seq<Unit>, groups: seq<seq<TagIt>>, ghost defs: seq<Definition>, functions: map<string, Symbol>)
    returns (ok: bool, table: map<string, Symbol>)
    requires LinkMerge.Merged(units, groups) && TableIsRight(units, defs, functions) && defs == Definitions(units, |units|)
    ensures ok ==> TableIsRight(units, defs, table) && DecidedUpTo(units, groups, |groups|, defs, table)
    ensures !ok ==> !Linkable(units)
  {
    ok, table := true, functions;
    assert DecidedUpTo(units, groups, 0, defs, table);
    hide Decided, IsGroup, LinkMerge.Merged, TableIsRight, Linkable, DecidedUpTo;
    for g := 0 to |groups|
      invariant TableIsRight(units, defs, table) && DecidedUpTo(units, groups, g, defs, table)
    {
      MergedGroup(units, groups, g);
      ghost var before := table;
      ok, table := MergeGroup(units, groups, g, groups[g], defs, table);
      if !ok {
        return;
      }
      OneMoreDecided(units, groups, g, defs, before, table);
    }
    ok := true;
  }

  /** Linking succeeds exactly on linkable files, and its table then has every name of every file. */
  method MergeTables(units: seq<Unit>) returns (ok: bool, defs: seq<Definition>, table: map<string, Symbol>)
    requires WellFormedUnits(units)
    ensures ok <==> Linkable(units)
    ensures ok ==> defs == Definitions(units, |units|) && TableIsRight(units, defs, table)
    ensures ok ==> forall t {:trigger InTables(units, t)} :: InTables(units, t) ==> EntryAt(units, t).name in table
  {
    hide Decided, IsGroup, LinkMerge.Merged, FunctionsMapped, DistinctNames, TableIsRight, DecidedUpTo, Agrees, Defines;
    ok, defs, table := MergeFunctions(units);
    if !ok {
      return;
    }
    var pool := new TagItPool(units);
    var groups := pool.AllGroups();
    FunctionsAreRight(units, defs, table);
    ok, table := MergeGroups(units, groups, defs, table);
    if ok { EveryEntryDecided(units, groups, defs, table); }
  }

  lemma {:induction false} FunctionsAreRight(units: seq<Unit>, defs: seq<Definition>, table: map<string, Symbol>)
    requires FunctionsMapped(units, defs, table) && forall name :: name in table <==> Defines(defs, name)
    ensures TableIsRight(units, defs, table)
  {
  }
}
