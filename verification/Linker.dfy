/** The linker as a whole: one table, references moved to it, and the unneeded removed. */
module Linker {
  import opened Wrappers
  import opened IL
  import opened LinkNames
  import opened LinkObjects
  import opened LinkMerge
  import opened LinkSymbols
  import opened LinkPurge

  // ----- Relinking -----

  function RelinkedOperand(o: Operand, from: Scope, linked: Scope): Operand {
    if IsGlobal(o, from) then o.(sym := Some(SymbolRef(linked, o.sym.value.name))) else o
  }

  function RelinkedInstr(il: Instr, from: Scope, linked: Scope): (r: Instr)
    ensures r.op == il.op && |r.args| == |il.args|
    ensures forall k :: 0 <= k < |r.args| ==> r.args[k] == RelinkedOperand(il.args[k], from, linked)
  {
    il.(args := seq(|il.args|, k requires 0 <= k < |il.args| => RelinkedOperand(il.args[k], from, linked)))
  }

  function RelinkedBody(body: Body, from: Scope, linked: Scope): (r: Body)
    ensures |r| == |body| && forall j :: 0 <= j < |r| ==> r[j] == RelinkedInstr(body[j], from, linked)
  {
    seq(|body|, j requires 0 <= j < |body| => RelinkedInstr(body[j], from, linked))
  }

  /** What relinking may do to an operand: a reference to the file's table becomes one to the symbol of the same name in
      the new scope and keeps every other field, and any other operand stays what it is. */
  predicate SameOperand(o: Operand, from: Scope, linked: Scope, o': Operand) {
    if o.kind == Variable && o.sym.Some? && o.sym.value.scope == from then
      o'.kind == Variable && o'.ty == o.ty && o'.ivalue == o.ivalue && o'.uvalue == o.uvalue && o'.rvalue == o.rvalue &&
      o'.svalue == o.svalue && o'.objectType == o.objectType &&
      o'.sym.Some? && o'.sym.value.name == o.sym.value.name && o'.sym.value.scope == linked
    else o' == o
  }

  /** Instruction by instruction the same opcodes and as many operands, each of them the same. */
  predicate SameCode(body: Body, from: Scope, linked: Scope, body': Body) {
    |body'| == |body| && forall j {:trigger body'[j]} :: 0 <= j < |body| ==>
      body'[j].op == body[j].op && |body'[j].args| == |body[j].args| &&
      forall k {:trigger body'[j].args[k]} :: 0 <= k < |body[j].args| ==> SameOperand(body[j].args[k], from, linked, body'[j].args[k])
  }

  lemma {:induction false} RelinkedOperandIsSame(o: Operand, from: Scope, linked: Scope)
    ensures SameOperand(o, from, linked, RelinkedOperand(o, from, linked))
  {
  }

  /** Relinking leaves everything but the scopes of references alone. */
  lemma {:induction false} RelinkedIsSame(body: Body, from: Scope, linked: Scope)
    ensures SameCode(body, from, linked, RelinkedBody(body, from, linked))
  {
    hide SameOperand, RelinkedOperand;
    var r := RelinkedBody(body, from, linked);
    forall j, k {:trigger r[j].args[k]} | 0 <= j < |body| && 0 <= k < |body[j].args|
      ensures SameOperand(body[j].args[k], from, linked, r[j].args[k])
    {
      RelinkedOperandIsSame(body[j].args[k], from, linked);
    }
  }

  predicate Mentions(body: Body, scope: Scope) {
    exists j, k :: 0 <= j < |body| && 0 <= k < |body[j].args| && IsGlobal(body[j].args[k], scope)
  }

  lemma {:induction false} StillRefers(body: Body, from: Scope, linked: Scope, name: string)
    requires Refers(body, from, name)
    ensures Refers(RelinkedBody(body, from, linked), linked, name)
  {
    var r := RelinkedBody(body, from, linked);
    var j :| 0 <= j < |body| && InstrRefers(body[j], from, name);
    var k :| 0 <= k < |body[j].args| && IsGlobal(body[j].args[k], from) && body[j].args[k].sym.value.name == name;
    assert IsGlobal(r[j].args[k], linked) && r[j].args[k].sym.value.name == name;
    assert InstrRefers(r[j], linked, name);
  }

  lemma {:induction false} AlreadyReferred(body: Body, from: Scope, linked: Scope, name: string)
    requires !Mentions(body, linked) && Refers(RelinkedBody(body, from, linked), linked, name)
    ensures Refers(body, from, name)
  {
    var r := RelinkedBody(body, from, linked);
    var j :| 0 <= j < |r| && InstrRefers(r[j], linked, name);
    var k :| 0 <= k < |r[j].args| && IsGlobal(r[j].args[k], linked) && r[j].args[k].sym.value.name == name;
    assert !IsGlobal(body[j].args[k], linked);
    assert InstrRefers(body[j], from, name);
  }

  /** After relinking, a body refers to exactly the names in the new scope that it referred to in its file's. */
  lemma {:induction false} RelinkedRefers(body: Body, from: Scope, linked: Scope, name: string)
    requires !Mentions(body, linked)
    ensures Refers(RelinkedBody(body, from, linked), linked, name) <==> Refers(body, from, name)
  {
    hide Refers, RelinkedBody, Mentions;
    if Refers(body, from, name) { StillRefers(body, from, linked, name); }
    if Refers(RelinkedBody(body, from, linked), linked, name) { AlreadyReferred(body, from, linked, name); }
  }

  /** Rewrites the references of one function, operand by operand. */
  method RelinkBody(body: Body, from: Scope, linked: Scope) returns (r: Body)
    ensures r == RelinkedBody(body, from, linked) && SameCode(body, from, linked, r)
  {
    hide SameOperand;
    RelinkedIsSame(body, from, linked);
    r := body;
    for j := 0 to |body|
      invariant |r| == |body| && (forall l :: 0 <= l < j ==> r[l] == RelinkedInstr(body[l], from, linked))
      invariant forall l :: j <= l < |body| ==> r[l] == body[l]
    {
      var args := r[j].args;
      for k := 0 to |args|
        invariant |args| == |body[j].args| && (forall l :: 0 <= l < k ==> args[l] == RelinkedOperand(body[j].args[l], from, linked))
        invariant forall l :: k <= l < |args| ==> args[l] == body[j].args[l]
      {
        if IsGlobal(args[k], from) {
          args := args[k := args[k].(sym := Some(SymbolRef(linked, args[k].sym.value.name)))];
        }
      }
      assert args == RelinkedInstr(body[j], from, linked).args;
      r := r[j := r[j].(args := args)];
    }
  }

  function RelinkedFunction(units: seq<Unit>, d: Definition, linked: Scope): LinkFunction
    requires d.unit < |units|
  {
    LinkFunction(d.code.name, RelinkedBody(d.code.body, units[d.unit].scope, linked))
  }

  // ----- What the compiler guarantees of object files -----

  /** A file's functions refer to names in its own table, and to nothing in the new scope. */
  ghost predicate SelfContained(u: Unit, linked: Scope) {
    forall k {:trigger u.functions[k]} :: 0 <= k < |u.functions| ==>
      !Mentions(u.functions[k].body, linked) &&
      forall name :: Refers(u.functions[k].body, u.scope, name) ==> name in Names(u.table)
  }

  ghost predicate AllSelfContained(units: seq<Unit>, linked: Scope) {
    forall u {:trigger units[u]} :: 0 <= u < |units| ==> SelfContained(units[u], linked)
  }

  ghost predicate IsMerge(units: seq<Unit>, linked: Scope, p: Program) {
    p.scope == linked && |p.functions| == |Definitions(units, |units|)| && TableIsRight(units, Definitions(units, |units|), p.symbols) &&
    (forall t {:trigger InTables(units, t)} :: InTables(units, t) ==> EntryAt(units, t).name in p.symbols) &&
    forall i {:trigger p.functions[i]} :: 0 <= i < |p.functions| ==>
      Definitions(units, |units|)[i].unit < |units| && p.functions[i] == RelinkedFunction(units, Definitions(units, |units|)[i], linked)
  }

  lemma {:induction false} NameIsInTables(units: seq<Unit>, u: nat, name: string) returns (t: TagIt)
    requires u < |units| && name in Names(units[u].table)
    ensures InTables(units, t) && EntryAt(units, t).name == name
  {
    var k :| 0 <= k < |units[u].table| && units[u].table[k].name == name;
    t := TagIt(u, k);
  }

  /** The symbol that a name maps to carries that name. */
  lemma {:induction false} SymbolsKeepNames(units: seq<Unit>, linked: Scope, p: Program, name: string)
    requires WellFormedUnits(units) && IsMerge(units, linked, p) && name in p.symbols
    ensures p.symbols[name].name == name
  {
    var defs := Definitions(units, |units|);
    hide Definitions, Agrees, LinkMerge.Merged;
    if Defines(defs, name) {
      var i :| 0 <= i < |defs| && defs[i].code.name == name;
      assert FromUnits(units, defs[i]);
      assert WellFormedUnit(units[defs[i].unit]);
    } else {
      assert DeclarationMapped(units, p.symbols, name);
      var t :| Named(units, t, name) && EntryAt(units, t).symbol == p.symbols[name];
      assert WellFormedUnit(units[t.unit]);
    }
  }

  /** A reference in a merged program comes from one in the file that defines the function, and resolves in the new table. */
  lemma {:induction false} ReferencesResolve(units: seq<Unit>, linked: Scope, p: Program, i: nat, name: string)
    requires WellFormedUnits(units) && AllSelfContained(units, linked) && IsMerge(units, linked, p) && i < |p.functions|
    requires Refers(p.functions[i].body, linked, name)
    ensures var d := Definitions(units, |units|)[i]; Refers(d.code.body, units[d.unit].scope, name)
    ensures name in p.symbols && p.symbols[name].name == name
  {
    var d := Definitions(units, |units|)[i];
    DefinitionIsFromUnits(units, p.symbols, i);
    hide Refers, TableIsRight, Definitions;
    assert p.functions[i] == RelinkedFunction(units, d, linked);
    assert SelfContained(units[d.unit], linked);
    RelinkedRefers(d.code.body, units[d.unit].scope, linked, name);
    var t := NameIsInTables(units, d.unit, name);
    SymbolsKeepNames(units, linked, p, name);
  }

  lemma {:induction false} DefinitionIsFromUnits(units: seq<Unit>, table: map<string, Symbol>, i: nat)
    requires TableIsRight(units, Definitions(units, |units|), table) && i < |Definitions(units, |units|)|
    ensures FromUnits(units, Definitions(units, |units|)[i]) && Definitions(units, |units|)[i].code.name in table
  {
  }

  /** A merged program is closed: purging it finds every symbol it looks up. */
  lemma {:induction false} MergeIsClosed(units: seq<Unit>, linked: Scope, p: Program)
    requires WellFormedUnits(units) && AllSelfContained(units, linked) && IsMerge(units, linked, p) && DistinctNames(Definitions(units, |units|))
    ensures Closed(p)
  {
    hide Refers, TableIsRight, AllSelfContained, Definitions;
    var defs := Definitions(units, |units|);
    forall i | 0 <= i < |p.functions|
      ensures p.functions[i].name == defs[i].code.name && p.functions[i].name in p.symbols
    {
      DefinitionIsFromUnits(units, p.symbols, i);
    }
    forall k, name {:trigger Refers(p.functions[k].body, p.scope, name)} | 0 <= k < |p.functions| && Refers(p.functions[k].body, p.scope, name)
      ensures name in p.symbols
    {
      ReferencesResolve(units, linked, p, k, name);
    }
  }

  /** Some file defines a function of that name with the same code. */
  predicate FromFile(units: seq<Unit>, linked: Scope, f: LinkFunction) {
    exists u, k :: 0 <= u < |units| && 0 <= k < |units[u].functions| && units[u].functions[k].name == f.name &&
      SameCode(units[u].functions[k].body, units[u].scope, linked, f.body)
  }

  /** Every function of a merged program has the code of the file that defines it, its references moved to the new table. */
  lemma {:induction false} MergedCode(units: seq<Unit>, linked: Scope, p: Program, i: nat)
    requires IsMerge(units, linked, p) && i < |p.functions|
    ensures FromFile(units, linked, p.functions[i])
  {
    var d := Definitions(units, |units|)[i];
    DefinitionIsFromUnits(units, p.symbols, i);
    hide TableIsRight, Definitions, SameCode, RelinkedBody;
    assert p.functions[i] == RelinkedFunction(units, d, linked);
    RelinkedIsSame(d.code.body, units[d.unit].scope, linked);
    var k :| 0 <= k < |units[d.unit].functions| && units[d.unit].functions[k] == d.code;
  }

  lemma {:induction false} KeptCode(units: seq<Unit>, linked: Scope, p: Program, fs: seq<LinkFunction>)
    requires IsMerge(units, linked, p) && Known(p, fs)
    ensures forall f :: f in fs ==> FromFile(units, linked, f)
  {
    hide IsMerge, FromFile;
    forall f | f in fs
      ensures FromFile(units, linked, f)
    {
      var i :| 0 <= i < |p.functions| && p.functions[i] == f;
      MergedCode(units, linked, p, i);
    }
  }

  method Relink(units: seq<Unit>, defs: seq<Definition>, linked: Scope) returns (functions: seq<LinkFunction>)
    requires forall i {:trigger defs[i]} :: 0 <= i < |defs| ==> defs[i].unit < |units|
    ensures |functions| == |defs| && forall i :: 0 <= i < |defs| ==> functions[i] == RelinkedFunction(units, defs[i], linked)
  {
    functions := [];
    for i := 0 to |defs|
      invariant |functions| == i && forall l :: 0 <= l < i ==> functions[l] == RelinkedFunction(units, defs[l], linked)
    {
      var body := RelinkBody(defs[i].code.body, units[defs[i].unit].scope, linked);
      functions := functions + [LinkFunction(defs[i].code.name, body)];
    }
  }

  predicate DefinesMain(units: seq<Unit>) {
    Defines(Definitions(units, |units|), "main")
  }

  lemma {:induction false} MainIsDefined(units: seq<Unit>, linked: Scope, p: Program)
    requires IsMerge(units, linked, p)
    ensures "main" in FunctionNames(p.functions) <==> DefinesMain(units)
  {
    hide TableIsRight, Definitions;
    var defs := Definitions(units, |units|);
    assert forall i :: 0 <= i < |defs| ==> p.functions[i].name == defs[i].code.name;
  }

  lemma {:induction false} UnitsOfDefinitions(units: seq<Unit>, defs: seq<Definition>, table: map<string, Symbol>)
    requires TableIsRight(units, defs, table)
    ensures forall i {:trigger defs[i]} :: 0 <= i < |defs| ==> defs[i].unit < |units|
  {
  }

  /** Links object files. It fails exactly if the files are not linkable or none defines `main`; otherwise the result is the
      part of the merged program that `main` can reach. */
  method Link(units: seq<Unit>, linked: Scope) returns (r: Option<Program>, ghost merged: Program)
    requires WellFormedUnits(units) && AllSelfContained(units, linked)
    ensures r.None? <==> !Linkable(units) || !DefinesMain(units)
    ensures r.Some? ==> IsMerge(units, linked, merged) && Closed(merged) && r.value.scope == linked
    ensures r.Some? ==> DistinctFunctions(r.value.functions) && Known(merged, r.value.functions)
    ensures r.Some? ==> forall f :: f in r.value.functions ==> FromFile(units, linked, f)
    ensures r.Some? ==> forall name :: name in FunctionNames(r.value.functions) <==> Reachable(merged, name)
    ensures r.Some? ==> forall name :: name in r.value.symbols <==> Reachable(merged, name) || DataNeeded(merged, name)
    ensures r.Some? ==> forall name :: name in r.value.symbols ==> name in merged.symbols && r.value.symbols[name] == merged.symbols[name]
  {
    hide TableIsRight, AllSelfContained, Definitions, FromFile, Closed, Reachable, DataNeeded, DistinctNames, Agrees, Defines;
    var ok, defs, table := MergeTables(units);
    merged := Program(linked, table, []);
    if !ok {
      return None, merged;
    }
    UnitsOfDefinitions(units, defs, table);
    var functions := Relink(units, defs, linked);
    merged := Program(linked, table, functions);
    LinkableIsDistinct(units);
    MergeIsClosed(units, linked, merged);
    MainIsDefined(units, linked, merged);
    r := PurgeProgram(Program(linked, table, functions));
    if r.Some? { KeptCode(units, linked, merged, r.value.functions); }
  }

  lemma {:induction false} LinkableIsDistinct(units: seq<Unit>)
    requires Linkable(units)
    ensures DistinctNames(Definitions(units, |units|))
  {
  }
}
