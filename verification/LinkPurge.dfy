/** Removal of everything that is not needed to run `main`. */
module LinkPurge {
  import opened Wrappers
  import opened IL
  import opened LinkObjects

  /** A linked program: its global scope, the symbol table, and the functions. */
  datatype Program = Program(scope: Scope, symbols: map<string, Symbol>, functions: seq<LinkFunction>)

  /** The operand is a reference to a global. */
  predicate IsGlobal(o: Operand, scope: Scope) {
    o.kind == Variable && o.sym.Some? && o.sym.value.scope == scope
  }

  predicate InstrRefers(il: Instr, scope: Scope, name: string) {
    exists k :: 0 <= k < |il.args| && IsGlobal(il.args[k], scope) && il.args[k].sym.value.name == name
  }

  predicate Refers(body: Body, scope: Scope, name: string) {
    exists j :: 0 <= j < |body| && InstrRefers(body[j], scope, name)
  }

  predicate DistinctFunctions(fs: seq<LinkFunction>) {
    forall i, j {:trigger fs[i], fs[j]} :: 0 <= i < j < |fs| ==> fs[i].name != fs[j].name
  }

  function FunctionNames(fs: seq<LinkFunction>): set<string> {
    set k | 0 <= k < |fs| :: fs[k].name
  }

  /** Functions have different names, and the table has every function and every global referred to. */
  ghost predicate Closed(p: Program) {
    DistinctFunctions(p.functions) && FunctionNames(p.functions) <= p.symbols.Keys &&
    forall k, name {:trigger Refers(p.functions[k].body, p.scope, name)} :: 0 <= k < |p.functions| && Refers(p.functions[k].body, p.scope, name) ==>
      name in p.symbols
  }

  /** The function named `f` refers to the global `name`. */
  predicate Uses(p: Program, f: string, name: string) {
    exists k :: 0 <= k < |p.functions| && p.functions[k].name == f && Refers(p.functions[k].body, p.scope, name)
  }

  /** A chain of functions from `main` on, each referring to the next. */
  predicate IsChain(p: Program, chain: seq<string>) {
    chain != [] && chain[0] == "main" && (forall k {:trigger chain[k]} :: 0 <= k < |chain| ==> chain[k] in FunctionNames(p.functions)) &&
    forall k {:trigger chain[k]} :: 0 < k < |chain| ==> Uses(p, chain[k - 1], chain[k])
  }

  ghost predicate Reachable(p: Program, name: string) {
    exists chain :: IsChain(p, chain) && chain[|chain| - 1] == name
  }

  /** A global that a reachable function refers to and that is not a function. */
  ghost predicate DataNeeded(p: Program, name: string) {
    name !in FunctionNames(p.functions) && exists f :: Reachable(p, f) && Uses(p, f, name)
  }

  lemma {:induction false} MainIsReachable(p: Program)
    requires "main" in FunctionNames(p.functions)
    ensures Reachable(p, "main")
  {
    assert IsChain(p, ["main"]);
  }

  lemma {:induction false} UsedIsReachable(p: Program, f: string, name: string)
    requires Reachable(p, f) && Uses(p, f, name) && name in FunctionNames(p.functions)
    ensures Reachable(p, name)
  {
    var chain :| IsChain(p, chain) && chain[|chain| - 1] == f;
    assert IsChain(p, chain + [name]);
    assert (chain + [name])[|chain|] == name;
  }

  /** A set of functions with `main` that has every function its members refer to has every reachable function. */
  lemma {:induction false} ChainStaysInside(p: Program, inside: set<string>, chain: seq<string>)
    requires "main" in inside && IsChain(p, chain)
    requires forall f, name {:trigger Uses(p, f, name)} :: f in inside && Uses(p, f, name) && name in FunctionNames(p.functions) ==> name in inside
    ensures chain[|chain| - 1] in inside
    decreases |chain|
  {
    if |chain| > 1 {
      var front := chain[..|chain| - 1];
      assert IsChain(p, front);
      ChainStaysInside(p, inside, front);
      assert Uses(p, chain[|chain| - 2], chain[|chain| - 1]);
    }
  }

  // ----- The worklist -----

  /** The functions in the order they were kept, the symbols kept, the symbols left, and the functions still to look at. */
  datatype Work = Work(funcs: seq<LinkFunction>, purged: map<string, Symbol>, left: map<string, Symbol>, queue: seq<LinkFunction>)

  /** The name needs no more looking at: it is kept, or it is a function in the queue. */
  predicate Settled(w: Work, name: string) {
    name in w.purged || name in FunctionNames(w.queue)
  }

  /** What holds of the maps: kept and left symbols share out the original table. */
  predicate SharedOut(p: Program, w: Work) {
    (forall name :: name in w.purged ==> name in p.symbols && w.purged[name] == p.symbols[name]) &&
    (forall name :: name in p.symbols && name !in w.purged ==> name in w.left && w.left[name] == p.symbols[name])
  }

  predicate Known(p: Program, fs: seq<LinkFunction>) {
    forall k {:trigger fs[k]} :: 0 <= k < |fs| ==> fs[k] in p.functions
  }

  /** Everything kept or queued is needed, and whatever a kept function refers to is settled. */
  ghost predicate Sound(p: Program, w: Work) {
    Known(p, w.funcs) && Known(p, w.queue) && DistinctFunctions(w.funcs) && SharedOut(p, w) &&
    (forall k {:trigger w.queue[k]} :: 0 <= k < |w.queue| ==> Reachable(p, w.queue[k].name)) &&
    (forall name :: name in FunctionNames(w.funcs) ==> Reachable(p, name)) &&
    (forall name :: name in w.purged ==> name in FunctionNames(w.funcs) || DataNeeded(p, name)) &&
    (forall name :: name in FunctionNames(w.funcs) ==> name in w.purged)
  }

  ghost predicate Complete(p: Program, w: Work) {
    (forall f, name {:trigger Uses(p, f, name)} :: f in FunctionNames(w.funcs) && Uses(p, f, name) ==> Settled(w, name)) &&
    Settled(w, "main")
  }

  lemma {:induction false} KnownNames(p: Program, fs: seq<LinkFunction>)
    requires Known(p, fs)
    ensures FunctionNames(fs) <= FunctionNames(p.functions)
  {
  }

  /** With nothing in the queue, exactly the reachable functions and the data they refer to have been kept. */
  lemma {:induction false} NothingMissing(p: Program, w: Work)
    requires Closed(p) && Sound(p, w) && Complete(p, w) && w.queue == []
    ensures forall name :: name in FunctionNames(w.funcs) <==> Reachable(p, name)
    ensures forall name :: name in w.purged <==> Reachable(p, name) || DataNeeded(p, name)
  {
    assert FunctionNames(w.queue) == {};
    var inside := FunctionNames(w.funcs);
    KnownNames(p, w.funcs);
    forall name | Reachable(p, name)
      ensures name in inside
    {
      var chain :| IsChain(p, chain) && chain[|chain| - 1] == name;
      FunctionsKept(p, w);
      ChainStaysInside(p, inside, chain);
    }
    forall name | DataNeeded(p, name)
      ensures name in w.purged
    {
      var f :| Reachable(p, f) && Uses(p, f, name);
      assert f in inside;
    }
  }

  /** A function that is kept as a symbol is kept as a function. */
  lemma {:induction false} FunctionsKept(p: Program, w: Work)
    requires Sound(p, w) && Complete(p, w) && w.queue == []
    ensures "main" in FunctionNames(p.functions) ==> "main" in FunctionNames(w.funcs)
    ensures forall f, name {:trigger Uses(p, f, name)} ::
      f in FunctionNames(w.funcs) && Uses(p, f, name) && name in FunctionNames(p.functions) ==> name in FunctionNames(w.funcs)
  {
    assert FunctionNames(w.queue) == {};
  }

  // ----- Single steps -----

  /** The function map finds functions by their names. */
  predicate FunctionMap(p: Program, funcs: map<string, LinkFunction>) {
    funcs.Keys == FunctionNames(p.functions) && forall name {:trigger funcs[name]} :: name in funcs ==>
      funcs[name] in p.functions && funcs[name].name == name
  }

  /** A reference to `name`: a function is queued, anything else is kept; nothing is done if the name is kept already. */
  function Visit(w: Work, funcs: map<string, LinkFunction>, name: string): Work {
    if name in w.purged then w
    else if name in funcs then w.(queue := w.queue + [funcs[name]])
    else if name in w.left then w.(purged := w.purged[name := w.left[name]], left := w.left - {name})
    else w
  }

  /** Nothing settled is unsettled. */
  ghost predicate Grows(w: Work, w': Work) {
    w'.funcs == w.funcs && w.queue <= w'.queue && forall name :: Settled(w, name) ==> Settled(w', name)
  }

  lemma {:induction false} QueueNames(queue: seq<LinkFunction>, f: LinkFunction)
    ensures FunctionNames(queue + [f]) == FunctionNames(queue) + {f.name}
  {
    assert (queue + [f])[|queue|] == f;
    forall name | name in FunctionNames(queue)
      ensures name in FunctionNames(queue + [f])
    {
      var k :| 0 <= k < |queue| && queue[k].name == name;
      assert (queue + [f])[k] == queue[k];
    }
  }

  lemma {:induction false} UsedIsInTable(p: Program, f: string, name: string)
    requires Closed(p) && Uses(p, f, name)
    ensures name in p.symbols
  {
  }

  lemma {:induction false} QueueIsSound(p: Program, w: Work, f: LinkFunction)
    requires Sound(p, w) && f in p.functions && Reachable(p, f.name)
    ensures var w' := w.(queue := w.queue + [f]); Sound(p, w') && Grows(w, w') && Settled(w', f.name)
  {
    hide Reachable, DataNeeded, DistinctFunctions;
    QueueNames(w.queue, f);
  }

  lemma {:induction false} DataIsSound(p: Program, w: Work, name: string)
    requires Sound(p, w) && name in p.symbols && name !in w.purged && DataNeeded(p, name)
    ensures name in w.left
    ensures var w' := w.(purged := w.purged[name := w.left[name]], left := w.left - {name}); Sound(p, w') && Grows(w, w') && Settled(w', name)
  {
    hide Reachable, DataNeeded, DistinctFunctions, Known;
  }

  lemma {:induction false} VisitIsSound(p: Program, w: Work, funcs: map<string, LinkFunction>, f: string, name: string)
    requires Closed(p) && Sound(p, w) && FunctionMap(p, funcs) && Reachable(p, f) && Uses(p, f, name)
    ensures var w' := Visit(w, funcs, name); Sound(p, w') && Grows(w, w') && Settled(w', name)
  {
    UsedIsInTable(p, f, name);
    hide Closed, Uses, Sound, Reachable, Refers;
    if name !in w.purged {
      if name in funcs {
        UsedIsReachable(p, f, name);
        QueueIsSound(p, w, funcs[name]);
      } else {
        assert DataNeeded(p, name);
        DataIsSound(p, w, name);
      }
    }
  }

  /** The front of the queue is kept. */
  function Keep(w: Work, f: LinkFunction): Work {
    if f.name in w.left then
      Work(w.funcs + [f], w.purged[f.name := w.left[f.name]], w.left - {f.name}, w.queue)
    else w
  }

  lemma {:induction false} SettledKept(w: Work, f: LinkFunction)
    ensures forall name :: Settled(w, name) ==> Settled(Keep(w, f), name)
  {
  }

  lemma {:induction false} StillDistinct(fs: seq<LinkFunction>, f: LinkFunction)
    requires DistinctFunctions(fs) && f.name !in FunctionNames(fs)
    ensures DistinctFunctions(fs + [f])
  {
    assert forall k :: 0 <= k < |fs| ==> fs[k].name in FunctionNames(fs);
  }

  lemma {:induction false} StillKnown(p: Program, fs: seq<LinkFunction>, f: LinkFunction)
    requires Known(p, fs) && f in p.functions
    ensures Known(p, fs + [f])
  {
  }

  /** The front of the queue, which is not kept, is still in the table. */
  lemma {:induction false} FrontIsLeft(p: Program, w: Work)
    requires Closed(p) && Sound(p, w) && w.queue != [] && w.queue[0].name !in w.purged
    ensures var f := w.queue[0];
      f.name in w.left && w.left[f.name] == p.symbols[f.name] && f in p.functions && Reachable(p, f.name) && f.name !in FunctionNames(w.funcs)
  {
    hide Reachable, DataNeeded, Refers, DistinctFunctions;
    KnownNames(p, w.queue);
    assert w.queue[0].name in FunctionNames(w.queue);
  }

  lemma {:induction false} KeepIsSound(p: Program, w: Work)
    requires Closed(p) && Sound(p, w) && w.queue != [] && w.queue[0].name !in w.purged
    ensures var w' := Keep(w, w.queue[0]);
      Sound(p, w') && w'.funcs == w.funcs + [w.queue[0]] && w'.queue == w.queue && w.queue[0].name in w'.purged &&
      w.queue[0].name !in FunctionNames(w.funcs) && forall name :: Settled(w, name) ==> Settled(w', name)
  {
    var f := w.queue[0];
    FrontIsLeft(p, w);
    QueueNames(w.funcs, f);
    SettledKept(w, f);
    StillDistinct(w.funcs, f);
    StillKnown(p, w.funcs, f);
    hide Closed, Reachable, DataNeeded, Settled, Known, DistinctFunctions, FunctionNames;
  }

  /** The front of the queue has been dealt with. */
  lemma {:induction false} PopIsSound(p: Program, w: Work)
    requires Sound(p, w) && w.queue != [] && w.queue[0].name in w.purged
    ensures var w' := w.(queue := w.queue[1..]); Sound(p, w') && (Complete(p, w) ==> Complete(p, w'))
  {
    hide Reachable, DataNeeded, Uses;
    var w' := w.(queue := w.queue[1..]);
    forall name | name in FunctionNames(w.queue)
      ensures name in w.purged || name in FunctionNames(w'.queue)
    {
      var k :| 0 <= k < |w.queue| && w.queue[k].name == name;
      if k > 0 { assert w'.queue[k - 1] == w.queue[k]; }
    }
  }

  // ----- The program -----

  /** Everything the first `i` instructions refer to is settled. */
  predicate SettledUpTo(w: Work, body: Body, i: nat, scope: Scope) {
    forall j, k {:trigger body[j].args[k]} :: 0 <= j < i && j < |body| && 0 <= k < |body[j].args| && IsGlobal(body[j].args[k], scope) ==>
      Settled(w, body[j].args[k].sym.value.name)
  }

  predicate ArgsSettled(w: Work, args: seq<Operand>, n: nat, scope: Scope) {
    forall k {:trigger args[k]} :: 0 <= k < n && k < |args| && IsGlobal(args[k], scope) ==> Settled(w, args[k].sym.value.name)
  }

  lemma {:induction false} StaysSettled(w: Work, w': Work, body: Body, i: nat, scope: Scope, args: seq<Operand>, n: nat)
    requires SettledUpTo(w, body, i, scope) && ArgsSettled(w, args, n, scope) && Grows(w, w')
    ensures SettledUpTo(w', body, i, scope) && ArgsSettled(w', args, n, scope)
  {
  }

  lemma {:induction false} GrowsTrans(w: Work, w': Work, w'': Work)
    requires Grows(w, w') && Grows(w', w'')
    ensures Grows(w, w'')
  {
  }

  lemma {:induction false} OperandIsUsed(p: Program, f: LinkFunction, j: nat, k: nat)
    requires f in p.functions && j < |f.body| && k < |f.body[j].args| && IsGlobal(f.body[j].args[k], p.scope)
    ensures Uses(p, f.name, f.body[j].args[k].sym.value.name)
  {
    assert InstrRefers(f.body[j], p.scope, f.body[j].args[k].sym.value.name);
    assert Refers(f.body, p.scope, f.body[j].args[k].sym.value.name);
  }

  /** Looks at every operand of a function. */
  method CollectDependencies(p: Program, funcs: map<string, LinkFunction>, f: LinkFunction, start: Work) returns (w: Work)
    requires Closed(p) && Sound(p, start) && FunctionMap(p, funcs) && Reachable(p, f.name) && f in p.functions
    ensures Sound(p, w) && Grows(start, w) && SettledUpTo(w, f.body, |f.body|, p.scope)
  {
    hide Closed, Sound, Reachable, FunctionMap, Uses, Visit, Grows, Settled, SettledUpTo, ArgsSettled, IsGlobal;
    w := start;
    NothingVisited(start, f.body, p.scope);
    for j := 0 to |f.body|
      invariant Sound(p, w) && Grows(start, w) && SettledUpTo(w, f.body, j, p.scope)
    {
      var args := f.body[j].args;
      NoArgs(w, args, p.scope);
      for k := 0 to |args|
        invariant Sound(p, w) && Grows(start, w) && SettledUpTo(w, f.body, j, p.scope) && ArgsSettled(w, args, k, p.scope)
      {
        if IsGlobal(args[k], p.scope) {
          OperandIsUsed(p, f, j, k);
          GlobalHasName(args[k], p.scope);
          ghost var before := w;
          VisitIsSound(p, w, funcs, f.name, args[k].sym.value.name);
          w := Visit(w, funcs, args[k].sym.value.name);
          StaysSettled(before, w, f.body, j, p.scope, args, k);
          GrowsTrans(start, before, w);
        }
        OneMoreArg(w, args, k, p.scope);
      }
      OneMoreInstr(w, f.body, j, p.scope);
    }
  }

  lemma {:induction false} NothingVisited(w: Work, body: Body, scope: Scope)
    ensures Grows(w, w) && SettledUpTo(w, body, 0, scope)
  {
  }

  lemma {:induction false} NoArgs(w: Work, args: seq<Operand>, scope: Scope)
    ensures ArgsSettled(w, args, 0, scope)
  {
  }

  lemma {:induction false} GlobalHasName(o: Operand, scope: Scope)
    requires IsGlobal(o, scope)
    ensures o.sym.Some?
  {
  }

  lemma {:induction false} OneMoreArg(w: Work, args: seq<Operand>, k: nat, scope: Scope)
    requires ArgsSettled(w, args, k, scope) && k < |args|
    requires IsGlobal(args[k], scope) ==> Settled(w, args[k].sym.value.name)
    ensures ArgsSettled(w, args, k + 1, scope)
  {
  }

  lemma {:induction false} OneMoreInstr(w: Work, body: Body, j: nat, scope: Scope)
    requires SettledUpTo(w, body, j, scope) && j < |body| && ArgsSettled(w, body[j].args, |body[j].args|, scope)
    ensures SettledUpTo(w, body, j + 1, scope)
  {
    hide Settled;
    forall i, k {:trigger body[i].args[k]} | 0 <= i < j + 1 && 0 <= k < |body[i].args| && IsGlobal(body[i].args[k], scope)
      ensures Settled(w, body[i].args[k].sym.value.name)
    {
      var args := body[j].args;
      if i == j { assert args[k] == body[i].args[k]; }
    }
  }

  /** All references of the one function with a name are settled. */
  lemma {:induction false} UsesAreSettled(p: Program, w: Work, f: LinkFunction, name: string)
    requires DistinctFunctions(p.functions) && f in p.functions && SettledUpTo(w, f.body, |f.body|, p.scope) && Uses(p, f.name, name)
    ensures Settled(w, name)
  {
    hide Settled;
    var i :| 0 <= i < |p.functions| && p.functions[i] == f;
    var k :| 0 <= k < |p.functions| && p.functions[k].name == f.name && Refers(p.functions[k].body, p.scope, name);
    assert i == k;
    var j :| 0 <= j < |f.body| && InstrRefers(f.body[j], p.scope, name);
    var n :| 0 <= n < |f.body[j].args| && IsGlobal(f.body[j].args[n], p.scope) && f.body[j].args[n].sym.value.name == name;
  }

  method BuildFunctionMap(p: Program) returns (funcs: map<string, LinkFunction>)
    ensures FunctionMap(p, funcs)
  {
    funcs := map[];
    for k := 0 to |p.functions|
      invariant forall name :: name in funcs <==> exists j :: 0 <= j < k && p.functions[j].name == name
      invariant forall name {:trigger funcs[name]} :: name in funcs ==> funcs[name] in p.functions && funcs[name].name == name
    {
      var f := p.functions[k];
      if f.name !in funcs {
        funcs := funcs[f.name := f];
      }
    }
  }

  /** Keeps `main` and whatever can be reached from it. Without a `main` linking fails. */
  method PurgeProgram(p: Program) returns (r: Option<Program>)
    requires Closed(p)
    ensures r.None? <==> "main" !in FunctionNames(p.functions)
    ensures r.Some? ==> r.value.scope == p.scope && DistinctFunctions(r.value.functions) && Known(p, r.value.functions)
    ensures r.Some? ==> forall name :: name in FunctionNames(r.value.functions) <==> Reachable(p, name)
    ensures r.Some? ==> forall name :: name in r.value.symbols <==> Reachable(p, name) || DataNeeded(p, name)
    ensures r.Some? ==> forall name :: name in r.value.symbols ==> name in p.symbols && r.value.symbols[name] == p.symbols[name]
  {
    var funcs := BuildFunctionMap(p);
    if "main" !in funcs {
      return None;
    }
    var w := Work([], map[], p.symbols, [funcs["main"]]);
    WorkBegins(p, w);
    while w.queue != []
      invariant Sound(p, w) && Complete(p, w)
      decreases FunctionNames(p.functions) - FunctionNames(w.funcs), |w.queue|
    {
      w := PurgeStep(p, funcs, w);
    }
    NothingMissing(p, w);
    r := Some(Program(p.scope, w.purged, w.funcs));
  }

  lemma {:induction false} WorkBegins(p: Program, w: Work)
    requires Closed(p) && w.funcs == [] && w.purged == map[] && w.left == p.symbols && |w.queue| == 1
    requires w.queue[0] in p.functions && w.queue[0].name == "main"
    ensures Sound(p, w) && Complete(p, w)
  {
    MainIsReachable(p);
    hide Closed, Uses, Reachable, DataNeeded;
    assert FunctionNames(w.funcs) == {};
    assert w.queue[0].name in FunctionNames(w.queue);
  }

  /** One round: the front of the queue is kept, with everything it refers to, unless it has been kept before. */
  method PurgeStep(p: Program, funcs: map<string, LinkFunction>, start: Work) returns (w: Work)
    requires Closed(p) && Sound(p, start) && Complete(p, start) && FunctionMap(p, funcs) && start.queue != []
    ensures Sound(p, w) && Complete(p, w)
    ensures (w.funcs == start.funcs && |w.queue| < |start.queue|) ||
            FunctionNames(p.functions) - FunctionNames(w.funcs) < FunctionNames(p.functions) - FunctionNames(start.funcs)
  {
    hide Closed, Sound, FunctionMap, SettledUpTo, Uses, Grows, Reachable, Keep;
    w := start;
    var f := w.queue[0];
    FrontIsKnown(p, w);
    if f.name !in w.purged {
      KeepIsSound(p, w);
      w := Keep(w, f);
      ghost var kept := w;
      w := CollectDependencies(p, funcs, f, w);
      GrowsMeans(kept, w);
      StepIsComplete(p, start, kept, w, f);
      OneFunctionLess(p, start, w, f);
      QueueNames(start.funcs, f);
      FrontStays(p, kept, w);
    }
    PopIsSound(p, w);
    w := w.(queue := w.queue[1..]);
  }

  lemma {:induction false} GrowsMeans(w: Work, w': Work)
    requires Grows(w, w')
    ensures w'.funcs == w.funcs
  {
  }

  lemma {:induction false} FrontIsKnown(p: Program, w: Work)
    requires Sound(p, w) && w.queue != []
    ensures w.queue[0] in p.functions && Reachable(p, w.queue[0].name)
  {
  }

  lemma {:induction false} StepIsComplete(p: Program, start: Work, kept: Work, w: Work, f: LinkFunction)
    requires Closed(p) && Complete(p, start) && kept.funcs == start.funcs + [f] && f in p.functions
    requires (forall name :: Settled(start, name) ==> Settled(kept, name)) && Grows(kept, w) && SettledUpTo(w, f.body, |f.body|, p.scope)
    ensures Complete(p, w)
  {
    hide Settled, SettledUpTo, Uses;
    QueueNames(start.funcs, f);
    forall g, name {:trigger Uses(p, g, name)} | g in FunctionNames(w.funcs) && Uses(p, g, name)
      ensures Settled(w, name)
    {
      if g == f.name { UsesAreSettled(p, w, f, name); }
    }
  }

  lemma {:induction false} OneFunctionLess(p: Program, start: Work, w: Work, f: LinkFunction)
    requires w.funcs == start.funcs + [f] && f in p.functions && f.name !in FunctionNames(start.funcs)
    ensures FunctionNames(p.functions) - FunctionNames(w.funcs) < FunctionNames(p.functions) - FunctionNames(start.funcs)
  {
    QueueNames(start.funcs, f);
    assert f.name in FunctionNames(p.functions) - FunctionNames(start.funcs);
  }

  lemma {:induction false} FrontStays(p: Program, kept: Work, w: Work)
    requires Grows(kept, w) && kept.queue != [] && Sound(p, w) && kept.queue[0].name in FunctionNames(w.funcs)
    ensures w.queue != [] && w.queue[0] == kept.queue[0] && w.queue[0].name in w.purged && w.funcs == kept.funcs
  {
  }
}
