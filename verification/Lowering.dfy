/** What the lowering pass generates, as functions on the generator's state. */
module Lowering {
  import opened Wrappers
  import opened IL
  import opened TempNames
  import opened Source

  /** The labels a loop on the loop stack offers to `continue` and `break`. */
  datatype LoopLabels = LoopLabels(continueLabel: Operand, breakLabel: Operand)

  /** The function being generated, the symbol tables, the scopes that enclose the
      current statement, the enclosing loops, and the temporary counter. `failed`
      records an error that makes the compiler exit. */
  datatype GenState = GenState(
    body: Body, symbols: map<SymbolRef, OperandType>, chain: seq<Scope>,
    loops: seq<LoopLabels>, nextId: nat, failed: bool)

  const NO_SCOPE := Scope(0, Global)

  type Gen = g: GenState | g.chain != [] witness GenState([], map[], [NO_SCOPE], [], 0, false)

  function Top(g: Gen): Scope {
    g.chain[|g.chain| - 1]
  }

  // ----- Temporaries -----

  /** Looking a name up walks the enclosing scopes. */
  predicate Visible(symbols: map<SymbolRef, OperandType>, chain: seq<Scope>, name: string) {
    exists k :: 0 <= k < |chain| && SymbolRef(chain[k], name) in symbols
  }

  ghost function Pending(symbols: map<SymbolRef, OperandType>, id: nat): set<SymbolRef> {
    set v | v in symbols && IndexOf(v.name) >= id
  }

  lemma PendingShrinks(symbols: map<SymbolRef, OperandType>, chain: seq<Scope>, id: nat)
    requires Visible(symbols, chain, TempName(id))
    ensures Pending(symbols, id + 1) < Pending(symbols, id)
  {
    TempNameRoundTrip(id);
    var k :| 0 <= k < |chain| && SymbolRef(chain[k], TempName(id)) in symbols;
    assert SymbolRef(chain[k], TempName(id)) in Pending(symbols, id) - Pending(symbols, id + 1);
  }

  /** The first number from `id` on whose name no enclosing scope knows. */
  function FreshId(symbols: map<SymbolRef, OperandType>, chain: seq<Scope>, id: nat): (r: nat)
    ensures id <= r && !Visible(symbols, chain, TempName(r))
    ensures forall j :: id <= j < r ==> Visible(symbols, chain, TempName(j))
    decreases Pending(symbols, id)
  {
    if Visible(symbols, chain, TempName(id)) then
      PendingShrinks(symbols, chain, id);
      FreshId(symbols, chain, id + 1)
    else id
  }

  function GenTemp(g: Gen, ty: OperandType): (r: (Gen, Operand))
    ensures r.1.kind == Variable && r.1.sym.Some? && r.1.sym.value !in g.symbols
  {
    var n := FreshId(g.symbols, g.chain, g.nextId);
    var sym := SymbolRef(Top(g), TempName(n));
    assert sym == SymbolRef(g.chain[|g.chain| - 1], TempName(n));
    (g.(symbols := g.symbols[sym := ty], nextId := n + 1), VariableOperand(ty, sym))
  }

  /** A temporary is a variable of the innermost scope, named by the first number from the counter on whose name no enclosing
      scope has; nothing but the table and the counter changes. */
  lemma TempIs(g: Gen, ty: OperandType)
    ensures var (g', op) := GenTemp(g, ty); var n := g'.nextId - 1;
      && g.nextId <= n && op.kind == Variable && op.ty == ty
      && op.sym == Some(SymbolRef(g.chain[|g.chain| - 1], "__temp_" + Decimal(n)))
      && (forall k :: 0 <= k < |g.chain| ==> SymbolRef(g.chain[k], "__temp_" + Decimal(n)) !in g.symbols)
      && (forall i: nat {:trigger Decimal(i)} :: g.nextId <= i < n ==>
            exists k :: 0 <= k < |g.chain| && SymbolRef(g.chain[k], "__temp_" + Decimal(i)) in g.symbols)
      && g' == g.(symbols := g.symbols[op.sym.value := ty], nextId := n + 1)
  {
    var n := FreshId(g.symbols, g.chain, g.nextId);
    forall i: nat {:trigger Decimal(i)} | g.nextId <= i < n
      ensures exists k :: 0 <= k < |g.chain| && SymbolRef(g.chain[k], "__temp_" + Decimal(i)) in g.symbols
    {
      assert Visible(g.symbols, g.chain, TempName(i));
    }
    forall k | 0 <= k < |g.chain|
      ensures SymbolRef(g.chain[k], "__temp_" + Decimal(n)) !in g.symbols
    {
      assert !Visible(g.symbols, g.chain, TempName(n));
    }
  }

  function Emit(g: Gen, il: Instr): Gen {
    g.(body := g.body + [il])
  }

  // ----- Expressions -----

  /** The operands of a binary instruction take the type of the left operand. */
  function BinaryInstr(a: Action, t: Operand, left: Operand, right: Operand, ty: OperandType): Instr {
    Instr(OpcodeOf(a), [t, left.(ty := ty), right.(ty := ty)])
  }

  function LowerExpr(g: Gen, e: Expr): (Gen, Operand)
    decreases e
  {
    match e
    case Const(t, n) => (g, IntOperand(t, n))
    case Var(v) => (g, VariableOperand(I8, v))
    case Binary(a, l, r) =>
      var (g1, left) := LowerExpr(g, l);
      var (g2, right) := LowerExpr(g1, r);
      var (g3, t) := GenTemp(g2, TypeOf(e));
      (Emit(g3, BinaryInstr(a, t, left, right, TypeOf(l))), t)
    case Negate(x) =>
      var (g1, o) := LowerExpr(g, x);
      var (g2, t) := GenTemp(g1, TypeOf(x));
      (Emit(g2, Instr(Neg, [t, o])), t)
    case Convert(ty, x) =>
      var (g1, o) := LowerExpr(g, x);
      if ty == TypeOf(x) then (g1, o) else
      var (g2, t) := GenTemp(g1, ty);
      (Emit(g2, Instr(Conv, [t, o])), t)
  }

  // ----- Statements -----

  function LowerAssignment(g: Gen, a: Assignment): Gen {
    var (g1, o) := LowerExpr(g, a.source);
    Emit(g1, Instr(Mov, [VariableOperand(I8, a.target), o]))
  }

  function LowerOptional(g: Gen, a: Option<Assignment>): Gen {
    if a.None? then g else LowerAssignment(g, a.value)
  }

  /** The condition of a conditional, and the branch on it. */
  function LowerIfHead(g: Gen, c: Expr): (Gen, Operand) {
    var (g1, o) := LowerExpr(g, c);
    var (g2, yes) := GenTemp(g1, I);
    (Emit(g2, Instr(BrNz, [o, yes])), yes)
  }

  /** The jump behind the false branch, and the label of the true one. */
  function LowerIfMiddle(g: Gen, yes: Operand, end: Operand): Gen {
    Emit(Emit(g, Instr(Br, [end])), Instr(Label, [yes]))
  }

  /** A loop's labels, and the loop on the loop stack. */
  function LowerLoopLabels(g: Gen): (Gen, Operand, Operand, Operand) {
    var (g1, start) := GenTemp(g, I);
    var (g2, next) := GenTemp(g1, I);
    var (g3, end) := GenTemp(g2, I);
    (g3.(loops := g3.loops + [LoopLabels(end, end)]), start, next, end)
  }

  /** The initialization, and the label every round starts at. */
  function LowerLoopEntry(h: Gen, init: Option<Assignment>, start: Operand): Gen {
    Emit(LowerOptional(h, init), Instr(Label, [start]))
  }

  /** The end of the loop: the jump back, the end label, and the loop off the stack. */
  function LowerLoopEnd(base: Gen, g: Gen, c: Option<Expr>, after: bool, start: Operand, end: Operand): Gen {
    Emit(LowerTestAfter(g, c, after, start), Instr(Label, [end])).(loops := base.loops)
  }

  function LowerStmt(g: Gen, s: Stmt): Gen
    decreases s
  {
    match s
    case Skip => g
    case Assign(a) => LowerAssignment(g, a)
    case Block(scope, ss) =>
      LowerSeq(g.(chain := g.chain + [scope]), ss).(chain := g.chain)
    case If(c, t, e) =>
      var (g1, end) := GenTemp(g, I);
      var (g2, yes) := LowerIfHead(g1, c);
      var g3 := LowerIfMiddle(LowerStmt(g2, e), yes, end);
      Emit(LowerStmt(g3, t), Instr(Label, [end]))
    case Loop(i, c, after, n, b) =>
      var (g1, start, next, end) := LowerLoopLabels(g);
      var g2 := LowerTestBefore(LowerLoopEntry(g1, i, start), c, after, end);
      var g3 := Emit(LowerStmt(g2, b), Instr(Label, [next]));
      LowerLoopEnd(g, LowerOptional(g3, n), c, after, start, end)
    case Break =>
      if g.loops == [] then g.(failed := true)
      else Emit(g, Instr(Br, [g.loops[|g.loops| - 1].breakLabel]))
    case Continue =>
      if g.loops == [] then g.(failed := true)
      else Emit(g, Instr(Br, [g.loops[|g.loops| - 1].continueLabel]))
  }

  function LowerSeq(g: Gen, ss: seq<Stmt>): Gen
    decreases ss
  {
    if ss == [] then g else LowerSeq(LowerStmt(g, ss[0]), ss[1..])
  }

  function LowerTestBefore(g: Gen, c: Option<Expr>, after: bool, end: Operand): Gen {
    if after || c.None? then g else
    var (g1, o) := LowerExpr(g, c.value);
    Emit(g1, Instr(BrZ, [o, end]))
  }

  function LowerTestAfter(g: Gen, c: Option<Expr>, after: bool, start: Operand): Gen {
    if after && c.Some? then
      var (g1, o) := LowerExpr(g, c.value);
      Emit(g1, Instr(BrNz, [o, start]))
    else Emit(g, Instr(Br, [start]))
  }

  /** The code of a whole function body, or nothing if the compiler gives up. */
  function LowerFunction(symbols: map<SymbolRef, OperandType>, outer: seq<Scope>, nextId: nat, s: Stmt): Option<Body>
    requires outer != []
  {
    var g := LowerStmt(GenState([], symbols, outer, [], nextId, false), s);
    if g.failed then None else Some(g.body)
  }
}
