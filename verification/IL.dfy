/** The intermediate language: operands, instructions, and an execution
    semantics that is parametric in the machine that carries it out. */
module IL {
  import opened Wrappers

  // ----- Operands (IL.h, IL.cpp) -----

  datatype OperandKind = Empty | Constant | Variable | TypeToken | FieldToken

  datatype OperandType =
    | Void | I | I1 | I2 | I4 | I8 | U | U1 | U2 | U4 | U8 | R4 | R8 | Str | StructT

  datatype ScopeKind = Global | StructScope | Function | Block

  /** A scope object; `id` stands for its address. */
  datatype Scope = Scope(id: nat, kind: ScopeKind)

  datatype SymbolRef = SymbolRef(scope: Scope, name: string)

  datatype Operand = Operand(
    kind: OperandKind, ty: OperandType,
    ivalue: int, uvalue: int, rvalue: real, svalue: string,
    sym: Option<SymbolRef>, objectType: Option<nat>)

  function VariableOperand(ty: OperandType, sym: SymbolRef): Operand {
    Operand(Variable, ty, 0, 0, 0.0, "", Some(sym), None)
  }

  function IntOperand(ty: OperandType, v: int): Operand {
    Operand(Constant, ty, v, if v < 0 then v + 0x1_0000_0000_0000_0000 else v, v as real, "", None, None)
  }

  /** What the constructors of ILOperand establish. */
  predicate WellFormedOperand(o: Operand) {
    (o.kind == Variable <==> o.sym.Some?) &&
    (o.kind == Variable ==> o == VariableOperand(o.ty, o.sym.value))
  }

  /** ILOperand::Equal, field by field. */
  predicate Equal(a: Operand, b: Operand)
    requires WellFormedOperand(a) && WellFormedOperand(b)
  {
    if a.kind != b.kind then false
    else if a.ty != b.ty then false
    else if a.ivalue != b.ivalue then false
    else if a.uvalue != b.uvalue then false
    else if a.rvalue != b.rvalue then false
    else if a.svalue != b.svalue then false
    else if a.sym.Some? && a.sym.value.scope != b.sym.value.scope then false
    else if a.sym.Some? && a.sym.value.name != b.sym.value.name then false
    else a.objectType == b.objectType
  }

  // ----- Instructions -----

  datatype Opcode =
    | Nop | Label | Add | And | BrEq | BrGt | BrGe | BrLt | BrLe | BrNe | Br | BrZ | BrNz
    | Call | CallInd | CallVirt | Cast | CompEq | CompGt | CompGe | CompLt | CompLe | CompNe
    | Conv | Cpblk | Cpobj | Div | Initblk | Initobj | Lda | Ldelem | Ldelema | Ldfld | Ldflda
    | Ldind | Ldstr | Stelem | Stfld | Stind | Stackalloc | Sub | Mul | Neg | Newarr | Newobj
    | Not | Or | Mod | Ret | Shl | Shr | Mov | Xor | Asm

  datatype Instr = Instr(op: Opcode, args: seq<Operand>)

  type Body = seq<Instr>

  const NOP: Instr := Instr(Nop, [])

  predicate IsCompare(op: Opcode) {
    (op.CompLt? || op.CompLe? || op.CompGt? || op.CompGe? || op.CompEq? || op.CompNe?)
  }

  predicate IsCompareBranch(op: Opcode) {
    (op.BrEq? || op.BrGt? || op.BrGe? || op.BrLt? || op.BrLe? || op.BrNe?)
  }

  predicate IsMove(op: Opcode) {
    op == Mov || op == Conv
  }

  predicate IsBinaryArithmetic(op: Opcode) {
    op.Add? || op.And? || op.Sub? || op.Mul? || op.Div? || op.Or? || op.Xor? || op.Mod? || op.Shl? || op.Shr?
  }

  predicate IsUnaryArithmetic(op: Opcode) {
    op.Neg? || op.Not?
  }

  /** Opcodes whose only effect is to define their first operand. */
  predicate IsDefinition(op: Opcode) {
    IsBinaryArithmetic(op) || IsUnaryArithmetic(op) || op.Cast? || op.Lda? ||
    op.Ldelem? || op.Ldelema? || op.Ldfld? || op.Ldflda? || op.Ldind? || op.Ldstr?
  }

  predicate IsControl(op: Opcode) {
    op.Nop? || op.Label? || op.Br? || op.BrZ? || op.BrNz? || op.Ret? || IsCompareBranch(op)
  }

  function Arity(op: Opcode): nat {
    if IsCompare(op) || IsCompareBranch(op) then 3
    else if IsBinaryArithmetic(op) || op.Ldelem? || op.Ldelema? || op.Stelem? || op.Ldfld? || op.Ldflda? || op.Stfld? then 3
    else if IsMove(op) || op.Neg? || op.Not? || op.Cast? || op.Ldind? || op.Lda? || op.Stind? then 2
    else if op.BrZ? || op.BrNz? || op.Call? then 2
    else if (op.Label? || op.Br? || op.Ldstr? || op.Asm?) then 1
    else 0
  }

  /** The operand an instruction writes: the first one, or the second of a call. */
  function DestIndex(op: Opcode): int {
    if IsCompare(op) || IsMove(op) || IsDefinition(op) then 0
    else if (op.Call? || op.CallInd? || op.CallVirt?) then 1
    else -1
  }

  // ----- Execution -----

  datatype State = State(vars: map<SymbolRef, int>, heap: map<int, int>)

  /** What an instruction gets to see of one operand. */
  datatype Input = Value(ty: OperandType, n: int) | Address(sym: SymbolRef) | Literal(operand: Operand) | Hole

  /** The parts of the target machine that no result here depends on. Arithmetic is
      any function of the result type and the operand values; loads and stores, calls
      and inline assembly are any functions of the values read, the heap, and the
      variables that `escapes` says other code can reach. `None` is a trap, a
      division by zero for instance. */
  datatype Machine = Machine(
    convert: (OperandType, OperandType, int) -> int,
    binary: (Opcode, OperandType, int, int) -> Option<int>,
    unary: (Opcode, OperandType, int) -> Option<int>,
    eval: (Opcode, OperandType, seq<Input>, map<int, int>, map<SymbolRef, int>) -> Option<int>,
    effect: (Opcode, seq<Input>, map<int, int>, map<SymbolRef, int>) -> Option<(map<int, int>, map<SymbolRef, int>, int)>,
    escapes: SymbolRef -> bool)

  function Read(st: State, v: SymbolRef): int {
    if v in st.vars then st.vars[v] else 0
  }

  function ValueOf(o: Operand, st: State): int {
    if o.sym.Some? then Read(st, o.sym.value)
    else if o.ty.U? || o.ty.U1? || o.ty.U2? || o.ty.U4? || o.ty.U8? then o.uvalue else o.ivalue
  }

  function Write(st: State, o: Operand, n: int): State {
    if o.sym.Some? then st.(vars := st.vars[o.sym.value := n]) else st
  }

  function Shared(m: Machine, vars: map<SymbolRef, int>): map<SymbolRef, int> {
    map v | v in vars && m.escapes(v) :: vars[v]
  }

  function InputAt(il: Instr, k: nat, st: State): Input
    requires k < |il.args|
  {
    var o := il.args[k];
    if k == DestIndex(il.op) then Hole
    else if o.sym.Some? && ((il.op == Lda && k == 1) || (il.op == Call && k == 0)) then Address(o.sym.value)
    else if o.sym.Some? then Value(o.ty, Read(st, o.sym.value))
    else Literal(o)
  }

  function Inputs(il: Instr, st: State): (r: seq<Input>)
    ensures |r| == |il.args|
    ensures forall k :: 0 <= k < |r| ==> r[k] == InputAt(il, k, st)
  {
    seq(|il.args|, k requires 0 <= k < |il.args| => InputAt(il, k, st))
  }

  function Compare(op: Opcode, a: int, b: int): bool
    requires IsCompare(op) || IsCompareBranch(op)
  {
    match op
    case CompLt => a < b
    case BrLt => a < b
    case CompLe => a <= b
    case BrLe => a <= b
    case CompGt => a > b
    case BrGt => a > b
    case CompGe => a >= b
    case BrGe => a >= b
    case CompEq => a == b
    case BrEq => a == b
    case CompNe => a != b
    case BrNe => a != b
  }

  /** A move between operands of one type copies; otherwise it converts. */
  function Moved(m: Machine, dst: Operand, src: Operand, st: State): int {
    if dst.ty == src.ty then ValueOf(src, st) else m.convert(dst.ty, src.ty, ValueOf(src, st))
  }

  /** The value an instruction defines its first operand with. */
  function Defined(m: Machine, il: Instr, st: State): Option<int>
    requires IsDefinition(il.op) && |il.args| >= Arity(il.op)
  {
    if IsBinaryArithmetic(il.op) then m.binary(il.op, il.args[0].ty, ValueOf(il.args[1], st), ValueOf(il.args[2], st))
    else if IsUnaryArithmetic(il.op) then m.unary(il.op, il.args[0].ty, ValueOf(il.args[1], st))
    else m.eval(il.op, il.args[0].ty, Inputs(il, st), st.heap, Shared(m, st.vars))
  }

  function Exec(m: Machine, il: Instr, st: State): Option<State>
    requires !IsControl(il.op) && |il.args| >= Arity(il.op)
  {
    if IsCompare(il.op) then
      Some(Write(st, il.args[0], if Compare(il.op, ValueOf(il.args[1], st), ValueOf(il.args[2], st)) then 1 else 0))
    else if IsMove(il.op) then
      Some(Write(st, il.args[0], Moved(m, il.args[0], il.args[1], st)))
    else if IsDefinition(il.op) then
      match Defined(m, il, st)
      case None => None
      case Some(n) => Some(Write(st, il.args[0], n))
    else
      match m.effect(il.op, Inputs(il, st), st.heap, Shared(m, st.vars))
      case None => None
      case Some((heap, shared, n)) =>
        var st' := State(st.vars + Shared(m, shared), heap);
        if 0 <= DestIndex(il.op) < |il.args| then Some(Write(st', il.args[DestIndex(il.op)], n)) else Some(st')
  }

  datatype Config = At(pc: nat, st: State) | Returned(value: Option<int>, st: State) | Fault

  predicate IsLabel(il: Instr, sym: Option<SymbolRef>) {
    il.op == Label && |il.args| >= 1 && il.args[0].sym == sym
  }

  /** The instruction a label stands for. When a label is placed twice the later
      placement overwrites the address, so the last one counts. */
  function FindLabel(body: Body, sym: Option<SymbolRef>): (r: int)
    ensures -1 <= r < |body|
  {
    if body == [] then -1
    else if IsLabel(body[|body| - 1], sym) then |body| - 1
    else FindLabel(body[..|body| - 1], sym)
  }

  function Jump(body: Body, target: Operand, st: State): Config {
    var l := FindLabel(body, target.sym);
    if l < 0 then Fault else At(l, st)
  }

  predicate Final(body: Body, c: Config) {
    c.At? ==> c.pc >= |body|
  }

  function StepControl(body: Body, il: Instr, pc: nat, st: State): Config
    requires IsControl(il.op) && |il.args| >= Arity(il.op)
  {
    if il.op == Nop || il.op == Label then At(pc + 1, st)
    else if il.op == Br then Jump(body, il.args[0], st)
    else if il.op == BrZ || il.op == BrNz then
      if (ValueOf(il.args[0], st) == 0) == (il.op == BrZ) then Jump(body, il.args[1], st) else At(pc + 1, st)
    else if il.op == Ret then
      Returned(if |il.args| > 0 && il.args[0].kind != Empty then Some(ValueOf(il.args[0], st)) else None, st)
    else if Compare(il.op, ValueOf(il.args[0], st), ValueOf(il.args[1], st)) then Jump(body, il.args[2], st)
    else At(pc + 1, st)
  }

  function StepInstr(m: Machine, body: Body, il: Instr, pc: nat, st: State): Config {
    if |il.args| < Arity(il.op) then Fault
    else if IsControl(il.op) then StepControl(body, il, pc, st)
    else
      match Exec(m, il, st)
      case None => Fault
      case Some(st') => At(pc + 1, st')
  }

  function Step(m: Machine, body: Body, c: Config): Config {
    if Final(body, c) then c else StepInstr(m, body, body[c.pc], c.pc, c.st)
  }

  function Run(m: Machine, body: Body, c: Config, n: nat): Config
    decreases n
  {
    if n == 0 then c else Run(m, body, Step(m, body, c), n - 1)
  }

  // ----- Facts about runs -----

  lemma {:induction false} RunSplit(m: Machine, body: Body, c: Config, a: nat, b: nat)
    ensures Run(m, body, c, a + b) == Run(m, body, Run(m, body, c, a), b)
    decreases a
  {
    if a > 0 {
      RunSplit(m, body, Step(m, body, c), a - 1, b);
    }
  }

  lemma {:induction false} RunFinal(m: Machine, body: Body, c: Config, n: nat)
    requires Final(body, c)
    ensures Run(m, body, c, n) == c
    decreases n
  {
    if n > 0 {
      RunFinal(m, body, c, n - 1);
    }
  }

  lemma {:induction false} FindLabelIs(body: Body, sym: Option<SymbolRef>)
    ensures var l := FindLabel(body, sym);
      && (l >= 0 ==> IsLabel(body[l], sym))
      && forall k :: l < k < |body| ==> !IsLabel(body[k], sym)
  {
    if body != [] && !IsLabel(body[|body| - 1], sym) {
      FindLabelIs(body[..|body| - 1], sym);
    }
  }
}
