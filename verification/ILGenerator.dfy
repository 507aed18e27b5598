/** The lowering pass as the program runs it: visitors that append to the function's body,
    push and pop the scope and loop stacks, and add temporaries to the innermost scope. */
module ILGenerator {
  import opened Wrappers
  import opened IL
  import opened TempNames
  import opened Source
  import opened Lowering
  import opened LoweringTheorems

  class ILGenerator {
    var Body: seq<Instr>
    var symbols: map<SymbolRef, OperandType>
    var staticChain: seq<Scope>
    var loopContext: seq<LoopLabels>
    var tempId: nat
    var failed: bool

    ghost predicate Valid()
      reads this
    {
      staticChain != []
    }

    ghost function Snapshot(): (g: Gen)
      reads this
      requires Valid()
    {
      GenState(Body, symbols, staticChain, loopContext, tempId, failed)
    }

    constructor (tables: map<SymbolRef, OperandType>, outer: seq<Scope>)
      requires outer != []
      ensures Valid() && Snapshot() == GenState([], tables, outer, [], 0, false)
    {
      Body, symbols, staticChain, loopContext, tempId, failed := [], tables, outer, [], 0, false;
    }

    /** Counts on until the name is unknown in every enclosing scope. */
    method GenerateTemp(ty: OperandType) returns (op: Operand)
      requires Valid()
      modifies this`symbols, this`tempId
      ensures Valid() && (Snapshot(), op) == GenTemp(old(Snapshot()), ty)
    {
      while Visible(symbols, staticChain, TempName(tempId))
        invariant symbols == old(symbols)
        invariant FreshId(symbols, staticChain, tempId) == FreshId(symbols, staticChain, old(tempId))
        decreases Pending(symbols, tempId)
      {
        PendingShrinks(symbols, staticChain, tempId);
        tempId := tempId + 1;
      }
      assert FreshId(symbols, staticChain, tempId) == tempId;
      var sym := SymbolRef(staticChain[|staticChain| - 1], TempName(tempId));
      tempId := tempId + 1;
      symbols := symbols[sym := ty];
      op := VariableOperand(ty, sym);
    }

    method GenerateIL(il: Instr)
      requires Valid()
      modifies this`Body
      ensures Valid() && Snapshot() == Emit(old(Snapshot()), il)
    {
      Body := Body + [il];
    }

    /** Generates the code of an expression; the result is the operand that holds its value. */
    method VisitExpression(e: Expr) returns (op: Operand)
      requires Valid()
      modifies this`Body, this`symbols, this`tempId
      ensures Valid() && (Snapshot(), op) == LowerExpr(old(Snapshot()), e)
      decreases e
    {
      match e
      case Const(t, n) =>
        op := IntOperand(t, n);
      case Var(v) =>
        op := VariableOperand(I8, v);
      case Binary(a, l, r) =>
        var left := VisitExpression(l);
        var right := VisitExpression(r);
        op := GenerateTemp(TypeOf(e));
        GenerateIL(Instr(OpcodeOf(a), [op, left.(ty := TypeOf(l)), right.(ty := TypeOf(l))]));
      case Negate(x) =>
        var operand := VisitExpression(x);
        op := GenerateTemp(TypeOf(x));
        GenerateIL(Instr(Neg, [op, operand]));
      case Convert(ty, x) =>
        op := VisitExpression(x);
        if ty != TypeOf(x) {
          var operand := op;
          op := GenerateTemp(ty);
          GenerateIL(Instr(Conv, [op, operand]));
        }
    }

    method VisitAssign(a: Assignment)
      requires Valid()
      modifies this`Body, this`symbols, this`tempId
      ensures Valid() && Snapshot() == LowerAssignment(old(Snapshot()), a)
    {
      var op := VisitExpression(a.source);
      GenerateIL(Instr(Mov, [VariableOperand(I8, a.target), op]));
    }

    method VisitOptional(a: Option<Assignment>)
      requires Valid()
      modifies this`Body, this`symbols, this`tempId
      ensures Valid() && Snapshot() == LowerOptional(old(Snapshot()), a)
    {
      if a.Some? {
        VisitAssign(a.value);
      }
    }

    method VisitGoto(continues: bool)
      requires Valid()
      modifies this`Body, this`failed
      ensures Valid() && Snapshot() == LowerStmt(old(Snapshot()), if continues then Continue else Break)
    {
      if loopContext == [] {
        failed := true;
      } else {
        var labels := loopContext[|loopContext| - 1];
        GenerateIL(Instr(Br, [if continues then labels.continueLabel else labels.breakLabel]));
      }
    }

    method VisitBlock(s: Stmt)
      requires Valid() && s.Block?
      modifies this
      ensures Valid() && Snapshot() == LowerStmt(old(Snapshot()), s)
      decreases s, 0
    {
      var ss := s.stmts;
      ghost var chain := staticChain;
      staticChain := staticChain + [s.scope];
      ghost var entered := Snapshot();
      for i := 0 to |ss|
        invariant Valid()
        invariant LowerSeq(Snapshot(), ss[i..]) == LowerSeq(entered, ss)
      {
        assert ss[i..][1..] == ss[i + 1..];
        Visit(ss[i]);
      }
      SeqFailsIff(entered, ss);
      assert ss[|ss|..] == [];
      staticChain := staticChain[..|staticChain| - 1];
      assert (chain + [s.scope])[..|chain|] == chain;
    }

    method VisitConditional(s: Stmt)
      requires Valid() && s.If?
      modifies this
      ensures Valid() && Snapshot() == LowerStmt(old(Snapshot()), s)
      decreases s, 0
    {
      var breakLabel := GenerateTemp(I);
      var condOp := VisitExpression(s.cond);
      var trueLabel := GenerateTemp(I);
      GenerateIL(Instr(BrNz, [condOp, trueLabel]));
      Visit(s.els);
      GenerateIL(Instr(Br, [breakLabel]));
      GenerateIL(Instr(Label, [trueLabel]));
      Visit(s.thn);
      GenerateIL(Instr(Label, [breakLabel]));
    }

    method Visit(s: Stmt)
      requires Valid()
      modifies this
      ensures Valid() && Snapshot() == LowerStmt(old(Snapshot()), s)
      decreases s, 1
    {
      match s
      case Skip =>
      case Assign(a) => VisitAssign(a);
      case Block(_, _) => VisitBlock(s);
      case If(_, _, _) => VisitConditional(s);
      case Loop(_, _, _, _, _) => VisitLoop(s);
      case Break => VisitGoto(false);
      case Continue => VisitGoto(true);
    }

    /** The test at a loop's head or foot, if that is where it is; a foot without a test jumps back. */
    method VisitTest(s: Stmt, atFoot: bool, target: Operand)
      requires Valid() && s.Loop?
      modifies this`Body, this`symbols, this`tempId
      ensures Valid()
      ensures Snapshot() == if atFoot then LowerTestAfter(old(Snapshot()), s.test, s.testAfter, target)
                            else LowerTestBefore(old(Snapshot()), s.test, s.testAfter, target)
    {
      if atFoot == s.testAfter && s.test.Some? {
        var condop := VisitExpression(s.test.value);
        GenerateIL(Instr(if atFoot then BrNz else BrZ, [condop, target]));
      } else if atFoot {
        GenerateIL(Instr(Br, [target]));
      }
    }

    method VisitLoop(s: Stmt)
      requires Valid() && s.Loop?
      modifies this
      ensures Valid() && Snapshot() == LowerStmt(old(Snapshot()), s)
      decreases s, 0
    {
      hide LowerExpr, GenTemp, LowerOptional, JumpsInLoops, LowerTestBefore, LowerTestAfter;
      ghost var g := Snapshot();
      var startLabel := GenerateTemp(I);
      var contLabel := GenerateTemp(I);
      var breakLabel := GenerateTemp(I);
      loopContext := loopContext + [LoopLabels(breakLabel, breakLabel)];
      assert (Snapshot(), startLabel, contLabel, breakLabel) == LowerLoopLabels(g);
      hide LowerLoopLabels;
      VisitOptional(s.init);
      GenerateIL(Instr(Label, [startLabel]));
      VisitTest(s, false, breakLabel);
      ghost var g2 := Snapshot();
      LoopPartsKeepContext(g, s);
      Visit(s.body);
      FailsIff(g2, s.body);
      GenerateIL(Instr(Label, [contLabel]));
      ghost var g3 := Snapshot();
      VisitOptional(s.step);
      VisitTest(s, true, startLabel);
      GenerateIL(Instr(Label, [breakLabel]));
      LoopKeepsContext(g3, s, startLabel);
      loopContext := loopContext[..|loopContext| - 1];
    }
  }

  lemma LoopKeepsContext(g: Gen, s: Stmt, start: Operand)
    requires s.Loop?
    ensures LowerTestAfter(LowerOptional(g, s.step), s.test, s.testAfter, start).loops == g.loops
  {
    OptionalKeepsContext(g, s.step);
    TestsKeepContext(LowerOptional(g, s.step), s.test, s.testAfter, start);
  }
}
