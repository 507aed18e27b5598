/** The optimizer as the program runs it: loops over a copied instruction list,
    overwriting entries and replacing the function's body. */
module ILOptimizer {
  import opened Wrappers
  import opened IL
  import opened PeepholeSpec

  class ILFunction {
    var Body: Body

    constructor (body: Body)
      ensures Body == body
    {
      Body := body;
    }
  }

  lemma UsesUpTo(body: Body, k: nat, o: Operand)
    requires k < |body|
    ensures Uses(body[..k + 1], o) == Uses(body[..k], o) + multiset(body[k].args)[o]
  {
    UsesSnoc(body[..k], body[k], o);
    assert body[..k + 1] == body[..k] + [body[k]];
  }

  lemma {:induction false} UsesSnoc(body: Body, il: Instr, o: Operand)
    ensures Uses(body + [il], o) == Uses(body, o) + multiset(il.args)[o]
  {
    if body == [] {
      assert body + [il] == [il];
      assert Uses([il], o) == multiset(il.args)[o] + Uses([], o);
    } else {
      assert (body + [il])[1..] == body[1..] + [il];
      UsesSnoc(body[1..], il, o);
    }
  }

  lemma {:induction false} WithoutNopsUpTo(body: Body, k: nat)
    requires k < |body|
    ensures WithoutNops(body[..k + 1]) == WithoutNops(body[..k]) + if body[k].op == Nop then [] else [body[k]]
    decreases k
  {
    if k == 0 {
      assert body[..1] == [body[0]];
    } else {
      WithoutNopsUpTo(body[1..], k - 1);
      assert body[..k + 1][1..] == body[1..][..k];
      assert body[..k][1..] == body[1..][..k - 1];
    }
  }

  class ILOptimizer {
    constructor () {}

    /** Counts the operands equal to `opr` over the whole function. */
    method OperandUsedTwice(f: ILFunction, opr: Operand) returns (twice: bool)
      requires ShapedBody(f.Body) && WellFormedOperand(opr)
      ensures twice <==> Uses(f.Body, opr) == 2
    {
      var n := 0;
      for i := 0 to |f.Body|
        invariant n == Uses(f.Body[..i], opr)
      {
        var args := f.Body[i].args;
        assert Shaped(f.Body[i]);
        for j := 0 to |args|
          invariant n == Uses(f.Body[..i], opr) + multiset(args[..j])[opr]
        {
          assert WellFormedOperand(args[j]);
          EqualIsIdentity(opr, args[j]);
          assert args[..j + 1] == args[..j] + [args[j]];
          if Equal(opr, args[j]) {
            n := n + 1;
          }
        }
        assert args[..|args|] == args;
        UsesUpTo(f.Body, i, opr);
      }
      assert f.Body[..|f.Body|] == f.Body;
      twice := n == 2;
    }

    method DeleteNops(f: ILFunction) returns (n: nat)
      modifies f
      ensures f.Body == WithoutNops(old(f.Body)) && n == |old(f.Body)| - |f.Body|
    {
      n := 0;
      var ils := f.Body;
      f.Body := [];
      for i := 0 to |ils|
        invariant f.Body == WithoutNops(ils[..i]) && n + |f.Body| == i
      {
        WithoutNopsUpTo(ils, i);
        if ils[i].op == Nop {
          n := n + 1;
        } else {
          f.Body := f.Body + [ils[i]];
        }
      }
      assert ils[..|ils|] == ils;
    }

    /** The comparison half of the loop body: fuse `ils[i]` with the branch behind it. */
    method TryFuse(f: ILFunction, ils: Body, i: nat) returns (r: Body, fused: bool)
      requires ShapedBody(f.Body) && ShapedBody(ils) && i + 1 < |ils|
      ensures fused <==> CanFuse(f.Body, ils[i], ils[i + 1])
      ensures r == if fused then Replaced(ils, i, Fused(ils[i], ils[i + 1])) else ils
    {
      r, fused := ils, false;
      var il, il2 := ils[i], ils[i + 1];
      assert Shaped(il) && Shaped(il2);
      if IsCompare(il.op) && (il2.op == BrZ || il2.op == BrNz) {
        assert WellFormedOperand(il2.args[0]) && WellFormedOperand(il.args[0]);
        EqualIsIdentity(il2.args[0], il.args[0]);
        if Equal(il2.args[0], il.args[0]) {
          fused := OperandUsedTwice(f, il.args[0]);
          if fused {
            r := r[i := Fused(il, il2)];
            r := r[i + 1 := NOP];
          }
        }
      }
    }

    /** The copy half: let the computation in `ils[i - 1]` write the copy's target. */
    method TryCollapse(f: ILFunction, ils: Body, i: nat) returns (r: Body, collapsed: bool)
      requires ShapedBody(f.Body) && ShapedBody(ils) && 1 <= i < |ils|
      ensures collapsed <==> CanCollapse(f.Body, ils[i - 1], ils[i])
      ensures r == if collapsed then Replaced(ils, i - 1, Retargeted(ils[i - 1], ils[i].args[0])) else ils
    {
      hide Uses;
      r, collapsed := ils, false;
      var il, il2 := ils[i], ils[i - 1];
      assert Shaped(il) && Shaped(il2);
      if IsMove(il.op) {
        if il.args[0].ty != il.args[1].ty {
          return;
        }
        if Collapsible(il2.op) {
          assert WellFormedOperand(il2.args[0]) && WellFormedOperand(il.args[1]);
          EqualIsIdentity(il2.args[0], il.args[1]);
          if Equal(il2.args[0], il.args[1]) {
            var twice := OperandUsedTwice(f, il2.args[0]);
            if twice && il2.args[0].kind == Variable && il2.args[0].sym.value.scope.kind == Block {
              collapsed := true;
              r := r[i - 1 := Retargeted(il2, il.args[0])];
              r := r[i := NOP];
            }
          }
        }
      }
    }

    /** One pass. Uses are counted on the body as it was when the pass began. */
    method OptimizeFunction(f: ILFunction) returns (optimized: bool)
      requires ShapedBody(f.Body)
      modifies f
      ensures (f.Body, optimized) == Pass(old(f.Body))
      ensures ShapedBody(f.Body)
    {
      optimized := false;
      var ils := f.Body;
      for i := 0 to |ils|
        invariant f.Body == old(f.Body) && |ils| == |f.Body| && ShapedBody(ils)
        invariant var (r, changed) := VisitFrom(f.Body, ils, i);
          VisitFrom(f.Body, f.Body, 0) == (r, optimized || changed)
      {
        VisitAtIsShaped(f.Body, ils, i);
        if i + 1 == |ils| || i == 0 {
          continue;
        }
        var il := ils[i];
        var fused, collapsed := false, false;
        ils, fused := TryFuse(f, ils, i);
        if !fused {
          ils, collapsed := TryCollapse(f, ils, i);
        }
        if fused || collapsed {
          optimized := true;
        }
      }
      f.Body := ils;
      WithoutNopsIsShaped(ils);
      var _ := DeleteNops(f);
    }

    /** Every function is rewritten in place until a pass changes nothing. */
    method Optimize(functions: seq<ILFunction>)
      requires forall i, j :: 0 <= i < j < |functions| ==> functions[i] != functions[j]
      requires forall i :: 0 <= i < |functions| ==> ShapedBody(functions[i].Body)
      modifies set i | 0 <= i < |functions| :: functions[i]
      ensures forall i :: 0 <= i < |functions| ==> functions[i].Body == Optimized(old(functions[i].Body))
    {
      for k := 0 to |functions|
        invariant forall i :: 0 <= i < k ==> functions[i].Body == Optimized(old(functions[i].Body))
        invariant forall i :: k <= i < |functions| ==> functions[i].Body == old(functions[i].Body)
      {
        var f := functions[k];
        var again := true;
        while again
          invariant ShapedBody(f.Body)
          invariant if again then Optimized(f.Body) == Optimized(old(functions[k].Body))
                    else f.Body == Optimized(old(functions[k].Body))
          invariant forall i :: 0 <= i < |functions| && i != k ==>
            functions[i].Body == if i < k then Optimized(old(functions[i].Body)) else old(functions[i].Body)
          decreases again, |f.Body|
        {
          ghost var before := f.Body;
          PassShortens(before);
          again := OptimizeFunction(f);
        }
      }
    }
  }
}
