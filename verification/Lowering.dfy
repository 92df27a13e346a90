/** The builder's cond, logicalBinop and switchStmt and the emitters they use: the code they build
    evaluates the same leaves in the same order as the source, and goes where the source says. */
module Lowering {
  import opened Flowgraphs
  import opened LoweringModel
  import opened LoweringCode
  import opened Statements
  import opened Switches

  // ----- the builder -----

  /** Where break and fallthrough lead in a switch. */
  datatype Target = Target(brk: nat, ft: nat)

  class Builder {
    var instrs: seq<seq<Instr>>
    var preds: seq<seq<nat>>
    var succs: seq<seq<nat>>
    var currentBlock: int
    var targets: seq<Target>

    /** A function with an empty entry block. */
    constructor ()
      ensures Value() == Graph([[]], [[]], [[]]) && WellFormed(Value()) && currentBlock == 0 && targets == []
    {
      instrs, preds, succs, currentBlock, targets := [[]], [[]], [[]], 0, [];
      new;
      assert BlockOk(Value(), 0);
    }

    ghost function Value(): (g: Graph)
      reads this
    {
      Graph(instrs, preds, succs)
    }

    /** There is a current block, and it can be appended to. */
    ghost predicate Building()
      reads this
    {
      WellFormed(Value()) && Open(Value(), currentBlock)
    }

    /** Two other blocks that can be branched to. */
    ghost predicate Targets(t: nat, f: nat)
      reads this
    {
      PhiFree(Value(), t) && PhiFree(Value(), f) && t != f && t != currentBlock && f != currentBlock
    }

    /** newBasicBlock. */
    method NewBasicBlock() returns (b: nat)
      requires WellFormed(Value())
      modifies this`instrs, this`preds, this`succs
      ensures b == |old(instrs)| && Value() == WithBlock(old(Value())) && WellFormed(Value())
      ensures Only(old(Value()), Value(), b, {}) && Open(Value(), b) && PhiFree(Value(), b)
    {
      BlockAdded(Value());
      b := |instrs|;
      instrs, preds, succs := instrs + [[]], preds + [[]], succs + [[]];
    }

    /** emit: appends an instruction that is no transfer of control, and returns its register. */
    method Emit(i: Instr) returns (v: Val)
      requires Building() && !IsControl(i) && (i.Phi? ==> |i.edges| == |preds[currentBlock]|)
      modifies this`instrs
      ensures Building() && v == Reg(currentBlock, |old(instrs)[currentBlock]|)
      ensures Value() == WithInstr(old(Value()), currentBlock, i) && OnlyOrPhi(old(Value()), Value(), currentBlock, {})
      ensures !i.Phi? ==> Only(old(Value()), Value(), currentBlock, {})
    {
      InstrAdded(Value(), currentBlock, i);
      instrs := instrs[currentBlock := instrs[currentBlock] + [i]];
      return Reg(currentBlock, |instrs[currentBlock]| - 1);
    }

    /** addEdge. */
    method AddEdge(b: nat, t: nat)
      requires b < |succs| && t < |preds|
      modifies this`succs, this`preds
      ensures Value() == WithEdge(old(Value()), b, t)
    {
      succs := succs[b := succs[b] + [t]];
      preds := preds[t := preds[t] + [b]];
    }

    /** emitJump. */
    method EmitJump(t: nat)
      requires Building() && PhiFree(Value(), t)
      modifies this`instrs, this`preds, this`succs, this`currentBlock
      ensures WellFormed(Value()) && currentBlock == NIL && Only(old(Value()), Value(), old(currentBlock), {t})
      ensures Value() == WithEdge(WithInstr(old(Value()), old(currentBlock), Jump), old(currentBlock), t)
      ensures old(currentBlock) !in old(preds)[t] && preds[t] == old(preds)[t] + [old(currentBlock)]
    {
      JumpAdded(Value(), currentBlock, t);
      instrs := instrs[currentBlock := instrs[currentBlock] + [Jump]];
      AddEdge(currentBlock, t);
      currentBlock := NIL;
    }

    /** emitIf. */
    method EmitIf(c: Val, t: nat, f: nat)
      requires Building() && Targets(t, f)
      modifies this`instrs, this`preds, this`succs, this`currentBlock
      ensures WellFormed(Value()) && currentBlock == NIL && Only(old(Value()), Value(), old(currentBlock), {t, f})
      ensures preds[t] == old(preds)[t] + [old(currentBlock)] && preds[f] == old(preds)[f] + [old(currentBlock)]
      ensures instrs[old(currentBlock)] == old(instrs)[old(currentBlock)] + [If(c)] && succs[old(currentBlock)] == [t, f]
    {
      IfAdded(Value(), currentBlock, c, t, f);
      instrs := instrs[currentBlock := instrs[currentBlock] + [If(c)]];
      AddEdge(currentBlock, t);
      AddEdge(currentBlock, f);
      currentBlock := NIL;
    }

    /** cond: code that evaluates e as the language says and goes to t if it is true and to f if not. */
    method Cond(e: Expr, t: nat, f: nat)
      requires Building() && Targets(t, f)
      modifies this`instrs, this`preds, this`succs, this`currentBlock
      ensures WellFormed(Value()) && currentBlock == NIL && Only(old(Value()), Value(), old(currentBlock), {t, f})
      ensures Branches(Value(), old(Value()), old(currentBlock), |old(instrs)[old(currentBlock)]|, e, t, f)
      ensures |preds[t]| > |old(preds)[t]| && |preds[f]| > |old(preds)[f]|
      decreases e, 4
    {
      ghost var g0, b0 := Value(), currentBlock;
      match e {
        case Paren(x) =>
          Cond(x, t, f);
          BranchesParen(Value(), g0, b0, |g0.instrs[b0]|, x, t, f);
        case Not(x) =>
          Cond(x, f, t);
          assert {f, t} == {t, f};
          BranchesNot(Value(), g0, b0, |g0.instrs[b0]|, x, t, f);
        case And(x, y) => CondBinop(e, t, f);
        case Or(x, y) => CondBinop(e, t, f);
        case _ => CondValue(e, t, f);
      }
    }

    method CondBinop(e: Expr, t: nat, f: nat)
      requires (e.And? || e.Or?) && Building() && Targets(t, f)
      modifies this`instrs, this`preds, this`succs, this`currentBlock
      ensures WellFormed(Value()) && currentBlock == NIL && Only(old(Value()), Value(), old(currentBlock), {t, f})
      ensures Branches(Value(), old(Value()), old(currentBlock), |old(instrs)[old(currentBlock)]|, e, t, f)
      ensures |preds[t]| > |old(preds)[t]| && |preds[f]| > |old(preds)[f]|
      decreases e, 3
    {
      ghost var g0, b0 := Value(), currentBlock;
      var m := NewBasicBlock();
      ghost var g1 := Value();
      OnlyNew(g0, g1, b0, m);
      if e.And? {
        Cond(e.x, m, f);
      } else {
        Cond(e.x, t, m);
      }
      ghost var g2 := Value();
      currentBlock := m;
      ghost var T := if e.And? then {m, f} else {t, m};
      Untouched(g1, g2, b0, T, m);
      StillFree(g1, g2, b0, T, {t, f});
      assert BlockGrows(g1, g2, t) && BlockGrows(g1, g2, f);
      Cond(e.y, t, f);
      CondBinopDone(g0, g1, g2, Value(), b0, e, m, t, f);
    }

    /** A condition that is neither a logical operation nor a negation. */
    method CondValue(e: Expr, t: nat, f: nat)
      requires (e.Leaf? || e.Lit?) && Building() && Targets(t, f)
      modifies this`instrs, this`preds, this`succs, this`currentBlock
      ensures WellFormed(Value()) && currentBlock == NIL && Only(old(Value()), Value(), old(currentBlock), {t, f})
      ensures Branches(Value(), old(Value()), old(currentBlock), |old(instrs)[old(currentBlock)]|, e, t, f)
      ensures |preds[t]| > |old(preds)[t]| && |preds[f]| > |old(preds)[f]|
      decreases e, 3
    {
      ghost var g0, b0 := Value(), currentBlock;
      var v := ExprValue(e);
      ghost var g1, b1 := Value(), currentBlock;
      Untouched(g0, g1, b0, {}, t);
      Untouched(g0, g1, b0, {}, f);
      EmitIf(v, t, f);
      OnlyOn(g0, g1, Value(), b0, {}, b1, {t, f}, {t, f});
      BranchesIf(g0, g1, Value(), b0, |g0.instrs[b0]|, e, v, b1, t, f);
    }

    /** expr: code that leaves the value of e in v. */
    method ExprValue(e: Expr) returns (v: Val)
      requires Building()
      modifies this`instrs, this`preds, this`succs, this`currentBlock
      ensures Building() && Only(old(Value()), Value(), old(currentBlock), {}) && Exists(Value(), v) && !v.VTrue?
      ensures currentBlock == old(currentBlock) || currentBlock >= |old(instrs)|
      ensures Evaluates(Value(), old(Value()), old(currentBlock), |old(instrs)[old(currentBlock)]|, e, v, currentBlock, |instrs[currentBlock]|)
      decreases e, 2
    {
      ghost var g0, b0 := Value(), currentBlock;
      if IsConst(e) {
        v := Const(ConstValue(e));
        EvaluatesConst(g0, b0, |g0.instrs[b0]|, e);
        OnlySelf(g0, b0);
      } else {
        match e {
          case Leaf(id) =>
            EvaluatesLeaf(g0, b0, id);
            v := Emit(Do(id));
          case Paren(x) =>
            v := ExprValue(x);
            EvaluatesParen(Value(), g0, b0, |g0.instrs[b0]|, x, v, currentBlock, |instrs[currentBlock]|);
          case Not(x) =>
            var w := ExprValue(x);
            ghost var g1, b1 := Value(), currentBlock;
            EvaluatesNot(g0, g1, b0, |g0.instrs[b0]|, x, w, b1);
            v := Emit(Neg(w));
            OnlyOn(g0, g1, Value(), b0, {}, b1, {}, {});
          case And(x, y) => v := LogicalBinop(e);
          case Or(x, y) => v := LogicalBinop(e);
        }
      }
    }

    /** logicalBinop: the value of x && y or x || y as a phi with an operand for each way to it. */
    method LogicalBinop(e: Expr) returns (v: Val)
      requires Building() && (e.And? || e.Or?)
      modifies this`instrs, this`preds, this`succs, this`currentBlock
      ensures Building() && Only(old(Value()), Value(), old(currentBlock), {}) && Exists(Value(), v) && !v.VTrue?
      ensures currentBlock >= |old(instrs)|
      ensures Evaluates(Value(), old(Value()), old(currentBlock), |old(instrs)[old(currentBlock)]|, e, v, currentBlock, |instrs[currentBlock]|)
      decreases e, 1
    {
      ghost var g0, b0 := Value(), currentBlock;
      var rhs := NewBasicBlock();
      OnlyNew(g0, Value(), b0, rhs);
      var done := NewBasicBlock();
      ghost var g1 := Value();
      OnlyOn(g0, WithBlock(g0), g1, b0, {}, done, {}, {});
      if e.And? {
        Cond(e.x, rhs, done);
      } else {
        Cond(e.x, done, rhs);
      }
      var short := Const(if e.And? then 0 else 1);
      ghost var g2 := Value();
      ghost var T := if e.And? then {rhs, done} else {done, rhs};
      OnlyOn(g0, g1, g2, b0, {}, b0, T, {rhs, done});
      Untouched(g1, g2, b0, T, rhs);
      Untouched(g1, g2, b0, T, done);
      if preds[rhs] == [] { assert false; }
      if preds[done] == [] { assert false; }
      v := BinopRest(e, rhs, done, short, g1, b0);
      OnlyTwo(g0, g2, Value(), b0, rhs, done);
      EvaluatesLess(Value(), g0, g1, b0, |g0.instrs[b0]|, e, v, done, 1);
    }

    /** The right operand and the phi. */
    method BinopRest(e: Expr, rhs: nat, done: nat, short: Val, ghost g1: Graph, ghost b0: nat) returns (v: Val)
      requires (e.And? || e.Or?) && short == Const(if e.And? then 0 else 1) && WellFormed(Value()) && rhs != done
      requires Open(Value(), rhs) && Open(Value(), done) && instrs[rhs] == instrs[done] == [] && Grows(g1, Value()) && b0 < |g1.instrs|
      requires (e.And? && Branches(Value(), g1, b0, |g1.instrs[b0]|, e.x, rhs, done)) || (e.Or? && Branches(Value(), g1, b0, |g1.instrs[b0]|, e.x, done, rhs))
      modifies this`instrs, this`preds, this`succs, this`currentBlock
      ensures Building() && currentBlock == done && v == Reg(done, 0) && |instrs[done]| == 1
      ensures TwoBlocks(old(Value()), Value(), rhs, done)
      ensures Evaluates(Value(), g1, b0, |g1.instrs[b0]|, e, v, done, 1)
      decreases e, 0
    {
      ghost var g2 := Value();
      var edges := seq(|preds[done]|, _ => short);
      currentBlock := rhs;
      var w := ExprValue(e.y);
      ghost var g3, c := Value(), currentBlock;
      Untouched(g2, g3, rhs, {}, done);
      edges := edges + [w];
      EmitJump(done);
      ghost var g4 := Value();
      Untouched(g3, g4, c, {done}, done);
      currentBlock := done;
      v := Emit(Phi(edges));
      TwoBlocksOn(g2, g3, g4, Value(), rhs, c, done);
      EvaluatesBinop(g1, g2, g3, g4, Value(), b0, |g1.instrs[b0]|, e, w, rhs, done, c);
    }

    // ----- statements -----

    ghost function Brk(): (b: int)
      reads this
    {
      if targets == [] then NIL else targets[|targets| - 1].brk
    }

    ghost function Ft(): (b: int)
      reads this
    {
      if targets == [] then NIL else targets[|targets| - 1].ft
    }

    ghost function TargetSet(): (T: set<nat>)
      reads this
    {
      if targets == [] then {} else {targets[|targets| - 1].brk, targets[|targets| - 1].ft}
    }

    /** The current targets are other blocks that can be jumped to. */
    ghost predicate TargetsOk(b: int)
      reads this
    {
      forall t :: t in TargetSet() ==> PhiFree(Value(), t) && t != b
    }

    /** stmt: code that does what the statement means; control that leaves it goes to the targets. */
    method LowerStmt(st: Stmt)
      requires Building() && TargetsOk(currentBlock) && Legal(st, targets != [])
      modifies this
      ensures Building() && targets == old(targets) && Only(old(Value()), Value(), old(currentBlock), TargetSet())
      ensures currentBlock == old(currentBlock) || currentBlock >= |old(instrs)|
      ensures Executes(Value(), old(Value()), old(currentBlock), |old(instrs)[old(currentBlock)]|, Means(st), Brk(), Ft(), currentBlock, |instrs[currentBlock]|)
      decreases st, 2
    {
      ghost var g0, b0 := Value(), currentBlock;
      match st {
        case Act(id) =>
          ExecutesAct(g0, b0, id, Means(st), Brk(), Ft());
          var v := Emit(Do(id));
          OnlyOld(g0, Value(), b0, {}, TargetSet());
        case Break => LowerJump(st, targets[|targets| - 1].brk);
        case Fallthrough => LowerJump(st, targets[|targets| - 1].ft);
        case IfThen(_, _) => LowerIf(st);
        case IfElse(_, _, _) => LowerIfElse(st);
        case Block(_) => LowerBlock(st);
        case Switch(_, _) => LowerSwitch(st);
      }
    }

    /** break and fallthrough; what follows is unreachable. */
    method LowerJump(st: Stmt, t: nat)
      requires Building() && TargetsOk(currentBlock) && targets != []
      requires (st.Break? && t == Brk()) || (st.Fallthrough? && t == Ft())
      modifies this`instrs, this`preds, this`succs, this`currentBlock
      ensures Building() && Only(old(Value()), Value(), old(currentBlock), TargetSet()) && currentBlock >= |old(instrs)|
      ensures Executes(Value(), old(Value()), old(currentBlock), |old(instrs)[old(currentBlock)]|, Means(st), Brk(), Ft(), currentBlock, |instrs[currentBlock]|)
    {
      ghost var g0, b0 := Value(), currentBlock;
      assert t in TargetSet();
      EmitJump(t);
      ghost var g1 := Value();
      currentBlock := NewBasicBlock();
      ExecutesJump(g0, g1, b0, t, Means(st), Brk(), Ft(), currentBlock, 0);
      ExecutesStable(g1, Value(), g0, b0, |g0.instrs[b0]|, Means(st), Brk(), Ft(), currentBlock, 0);
      OnlyOn(g0, g1, Value(), b0, {t}, currentBlock, {}, TargetSet());
    }

    /** The statement st in the empty block b, and then a jump to done. */
    method LowerBranch(b: nat, st: Stmt, done: nat)
      requires WellFormed(Value()) && Open(Value(), b) && instrs[b] == [] && PhiFree(Value(), done) && done != b
      requires TargetsOk(b) && Legal(st, targets != [])
      modifies this
      ensures WellFormed(Value()) && targets == old(targets) && Only(old(Value()), Value(), b, TargetSet() + {done})
      ensures Executes(Value(), old(Value()), b, 0, Means(st), Brk(), Ft(), done, 0)
      decreases st, 3
    {
      ghost var g0 := Value();
      currentBlock := b;
      LowerStmt(st);
      ghost var g1, c := Value(), currentBlock;
      Untouched(g0, g1, b, TargetSet(), done);
      EmitJump(done);
      ExecutesJump(g1, Value(), c, done, Skip(), Brk(), Ft(), done, 0);
      ExecutesThen(g0, g1, Value(), b, 0, c, |g1.instrs[c]|, done, 0, Means(st), Skip(), Means(st), Brk(), Ft());
      OnlyOn(g0, g1, Value(), b, TargetSet(), c, {done}, TargetSet() + {done});
    }

    method LowerBlock(st: Stmt)
      requires st.Block? && Building() && TargetsOk(currentBlock) && Legal(st, targets != [])
      modifies this
      ensures Building() && targets == old(targets) && Only(old(Value()), Value(), old(currentBlock), TargetSet())
      ensures currentBlock == old(currentBlock) || currentBlock >= |old(instrs)|
      ensures Executes(Value(), old(Value()), old(currentBlock), |old(instrs)[old(currentBlock)]|, Means(st), Brk(), Ft(), currentBlock, |instrs[currentBlock]|)
      decreases st, 1
    {
      ghost var g0, b0, T := Value(), currentBlock, TargetSet();
      ExecutesNothing(g0, b0, |g0.instrs[b0]|, MeansFirst(st, 0), Brk(), Ft());
      OnlySelf(g0, b0);
      OnlyOld(g0, g0, b0, {}, TargetSet());
      for i := 0 to |st.list|
        invariant Building() && targets == old(targets) && Only(g0, Value(), b0, TargetSet())
        invariant currentBlock == b0 || currentBlock >= |g0.instrs|
        invariant Executes(Value(), g0, b0, |g0.instrs[b0]|, MeansFirst(st, i), Brk(), Ft(), currentBlock, |instrs[currentBlock]|)
      {
        ghost var g1, b1 := Value(), currentBlock;
        StillFree(g0, g1, b0, T, T);
        LowerStmt(st.list[i]);
        ExecutesThen(g0, g1, Value(), b0, |g0.instrs[b0]|, b1, |g1.instrs[b1]|, currentBlock, |instrs[currentBlock]|,
          MeansFirst(st, i), Means(st.list[i]), MeansFirst(st, i + 1), Brk(), Ft());
        OnlyOn(g0, g1, Value(), b0, TargetSet(), b1, TargetSet(), TargetSet());
      }
      SameMeaning(Value(), g0, b0, |g0.instrs[b0]|, MeansFirst(st, |st.list|), Means(st), Brk(), Ft(), currentBlock, |instrs[currentBlock]|);
    }

    /** The blocks of an if statement and its condition; without an else, els is done. */
    method StartIf(e: Expr, hasElse: bool) returns (thn: nat, done: nat, els: nat)
      requires Building()
      modifies this`instrs, this`preds, this`succs, this`currentBlock
      ensures WellFormed(Value()) && Only(old(Value()), Value(), old(currentBlock), {})
      ensures Branches(Value(), old(Value()), old(currentBlock), |old(instrs)[old(currentBlock)]|, e, thn, els)
      ensures Spare(old(Value()), Value(), thn) && Spare(old(Value()), Value(), done) && Spare(old(Value()), Value(), els)
      ensures thn != done && thn != els && (if hasElse then els != done else els == done)
    {
      ghost var g0, b0, pc0 := Value(), currentBlock, |instrs[currentBlock]|;
      thn := NewBasicBlock();
      OnlyNew(g0, Value(), b0, thn);
      done := NewBasicBlock();
      els := done;
      ghost var g1 := Value();
      OnlyOn(g0, WithBlock(g0), g1, b0, {}, done, {}, {});
      if hasElse {
        els := NewBasicBlock();
        OnlyOn(g0, g1, Value(), b0, {}, els, {}, {});
      }
      ghost var g2 := Value();
      Cond(e, thn, els);
      OnlyOn(g0, g2, Value(), b0, {}, b0, {thn, els}, {});
      Untouched(g2, Value(), b0, {thn, els}, thn);
      Untouched(g2, Value(), b0, {thn, els}, done);
      Untouched(g2, Value(), b0, {thn, els}, els);
      BranchesLess(Value(), g0, g2, b0, pc0, e, thn, els);
    }

    method LowerIf(st: Stmt)
      requires st.IfThen? && Building() && TargetsOk(currentBlock) && Legal(st, targets != [])
      modifies this
      ensures Building() && targets == old(targets) && Only(old(Value()), Value(), old(currentBlock), TargetSet())
      ensures currentBlock == old(currentBlock) || currentBlock >= |old(instrs)|
      ensures Executes(Value(), old(Value()), old(currentBlock), |old(instrs)[old(currentBlock)]|, Means(st), Brk(), Ft(), currentBlock, |instrs[currentBlock]|)
      decreases st, 1
    {
      ghost var g0, b0, pc0 := Value(), currentBlock, |instrs[currentBlock]|;
      ghost var T := TargetSet();
      assert forall t :: t in T ==> PhiFree(g0, t) && t != b0;
      var thn, done, els := StartIf(st.cond, false);
      ghost var g1 := Value();
      StillFree(g0, g1, b0, {}, T);
      assert TargetSet() == T && TargetsOk(thn);
      LowerBranch(thn, st.thn, done);
      Untouched(g1, Value(), thn, T + {done}, done);
      currentBlock := done;
      IfDone(g0, g1, Value(), b0, pc0, st, thn, done, T, Brk(), Ft());
    }

    method LowerIfElse(st: Stmt)
      requires st.IfElse? && Building() && TargetsOk(currentBlock) && Legal(st, targets != [])
      modifies this
      ensures Building() && targets == old(targets) && Only(old(Value()), Value(), old(currentBlock), TargetSet())
      ensures currentBlock == old(currentBlock) || currentBlock >= |old(instrs)|
      ensures Executes(Value(), old(Value()), old(currentBlock), |old(instrs)[old(currentBlock)]|, Means(st), Brk(), Ft(), currentBlock, |instrs[currentBlock]|)
      decreases st, 1
    {
      ghost var g0, b0, pc0 := Value(), currentBlock, |instrs[currentBlock]|;
      ghost var T := TargetSet();
      assert forall t :: t in T ==> PhiFree(g0, t) && t != b0;
      var thn, done, els := StartIf(st.cond, true);
      ghost var g1 := Value();
      StillFree(g0, g1, b0, {}, T);
      assert TargetSet() == T && TargetsOk(thn) && TargetsOk(els);
      ghost var g2 := LowerBranches(st, thn, els, done);
      currentBlock := done;
      IfElseDone(g0, g1, g2, Value(), b0, pc0, st, thn, els, done, T, Brk(), Ft());
    }

    /** Both branches of an if statement. */
    method LowerBranches(st: Stmt, thn: nat, els: nat, done: nat) returns (ghost g: Graph)
      requires st.IfElse? && WellFormed(Value()) && TargetsOk(thn) && TargetsOk(els) && Legal(st, targets != []) && thn != done && els != done && thn != els
      requires Open(Value(), thn) && Open(Value(), els) && Open(Value(), done) && instrs[thn] == instrs[els] == instrs[done] == []
      modifies this
      ensures WellFormed(Value()) && targets == old(targets) && Only(old(Value()), g, thn, TargetSet() + {done}) && Only(g, Value(), els, TargetSet() + {done})
      ensures Open(Value(), done) && instrs[done] == []
      ensures Executes(g, old(Value()), thn, 0, Means(st.thn), Brk(), Ft(), done, 0) && Executes(Value(), g, els, 0, Means(st.els), Brk(), Ft(), done, 0)
      decreases st, 0
    {
      ghost var g0, T := Value(), TargetSet();
      assert forall t :: t in T + {done} ==> PhiFree(g0, t) && t != thn && t != els;
      LowerBranch(thn, st.thn, done);
      g := Value();
      StillFree(g0, g, thn, T + {done}, T + {done});
      assert TargetSet() == T && TargetsOk(els);
      Untouched(g0, g, thn, T + {done}, els);
      Untouched(g0, g, thn, T + {done}, done);
      LowerBranch(els, st.els, done);
      Untouched(g, Value(), els, T + {done}, done);
    }

    method LowerSwitch(st: Stmt)
      requires st.Switch? && Building() && TargetsOk(currentBlock) && Legal(st, targets != [])
      modifies this
      ensures Building() && targets == old(targets) && Only(old(Value()), Value(), old(currentBlock), TargetSet())
      ensures currentBlock == old(currentBlock) || currentBlock >= |old(instrs)|
      ensures Executes(Value(), old(Value()), old(currentBlock), |old(instrs)[old(currentBlock)]|, Means(st), Brk(), Ft(), currentBlock, |instrs[currentBlock]|)
      decreases st, 1
    {
      ghost var g0, b0, pc0 := Value(), currentBlock, |instrs[currentBlock]|;
      var tag := LowerTag(st.tag);
      ghost var g1, b1 := Value(), currentBlock;
      var done := NewBasicBlock();
      ghost var w := Work(st, tag, done, g1, b1);
      StartClauses(w, Value());
      LowerClauses(st, tag, done, w, g0, b0, pc0);
      OnlyOn(g0, g1, Value(), b0, {}, b1, {}, TargetSet());
    }

    /** The clauses of a switch and its end. */
    method LowerClauses(st: Stmt, tag: Val, done: nat, ghost w: Work, ghost g0: Graph, ghost b0: nat, ghost pc0: nat)
      requires w.st == st && st.Switch? && Legal(st, false) && w.tag == tag && w.done == done && TagDone(w, g0, b0, pc0)
      requires Clausing(w, Value(), currentBlock, [], 0, NIL, NIL, NIL)
      modifies this
      ensures WellFormed(Value()) && targets == old(targets) && currentBlock == done && SwitchDone(w, g0, b0, pc0, Value(), Brk(), Ft())
      decreases st, 0, 2
    {
      ghost var bodies: seq<nat> := [];
      var fallthru, dflt, dfltNext := NIL, NIL, NIL;
      for i := 0 to |st.clauses|
        invariant targets == old(targets) && Clausing(w, Value(), currentBlock, bodies, i, fallthru, dflt, dfltNext)
      {
        bodies, fallthru, dflt, dfltNext := LowerClause(st, tag, done, i, fallthru, dflt, dfltNext, w, bodies);
      }
      FinishSwitch(st, done, dflt, dfltNext, g0, b0, pc0, w, bodies, fallthru);
    }

    /** The tag, or true if there is none. */
    method LowerTag(tag: Tag) returns (v: Val)
      requires Building()
      modifies this`instrs, this`preds, this`succs, this`currentBlock
      ensures Building() && Only(old(Value()), Value(), old(currentBlock), {}) && Exists(Value(), v)
      ensures currentBlock == old(currentBlock) || currentBlock >= |old(instrs)|
      ensures TagEvaluates(Value(), old(Value()), old(currentBlock), |old(instrs)[old(currentBlock)]|, tag, v, currentBlock, |instrs[currentBlock]|)
    {
      v := VTrue;
      OnlySelf(Value(), currentBlock);
      if tag.TagOf? {
        v := ExprValue(tag.e);
      }
    }

    /** The blocks for the body of clause i and for the next one. */
    method MakeBodies(done: nat, i: nat, n: nat, fallthru: int, ghost w: Work, ghost bodies: seq<nat>, ghost dflt: int, ghost dfltNext: int)
      returns (body: nat, next: nat, ghost bodies': seq<nat>)
      requires w.st.Switch? && n == |w.st.clauses| && done == w.done && i < n && Clausing(w, Value(), currentBlock, bodies, i, fallthru, dflt, dfltNext)
      modifies this`instrs, this`preds, this`succs
      ensures Prepared(w, Value(), currentBlock, bodies', i, dflt, dfltNext) && body == bodies'[i] && next == NextBody(w.st.clauses, bodies', done, i)
    {
      bodies' := bodies;
      if fallthru == NIL {
        BodyAdded(w, Value(), currentBlock, bodies', i, dflt, dfltNext);
        bodies' := bodies' + [|instrs|];
        body := NewBasicBlock();
      } else {
        body := fallthru;
      }
      next := done;
      if i + 1 < n {
        BodyAdded(w, Value(), currentBlock, bodies', i, dflt, dfltNext);
        bodies' := bodies' + [|instrs|];
        next := NewBasicBlock();
      }
    }

    /** One clause. */
    method LowerClause(st: Stmt, tag: Val, done: nat, i: nat, fallthru: int, dflt: int, dfltNext: int, ghost w: Work, ghost bodies: seq<nat>)
      returns (ghost bodies': seq<nat>, fallthru': int, dflt': int, dfltNext': int)
      requires w.st == st && st.Switch? && Legal(st, false) && w.tag == tag && w.done == done && i < |st.clauses|
      requires Clausing(w, Value(), currentBlock, bodies, i, fallthru, dflt, dfltNext)
      modifies this
      ensures targets == old(targets) && Clausing(w, Value(), currentBlock, bodies', i + 1, fallthru', dflt', dfltNext')
      decreases st, 0, 1
    {
      var body, next;
      body, next, bodies' := MakeBodies(done, i, |st.clauses|, fallthru, w, bodies, dflt, dfltNext);
      fallthru', dflt', dfltNext' := next, dflt, dfltNext;
      ghost var g, cur := Value(), currentBlock;
      if st.clauses[i].Default? {
        dflt', dfltNext' := body, next;
        DefaultDone(w, g, cur, bodies', i, dflt, dfltNext);
      } else {
        LowerCase(st, tag, done, i, body, next, w, bodies', dflt, dfltNext);
      }
    }

    /** A clause with case expressions: its tests, and its body. */
    method LowerCase(st: Stmt, tag: Val, done: nat, i: nat, body: nat, next: nat, ghost w: Work, ghost bodies: seq<nat>, ghost dflt: int, ghost dfltNext: int)
      requires w.st == st && st.Switch? && Legal(st, false) && w.tag == tag && w.done == done && i < |st.clauses| && st.clauses[i].Case?
      requires Prepared(w, Value(), currentBlock, bodies, i, dflt, dfltNext) && body == bodies[i] && next == NextBody(st.clauses, bodies, done, i)
      modifies this
      ensures targets == old(targets) && Clausing(w, Value(), currentBlock, bodies, i + 1, next, dflt, dfltNext)
      decreases st, 0, 0
    {
      ghost var g, cur := Value(), currentBlock;
      TagThere(w, g, cur);
      LowerTests(st.clauses[i].conds, tag, body);
      var nextCond := currentBlock;
      ghost var g2 := Value();
      BodyReady(w, g, g2, cur, bodies, i, dflt, dfltNext);
      LowerBody(body, st.clauses[i].body, done, next);
      currentBlock := nextCond;
      CaseDone(w, g, g2, Value(), cur, currentBlock, bodies, i, dflt, dfltNext);
    }

    /** The body of a clause, with the targets of the switch. */
    method LowerBody(b: nat, st: Stmt, done: nat, next: nat)
      requires WellFormed(Value()) && Open(Value(), b) && instrs[b] == [] && PhiFree(Value(), done) && PhiFree(Value(), next) && done != b && next != b
      requires Legal(st, true)
      modifies this
      ensures WellFormed(Value()) && targets == old(targets) && Only(old(Value()), Value(), b, {done, next} + {done})
      ensures Executes(Value(), old(Value()), b, 0, Means(st), done, next, done, 0)
      decreases st, 4
    {
      targets := targets + [Target(done, next)];
      LowerBranch(b, st, done);
      targets := targets[..|targets| - 1];
    }

    /** The jump after the last test, and the default if there is one. */
    method FinishSwitch(st: Stmt, done: nat, dflt: int, dfltNext: int, ghost g0: Graph, ghost b0: nat, ghost pc0: nat, ghost w: Work, ghost bodies: seq<nat>, ghost fallthru: int)
      requires w.st == st && st.Switch? && Legal(st, false) && w.done == done && TagDone(w, g0, b0, pc0)
      requires Clausing(w, Value(), currentBlock, bodies, |st.clauses|, fallthru, dflt, dfltNext)
      modifies this
      ensures WellFormed(Value()) && targets == old(targets) && currentBlock == done && SwitchDone(w, g0, b0, pc0, Value(), Brk(), Ft())
      decreases st, 0, 0
    {
      ghost var g, cur := Value(), currentBlock;
      var d := DefaultIndex(st.clauses, |st.clauses|);
      if dflt != NIL {
        EmitJump(dflt);
        ghost var g2 := Value();
        DefaultReady(w, g, g2, cur, bodies, fallthru, dflt, dfltNext);
        LowerBody(dflt, st.clauses[d].body, done, dfltNext);
        FinishDefault(w, g0, b0, pc0, g, cur, bodies, fallthru, dflt, dfltNext, g2, Value(), Brk(), Ft());
      } else {
        EmitJump(done);
        FinishPlain(w, g0, b0, pc0, g, cur, bodies, fallthru, dflt, dfltNext, Value(), Brk(), Ft());
      }
      currentBlock := done;
    }

    /** The comparisons of one case clause: to body at the first match, else on to a new block. */
    method LowerTests(conds: seq<Expr>, tag: Val, body: nat)
      requires Building() && PhiFree(Value(), body) && body != currentBlock && Exists(Value(), tag)
      modifies this`instrs, this`preds, this`succs, this`currentBlock
      ensures Building() && Only(old(Value()), Value(), old(currentBlock), {body})
      ensures currentBlock == old(currentBlock) || currentBlock >= |old(instrs)|
      ensures Tests(Value(), old(Value()), old(currentBlock), |old(instrs)[old(currentBlock)]|, tag, conds, |conds|, body, currentBlock, |instrs[currentBlock]|)
    {
      ghost var g0, b0, pc0 := Value(), currentBlock, |instrs[currentBlock]|;
      TestsNothing(g0, b0, pc0, tag, conds, body);
      OnlySelf(g0, b0);
      OnlyOld(g0, g0, b0, {}, {body});
      for k := 0 to |conds|
        invariant Building() && Only(g0, Value(), b0, {body}) && (currentBlock == b0 || currentBlock >= |g0.instrs|)
        invariant Tests(Value(), g0, b0, pc0, tag, conds, k, body, currentBlock, |instrs[currentBlock]|)
      {
        ghost var g1, b1 := Value(), currentBlock;
        StillFree(g0, g1, b0, {body}, {body});
        var v, b2, g2 := LowerTest(conds[k], tag, body);
        TestsOneMore(g0, g1, g2, Value(), b0, pc0, tag, conds, k, body, b1, |g1.instrs[b1]|, v, b2, currentBlock);
        OnlyOn(g0, g1, Value(), b0, {body}, b1, {body}, {body});
      }
    }

    /** emitCompare for the equality of a case with the tag; without a tag the case itself decides. */
    method EmitCompare(tag: Val, v: Val) returns (c: Val)
      requires Building()
      modifies this`instrs
      ensures Building() && Only(old(Value()), Value(), currentBlock, {})
      ensures instrs[currentBlock] + [If(c)] == old(instrs)[currentBlock] + Compare(tag, v, currentBlock, |old(instrs)[currentBlock]|)
    {
      if tag.VTrue? {
        OnlySelf(Value(), currentBlock);
        return v;
      }
      c := Emit(Eq(tag, v));
    }

    /** One comparison. */
    method LowerTest(e: Expr, tag: Val, body: nat) returns (v: Val, ghost b2: nat, ghost g2: Graph)
      requires Building() && PhiFree(Value(), body) && body != currentBlock
      modifies this`instrs, this`preds, this`succs, this`currentBlock
      ensures Building() && Only(old(Value()), Value(), old(currentBlock), {body}) && currentBlock >= |old(instrs)| && instrs[currentBlock] == []
      ensures Grows(old(Value()), g2) && Grows(g2, Value()) && b2 < |g2.instrs|
      ensures Evaluates(g2, old(Value()), old(currentBlock), |old(instrs)[old(currentBlock)]|, e, v, b2, |g2.instrs[b2]|)
      ensures instrs[b2] == g2.instrs[b2] + Compare(tag, v, b2, |g2.instrs[b2]|) && succs[b2] == [body, currentBlock]
    {
      ghost var g0, b0, pc0 := Value(), currentBlock, |instrs[currentBlock]|;
      var next := NewBasicBlock();
      ghost var g1 := Value();
      OnlyNew(g0, g1, b0, next);
      v := ExprValue(e);
      g2, b2 := Value(), currentBlock;
      EvaluatesLess(g2, g0, g1, b0, pc0, e, v, b2, |g2.instrs[b2]|);
      OnlyOn(g0, g1, g2, b0, {}, b0, {}, {});
      var c := EmitCompare(tag, v);
      ghost var g3 := Value();
      OnlyOn(g0, g2, g3, b0, {}, b2, {}, {});
      Untouched(g1, g2, b0, {}, next);
      Untouched(g2, g3, b2, {}, next);
      StillFree(g0, g3, b0, {}, {body});
      EmitIf(c, body, next);
      Untouched(g3, Value(), b2, {body, next}, next);
      OnlyOn(g0, g3, Value(), b0, {}, b2, {body, next}, {body});
      GrowsOn(g2, g3, Value());
      currentBlock := next;
    }
  }

  lemma IfDone(g0: Graph, g1: Graph, g2: Graph, b0: nat, pc0: nat, st: Stmt, thn: nat, done: nat, T: set<nat>, brk: int, ft: int)
    requires st.IfThen? && Only(g0, g1, b0, {}) && Only(g1, g2, thn, T + {done}) && thn >= |g0.instrs| && done >= |g0.instrs|
    requires Branches(g1, g0, b0, pc0, st.cond, thn, done) && Executes(g2, g1, thn, 0, Means(st.thn), brk, ft, done, 0)
    ensures Only(g0, g2, b0, T) && Executes(g2, g0, b0, pc0, Means(st), brk, ft, done, 0)
  {
    ExecutesNothing(g2, done, 0, Skip(), brk, ft);
    ExecutesLess(g2, g1, g2, done, 0, Skip(), brk, ft, done, 0);
    ExecutesIf(g0, g1, g2, b0, pc0, st.cond, thn, done, Means(st.thn), Skip(), Means(st), brk, ft, done, 0);
    OnlyOn(g0, g1, g2, b0, {}, thn, T + {done}, T);
  }

  lemma IfElseDone(g0: Graph, g1: Graph, g2: Graph, g3: Graph, b0: nat, pc0: nat, st: Stmt, thn: nat, els: nat, done: nat, T: set<nat>, brk: int, ft: int)
    requires st.IfElse? && Only(g0, g1, b0, {}) && thn >= |g0.instrs| && els >= |g0.instrs| && done >= |g0.instrs|
    requires Only(g1, g2, thn, T + {done}) && Only(g2, g3, els, T + {done}) && Branches(g1, g0, b0, pc0, st.cond, thn, els)
    requires Executes(g2, g1, thn, 0, Means(st.thn), brk, ft, done, 0) && Executes(g3, g2, els, 0, Means(st.els), brk, ft, done, 0)
    ensures Only(g0, g3, b0, T) && Executes(g3, g0, b0, pc0, Means(st), brk, ft, done, 0)
  {
    ExecutesStable(g2, g3, g1, thn, 0, Means(st.thn), brk, ft, done, 0);
    ExecutesLess(g3, g1, g2, els, 0, Means(st.els), brk, ft, done, 0);
    GrowsOn(g1, g2, g3);
    ExecutesIf(g0, g1, g3, b0, pc0, st.cond, thn, els, Means(st.thn), Means(st.els), Means(st), brk, ft, done, 0);
    OnlyOn(g0, g1, g2, b0, {}, thn, T + {done}, T);
    OnlyOn(g0, g2, g3, b0, T, els, T + {done}, T);
  }

  /** The meaning of the first n statements of a block. */
  ghost function MeansFirst(st: Stmt, n: nat): (M: Meaning)
    requires st.Block? && n <= |st.list|
    ensures forall O: Oracle, h :: M(O, h) == ExecFirst(O, st, n, h)
  {
    (O: Oracle, h: seq<nat>) => ExecFirst(O, st, n, h)
  }

  lemma SameMeaning(g: Graph, g0: Graph, b0: nat, pc0: nat, M: Meaning, M': Meaning, brk: int, ft: int, b1: nat, pc1: nat)
    requires Executes(g, g0, b0, pc0, M, brk, ft, b1, pc1) && forall O: Oracle, h :: M'(O, h) == M(O, h)
    ensures Executes(g, g0, b0, pc0, M', brk, ft, b1, pc1)
  {
    forall O: Oracle, s: State | At(s, b0, pc0) ensures ExecutesFrom(g, g0, O, s, M'(O, s.hist), brk, ft, b1, pc1) {
      assert ExecutesFrom(g, g0, O, s, M(O, s.hist), brk, ft, b1, pc1);
    }
  }

  /** The initial state of a function. */
  ghost function Start(): (s: State) {
    State(0, 0, 0, map[], [])
  }

  /** A whole body: in every execution the code evaluates and does, in order, what the statement does. */
  method LowerFunction(st: Stmt) returns (g: Graph, end: nat)
    requires Legal(st, false)
    ensures WellFormed(g) && end < |g.instrs|
    ensures forall O: Oracle :: ExecutesFrom(g, Graph([[]], [[]], [[]]), O, Start(), Exec(O, st, []), NIL, NIL, end, |g.instrs[end]|)
  {
    var b := new Builder();
    ghost var g0 := b.Value();
    b.LowerStmt(st);
    g, end := Graph(b.instrs, b.preds, b.succs), b.currentBlock;
    assert g == b.Value();
    forall O: Oracle ensures ExecutesFrom(g, g0, O, Start(), Exec(O, st, []), NIL, NIL, end, |g.instrs[end]|) {
      assert At(Start(), 0, 0);
      assert ExecutesFrom(g, g0, O, Start(), Means(st)(O, Start().hist), NIL, NIL, end, |g.instrs[end]|);
    }
  }
}
