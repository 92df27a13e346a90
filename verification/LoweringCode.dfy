/** Graphs under construction, and the meaning of the pieces of code that conditions and values are
    lowered to, from the meaning of their parts. */
module LoweringCode {
  import opened Flowgraphs
  import opened LoweringModel

  // ----- well-formed graphs under construction -----

  /** The edges at b are listed at both ends, each once; b has successors exactly if it ends in a
      transfer of control, and a phi of b has an operand for each predecessor. */
  ghost predicate BlockOk(g: Graph, b: nat)
    requires b < |g.instrs| == |g.preds| == |g.succs|
  {
    && Distinct(g.succs[b]) && Distinct(g.preds[b])
    && (forall v :: v in g.succs[b] ==> v < |g.preds| && b in g.preds[v])
    && (forall p :: p in g.preds[b] ==> p < |g.succs| && b in g.succs[p])
    && (forall i :: 0 <= i < |g.instrs[b]| && g.instrs[b][i].Phi? ==> |g.instrs[b][i].edges| == |g.preds[b]|)
    && (forall i :: 0 <= i < |g.instrs[b]| && IsControl(g.instrs[b][i]) ==> i == |g.instrs[b]| - 1 && g.succs[b] != [])
    && (g.succs[b] != [] ==> g.instrs[b] != [] && match g.instrs[b][|g.instrs[b]| - 1] case If(_) => |g.succs[b]| == 2 case Jump => |g.succs[b]| == 1 case _ => false)
  }

  ghost predicate WellFormed(g: Graph) {
    && |g.instrs| == |g.preds| == |g.succs|
    && forall b {:trigger BlockOk(g, b)} :: 0 <= b < |g.instrs| ==> BlockOk(g, b)
  }

  /** b may still be appended to. */
  ghost predicate Open(g: Graph, b: int) {
    0 <= b < |g.instrs| == |g.preds| == |g.succs| && g.succs[b] == []
  }

  ghost predicate PhiFree(g: Graph, b: nat) {
    b < |g.instrs| && forall i :: 0 <= i < |g.instrs[b]| ==> !g.instrs[b][i].Phi?
  }

  /** Nothing was done to the blocks of g but to c, which got no phi, except that those of T may
      have new predecessors. */
  ghost predicate Only(g: Graph, g': Graph, c: nat, T: set<nat>) {
    OnlyOrPhi(g, g', c, T) && (PhiFree(g, c) ==> PhiFree(g', c))
  }

  ghost predicate OnlyOrPhi(g: Graph, g': Graph, c: nat, T: set<nat>) {
    Grows(g, g') && forall b {:trigger Stays(g, g', c, T, b)} :: 0 <= b < |g.instrs| ==> Stays(g, g', c, T, b)
  }

  ghost predicate Stays(g: Graph, g': Graph, c: nat, T: set<nat>, b: nat)
    requires b < |g.instrs| == |g.preds| == |g.succs| <= |g'.instrs| == |g'.preds| == |g'.succs|
  {
    && (b != c ==> g'.instrs[b] == g.instrs[b] && g'.succs[b] == g.succs[b])
    && (b !in T ==> g'.preds[b] == g.preds[b])
  }

  /** Another block is what it was. */
  lemma Untouched(g: Graph, g': Graph, c: nat, T: set<nat>, b: nat)
    requires OnlyOrPhi(g, g', c, T) && b < |g.instrs| && b != c
    ensures g'.instrs[b] == g.instrs[b] && g'.succs[b] == g.succs[b] && (b !in T ==> g'.preds[b] == g.preds[b])
  {
    assert Stays(g, g', c, T, b);
  }

  lemma OnlyOn(g: Graph, g1: Graph, g2: Graph, c: nat, T: set<nat>, c1: nat, T1: set<nat>, U: set<nat>)
    requires Only(g, g1, c, T) && Only(g1, g2, c1, T1)
    requires c1 == c || c1 >= |g.instrs|
    requires forall b :: b < |g.instrs| && (b in T || b in T1) ==> b in U
    ensures Only(g, g2, c, U)
  {
    GrowsOn(g, g1, g2);
    forall b | 0 <= b < |g.instrs| ensures Stays(g, g2, c, U, b) {
      assert Stays(g, g1, c, T, b) && Stays(g1, g2, c1, T1, b);
    }
    if c < |g.instrs| { assert Stays(g1, g2, c1, T1, c); }
  }

  /** The parts of T that g does not have do not matter. */
  lemma OnlyOld(g: Graph, g': Graph, c: nat, T: set<nat>, T': set<nat>)
    requires Only(g, g', c, T) && forall b :: b in T && b < |g.instrs| ==> b in T'
    ensures Only(g, g', c, T')
  {
    forall b | 0 <= b < |g.instrs| ensures Stays(g, g', c, T', b) {
      assert Stays(g, g', c, T, b);
    }
  }

  // ----- graph updates -----

  function WithBlock(g: Graph): (g': Graph) {
    Graph(g.instrs + [[]], g.preds + [[]], g.succs + [[]])
  }

  function WithInstr(g: Graph, b: nat, i: Instr): (g': Graph)
    requires b < |g.instrs|
  {
    g.(instrs := g.instrs[b := g.instrs[b] + [i]])
  }

  function WithEdge(g: Graph, b: nat, t: nat): (g': Graph)
    requires b < |g.succs| && t < |g.preds|
  {
    g.(succs := g.succs[b := g.succs[b] + [t]], preds := g.preds[t := g.preds[t] + [b]])
  }

  lemma BlockAdded(g: Graph)
    requires WellFormed(g)
    ensures WellFormed(WithBlock(g)) && Only(g, WithBlock(g), |g.instrs|, {}) && Open(WithBlock(g), |g.instrs|) && PhiFree(WithBlock(g), |g.instrs|)
  {
    forall b | 0 <= b < |g.instrs| + 1 ensures BlockOk(WithBlock(g), b) {
      if b < |g.instrs| { assert BlockOk(g, b); }
    }
  }

  lemma InstrAdded(g: Graph, b: nat, i: Instr)
    requires WellFormed(g) && Open(g, b) && !IsControl(i) && (i.Phi? ==> |i.edges| == |g.preds[b]|)
    ensures WellFormed(WithInstr(g, b, i)) && OnlyOrPhi(g, WithInstr(g, b, i), b, {}) && Open(WithInstr(g, b, i), b)
    ensures !i.Phi? ==> Only(g, WithInstr(g, b, i), b, {})
  {
    var g' := WithInstr(g, b, i);
    forall x | 0 <= x < |g'.instrs| ensures BlockOk(g', x) {
      assert BlockOk(g, x);
      forall v | v in g'.succs[x] ensures v < |g'.preds| && x in g'.preds[v] {
      }
    }
  }

  lemma JumpAdded(g: Graph, b: nat, t: nat)
    requires WellFormed(g) && Open(g, b) && PhiFree(g, t)
    ensures var g' := WithEdge(WithInstr(g, b, Jump), b, t); WellFormed(g') && Only(g, g', b, {t}) && g'.preds[t] == g.preds[t] + [b] && b !in g.preds[t]
  {
    var g' := WithEdge(WithInstr(g, b, Jump), b, t);
    assert BlockOk(g, t) && BlockOk(g, b);
    DistinctAppend(g.preds[t], b);
    forall x | 0 <= x < |g'.instrs| ensures BlockOk(g', x) {
      assert BlockOk(g, x);
    }
    assert forall x :: 0 <= x < |g.instrs| ==> BlockGrows(g, g', x);
  }

  lemma IfAdded(g: Graph, b: nat, c: Val, t: nat, f: nat)
    requires WellFormed(g) && Open(g, b) && PhiFree(g, t) && PhiFree(g, f) && t != f
    ensures var g' := WithEdge(WithEdge(WithInstr(g, b, If(c)), b, t), b, f);
      && WellFormed(g') && Only(g, g', b, {t, f}) && g'.preds[t] == g.preds[t] + [b] && g'.preds[f] == g.preds[f] + [b]
      && g'.succs[b] == [t, f] && g'.instrs[b] == g.instrs[b] + [If(c)]
  {
    var g' := WithEdge(WithEdge(WithInstr(g, b, If(c)), b, t), b, f);
    assert BlockOk(g, t) && BlockOk(g, f) && BlockOk(g, b);
    DistinctAppend(g.preds[t], b);
    DistinctAppend(g.preds[f], b);
    assert g'.succs[b] == [t, f];
    forall x | 0 <= x < |g'.instrs| ensures BlockOk(g', x) {
      assert BlockOk(g, x);
    }
    assert forall x :: 0 <= x < |g.instrs| ==> BlockGrows(g, g', x);
  }

  // ----- conditions -----

  lemma BranchesParen(g: Graph, g0: Graph, b0: nat, pc0: nat, x: Expr, t: nat, f: nat)
    requires Branches(g, g0, b0, pc0, x, t, f)
    ensures Branches(g, g0, b0, pc0, Paren(x), t, f)
  {
    forall O: Oracle, s: State | At(s, b0, pc0) ensures BranchesFrom(g, g0, O, s, Paren(x), t, f) {
      assert BranchesFrom(g, g0, O, s, x, t, f);
      var s' :| Reaches(g, O, s, s') && BranchedTo(g, g0, O, s, x, t, f, s');
      assert BranchedTo(g, g0, O, s, Paren(x), t, f, s');
    }
  }

  lemma BranchesNot(g: Graph, g0: Graph, b0: nat, pc0: nat, x: Expr, t: nat, f: nat)
    requires Branches(g, g0, b0, pc0, x, f, t)
    ensures Branches(g, g0, b0, pc0, Not(x), t, f)
  {
    forall O: Oracle, s: State | At(s, b0, pc0) ensures BranchesFrom(g, g0, O, s, Not(x), t, f) {
      assert BranchesFrom(g, g0, O, s, x, f, t);
      var s' :| Reaches(g, O, s, s') && BranchedTo(g, g0, O, s, x, f, t, s');
      assert BranchedTo(g, g0, O, s, Not(x), t, f, s');
    }
  }

  /** The code for x in g1, and the one for y from block m on in g2. */
  lemma BranchesBinop(g0: Graph, g1: Graph, g2: Graph, b0: nat, pc0: nat, e: Expr, m: nat, t: nat, f: nat)
    requires (e.And? && Branches(g1, g0, b0, pc0, e.x, m, f)) || (e.Or? && Branches(g1, g0, b0, pc0, e.x, t, m))
    requires Grows(g0, g1) && Grows(g1, g2) && Branches(g2, g1, m, 0, e.y, t, f)
    ensures Branches(g2, g0, b0, pc0, e, t, f)
  {
    forall O: Oracle, s: State | At(s, b0, pc0) ensures BranchesFrom(g2, g0, O, s, e, t, f) {
      var tx, fx := if e.And? then m else t, if e.And? then f else m;
      assert BranchesFrom(g1, g0, O, s, e.x, tx, fx);
      var s1 :| Reaches(g1, O, s, s1) && BranchedTo(g1, g0, O, s, e.x, tx, fx, s1);
      ReachesStable(g1, g2, O, s, s1);
      if Truth(Eval(O, e.x, s.hist).value) == e.And? {
        assert BranchesFrom(g2, g1, O, s1, e.y, t, f);
        var s2 :| Reaches(g2, O, s1, s2) && BranchedTo(g2, g1, O, s1, e.y, t, f, s2);
        ReachesOn(g2, O, s, s1, s2);
        KeptOn(g0, g1, s.env, s1.env, s2.env);
        assert BranchedTo(g2, g0, O, s, e, t, f, s2);
      } else {
        assert BlockGrows(g1, g2, s1.b);
        assert BranchedTo(g2, g0, O, s, e, t, f, s1);
      }
    }
  }

  /** An If on the value of e. */
  lemma BranchesIf(g0: Graph, g1: Graph, g2: Graph, b0: nat, pc0: nat, e: Expr, v: Val, b1: nat, t: nat, f: nat)
    requires Grows(g0, g1) && Grows(g1, g2) && b1 < |g1.instrs| && Evaluates(g1, g0, b0, pc0, e, v, b1, |g1.instrs[b1]|)
    requires g2.instrs[b1] == g1.instrs[b1] + [If(v)] && g2.succs[b1] == [t, f]
    requires t < |g2.preds| && f < |g2.preds| && b1 in g2.preds[t] && b1 in g2.preds[f]
    ensures Branches(g2, g0, b0, pc0, e, t, f)
  {
    forall O: Oracle, s: State | At(s, b0, pc0) ensures BranchesFrom(g2, g0, O, s, e, t, f) {
      assert EvaluatesFrom(g1, g0, O, s, e, v, b1, |g1.instrs[b1]|);
      var s1 :| Reaches(g1, O, s, s1) && EvaluatedTo(g0, O, s, e, v, b1, |g1.instrs[b1]|, s1);
      ReachesStable(g1, g2, O, s, s1);
      ReachesStep(g2, O, s, s1);
      assert BranchedTo(g2, g0, O, s, e, t, f, Step(g2, O, s1));
    }
  }

  // ----- values -----

  lemma EvaluatesConst(g: Graph, b: nat, pc: nat, e: Expr)
    requires IsConst(e)
    ensures Evaluates(g, g, b, pc, e, Const(ConstValue(e)), b, pc)
  {
    forall O: Oracle, s: State | At(s, b, pc) ensures EvaluatesFrom(g, g, O, s, e, Const(ConstValue(e)), b, pc) {
      ConstMeans(O, e, s.hist);
      ReachesSelf(g, O, s);
      assert EvaluatedTo(g, O, s, e, Const(ConstValue(e)), b, pc, s);
    }
  }

  lemma EvaluatesLeaf(g: Graph, b: nat, id: nat)
    requires WellFormed(g) && Open(g, b)
    ensures Evaluates(WithInstr(g, b, Do(id)), g, b, |g.instrs[b]|, Leaf(id), Reg(b, |g.instrs[b]|), b, |g.instrs[b]| + 1)
  {
    var g', pc := WithInstr(g, b, Do(id)), |g.instrs[b]|;
    var pc1 := pc + 1;
    forall O: Oracle, s: State | At(s, b, pc) ensures EvaluatesFrom(g', g, O, s, Leaf(id), Reg(b, pc), b, pc1) {
      ReachesSelf(g', O, s);
      ReachesStep(g', O, s, s);
      assert EvaluatedTo(g, O, s, Leaf(id), Reg(b, pc), b, pc + 1, Step(g', O, s));
    }
  }

  lemma EvaluatesParen(g: Graph, g0: Graph, b0: nat, pc0: nat, x: Expr, v: Val, b1: nat, pc1: nat)
    requires Evaluates(g, g0, b0, pc0, x, v, b1, pc1)
    ensures Evaluates(g, g0, b0, pc0, Paren(x), v, b1, pc1)
  {
    forall O: Oracle, s: State | At(s, b0, pc0) ensures EvaluatesFrom(g, g0, O, s, Paren(x), v, b1, pc1) {
      assert EvaluatesFrom(g, g0, O, s, x, v, b1, pc1);
      var s' :| Reaches(g, O, s, s') && EvaluatedTo(g0, O, s, x, v, b1, pc1, s');
      assert EvaluatedTo(g0, O, s, Paren(x), v, b1, pc1, s');
    }
  }

  lemma EvaluatesNot(g0: Graph, g1: Graph, b0: nat, pc0: nat, x: Expr, v: Val, b1: nat)
    requires Grows(g0, g1) && WellFormed(g1) && Open(g1, b1) && Evaluates(g1, g0, b0, pc0, x, v, b1, |g1.instrs[b1]|)
    ensures Evaluates(WithInstr(g1, b1, Neg(v)), g0, b0, pc0, Not(x), Reg(b1, |g1.instrs[b1]|), b1, |g1.instrs[b1]| + 1)
  {
    var g2, pc := WithInstr(g1, b1, Neg(v)), |g1.instrs[b1]|;
    InstrAdded(g1, b1, Neg(v));
    var pc1 := pc + 1;
    forall O: Oracle, s: State | At(s, b0, pc0) ensures EvaluatesFrom(g2, g0, O, s, Not(x), Reg(b1, pc), b1, pc1) {
      assert EvaluatesFrom(g1, g0, O, s, x, v, b1, pc);
      var s1 :| Reaches(g1, O, s, s1) && EvaluatedTo(g0, O, s, x, v, b1, pc, s1);
      ReachesStable(g1, g2, O, s, s1);
      ReachesStep(g2, O, s, s1);
      DefineKeeps(g0, g1, s1, if Truth(ValOf(s1.env, v)) then 0 else 1);
      KeptOn(g0, g0, s.env, s1.env, Step(g2, O, s1).env);
      assert EvaluatedTo(g0, O, s, Not(x), Reg(b1, pc), b1, pc + 1, Step(g2, O, s1));
    }
  }

  /** A new register is none of the old ones. */
  lemma DefineKeeps(g0: Graph, g1: Graph, s: State, x: int)
    requires Grows(g0, g1) && s.b < |g1.instrs| && s.pc >= |g1.instrs[s.b]|
    ensures Kept(g0, s.env, Define(s, x).env) && Grows(g0, g0)
  {
    forall b: nat, i: nat | b < |g0.instrs| && i < |g0.instrs[b]| ensures (b, i) != (s.b, s.pc) {
      assert BlockGrows(g0, g1, b);
    }
  }

  // ----- reified conditions -----

  /** The stages of the code for x && y or x || y: g2 after the condition x, g3 after the value of y
      in block rhs, g4 after the jump to done, g5 after the phi. */
  ghost predicate Binop(g0: Graph, g2: Graph, g3: Graph, g4: Graph, g5: Graph, b0: nat, pc0: nat, e: Expr, v: Val, rhs: nat, done: nat, c: nat) {
    && Grows(g0, g2) && Grows(g2, g3) && Grows(g3, g4) && Grows(g4, g5) && done < |g2.instrs|
    && ((e.And? && Branches(g2, g0, b0, pc0, e.x, rhs, done)) || (e.Or? && Branches(g2, g0, b0, pc0, e.x, done, rhs)))
    && c < |g3.instrs| && Evaluates(g3, g2, rhs, 0, e.y, v, c, |g3.instrs[c]|)
    && g4.instrs[c] == g3.instrs[c] + [Jump] && g4.succs[c] == [done]
    && g5.preds[done] == g2.preds[done] + [c] && c !in g2.preds[done] && g2.instrs[done] == []
    && |g5.instrs[done]| == 1 && g5.instrs[done][0].Phi? && |g5.instrs[done][0].edges| == |g2.preds[done]| + 1
    && (forall k :: 0 <= k < |g2.preds[done]| ==> g5.instrs[done][0].edges[k] == Const(if e.And? then 0 else 1))
    && g5.instrs[done][0].edges[|g2.preds[done]|] == v
  }

  /** On the short path the phi has the operand of the predecessor that the condition came from. */
  lemma BinopShort(g0: Graph, g2: Graph, g3: Graph, g4: Graph, g5: Graph, b0: nat, pc0: nat, e: Expr, v: Val, rhs: nat, done: nat, c: nat, O: Oracle, s: State, s1: State)
    requires Binop(g0, g2, g3, g4, g5, b0, pc0, e, v, rhs, done, c) && Reaches(g2, O, s, s1)
    requires At(s1, done, 0) && s1.prev in g2.preds[done] && Kept(g0, s.env, s1.env)
    requires s1.hist == Eval(O, e.x, s.hist).hist && Truth(Eval(O, e.x, s.hist).value) == e.Or?
    ensures EvaluatesFrom(g5, g0, O, s, e, Reg(done, 0), done, 1)
  {
    GrowsOn(g2, g3, g4);
    GrowsOn(g2, g4, g5);
    ReachesStable(g2, g5, O, s, s1);
    FirstIndexStable(g2.preds[done], g5.preds[done], s1.prev);
    ReachesStep(g5, O, s, s1);
    DefineKeeps(g0, g2, s1, if e.And? then 0 else 1);
    KeptOn(g0, g0, s.env, s1.env, Step(g5, O, s1).env);
    assert EvaluatedTo(g0, O, s, e, Reg(done, 0), done, 1, Step(g5, O, s1));
  }

  /** On the long path it has the value of y. */
  lemma BinopLong(g0: Graph, g2: Graph, g3: Graph, g4: Graph, g5: Graph, b0: nat, pc0: nat, e: Expr, v: Val, rhs: nat, done: nat, c: nat, O: Oracle, s: State, s1: State)
    requires Binop(g0, g2, g3, g4, g5, b0, pc0, e, v, rhs, done, c) && Reaches(g2, O, s, s1)
    requires At(s1, rhs, 0) && Kept(g0, s.env, s1.env)
    requires s1.hist == Eval(O, e.x, s.hist).hist && Truth(Eval(O, e.x, s.hist).value) == e.And?
    ensures EvaluatesFrom(g5, g0, O, s, e, Reg(done, 0), done, 1)
  {
    assert EvaluatesFrom(g3, g2, O, s1, e.y, v, c, |g3.instrs[c]|);
    var s2 :| Reaches(g3, O, s1, s2) && EvaluatedTo(g2, O, s1, e.y, v, c, |g3.instrs[c]|, s2);
    GrowsOn(g2, g3, g4);
    GrowsOn(g2, g4, g5);
    GrowsOn(g3, g4, g5);
    ReachesStable(g2, g5, O, s, s1);
    ReachesStable(g3, g5, O, s1, s2);
    ReachesOn(g5, O, s, s1, s2);
    assert BlockGrows(g4, g5, c);
    ReachesStep(g5, O, s, s2);
    var s3 := Step(g5, O, s2);
    assert s3 == State(done, c, 0, s2.env, s2.hist);
    assert FirstIndex(g5.preds[done], c) == |g2.preds[done]| by {
      assert forall k :: 0 <= k < |g2.preds[done]| ==> g5.preds[done][k] == g2.preds[done][k];
    }
    ReachesStep(g5, O, s, s3);
    KeptOn(g0, g2, s.env, s1.env, s2.env);
    DefineKeeps(g0, g2, s3, ValOf(s2.env, v));
    KeptOn(g0, g0, s.env, s2.env, Step(g5, O, s3).env);
    assert EvaluatedTo(g0, O, s, e, Reg(done, 0), done, 1, Step(g5, O, s3));
  }

  lemma EvaluatesBinop(g0: Graph, g2: Graph, g3: Graph, g4: Graph, g5: Graph, b0: nat, pc0: nat, e: Expr, v: Val, rhs: nat, done: nat, c: nat)
    requires Binop(g0, g2, g3, g4, g5, b0, pc0, e, v, rhs, done, c)
    ensures Evaluates(g5, g0, b0, pc0, e, Reg(done, 0), done, 1)
  {
    forall O: Oracle, s: State | At(s, b0, pc0) ensures EvaluatesFrom(g5, g0, O, s, e, Reg(done, 0), done, 1) {
      var tx, fx := if e.And? then rhs else done, if e.And? then done else rhs;
      assert BranchesFrom(g2, g0, O, s, e.x, tx, fx);
      var s1 :| Reaches(g2, O, s, s1) && BranchedTo(g2, g0, O, s, e.x, tx, fx, s1);
      if Truth(Eval(O, e.x, s.hist).value) == e.And? {
        BinopLong(g0, g2, g3, g4, g5, b0, pc0, e, v, rhs, done, c, O, s, s1);
      } else {
        BinopShort(g0, g2, g3, g4, g5, b0, pc0, e, v, rhs, done, c, O, s, s1);
      }
    }
  }

  // ----- putting pieces together -----

  lemma OnlyNew(g0: Graph, g1: Graph, b0: nat, m: nat)
    requires Only(g0, g1, m, {}) && m >= |g0.instrs|
    ensures Only(g0, g1, b0, {})
  {
    forall b | 0 <= b < |g0.instrs| ensures Stays(g0, g1, b0, {}, b) {
      assert Stays(g0, g1, m, {}, b);
    }
    if b0 < |g0.instrs| { assert Stays(g0, g1, m, {}, b0); }
  }

  lemma BranchesLess(g: Graph, g0: Graph, g1: Graph, b0: nat, pc0: nat, e: Expr, t: nat, f: nat)
    requires Grows(g0, g1) && Branches(g, g1, b0, pc0, e, t, f)
    ensures Branches(g, g0, b0, pc0, e, t, f)
  {
    forall O: Oracle, s: State | At(s, b0, pc0) ensures BranchesFrom(g, g0, O, s, e, t, f) {
      assert BranchesFrom(g, g1, O, s, e, t, f);
      var s' :| Reaches(g, O, s, s') && BranchedTo(g, g1, O, s, e, t, f, s');
      KeptLess(g0, g1, s.env, s'.env);
      assert BranchedTo(g, g0, O, s, e, t, f, s');
    }
  }

  lemma EvaluatesLess(g: Graph, g0: Graph, g1: Graph, b0: nat, pc0: nat, e: Expr, v: Val, b1: nat, pc1: nat)
    requires Grows(g0, g1) && Evaluates(g, g1, b0, pc0, e, v, b1, pc1)
    ensures Evaluates(g, g0, b0, pc0, e, v, b1, pc1)
  {
    forall O: Oracle, s: State | At(s, b0, pc0) ensures EvaluatesFrom(g, g0, O, s, e, v, b1, pc1) {
      assert EvaluatesFrom(g, g1, O, s, e, v, b1, pc1);
      var s' :| Reaches(g, O, s, s') && EvaluatedTo(g1, O, s, e, v, b1, pc1, s');
      KeptLess(g0, g1, s.env, s'.env);
      assert EvaluatedTo(g0, O, s, e, v, b1, pc1, s');
    }
  }

  /** The condition x && y or x || y from its two conditions. */
  lemma CondBinopDone(g0: Graph, g1: Graph, g2: Graph, g3: Graph, b0: nat, e: Expr, m: nat, t: nat, f: nat)
    requires b0 < |g0.instrs| == m && t < m && f < m && Only(g0, g1, b0, {}) && g1.instrs[b0] == g0.instrs[b0]
    requires (e.And? && Only(g1, g2, b0, {m, f}) && Branches(g2, g1, b0, |g1.instrs[b0]|, e.x, m, f))
      || (e.Or? && Only(g1, g2, b0, {t, m}) && Branches(g2, g1, b0, |g1.instrs[b0]|, e.x, t, m))
    requires Only(g2, g3, m, {t, f}) && Branches(g3, g2, m, 0, e.y, t, f)
    ensures Only(g0, g3, b0, {t, f}) && Branches(g3, g0, b0, |g0.instrs[b0]|, e, t, f)
  {
    var T := if e.And? then {m, f} else {t, m};
    OnlyOn(g0, g1, g2, b0, {}, b0, T, {t, f});
    OnlyOn(g0, g2, g3, b0, {t, f}, m, {t, f}, {t, f});
    BranchesBinop(g1, g2, g3, b0, |g0.instrs[b0]|, e, m, t, f);
    BranchesLess(g3, g0, g1, b0, |g0.instrs[b0]|, e, t, f);
  }

  /** Nothing was done to the blocks of g but to a and c, and only c has new predecessors. */
  ghost predicate TwoBlocks(g: Graph, g': Graph, a: nat, c: nat) {
    && Grows(g, g')
    && (forall b :: 0 <= b < |g.instrs| && b != a && b != c ==> g'.instrs[b] == g.instrs[b] && g'.succs[b] == g.succs[b])
    && (forall b :: 0 <= b < |g.instrs| && b != c ==> g'.preds[b] == g.preds[b])
  }

  lemma TwoBlocksOn(g2: Graph, g3: Graph, g4: Graph, g5: Graph, rhs: nat, c: nat, done: nat)
    requires Only(g2, g3, rhs, {}) && (c == rhs || c >= |g2.instrs|) && Only(g3, g4, c, {done}) && OnlyOrPhi(g4, g5, done, {})
    ensures TwoBlocks(g2, g5, rhs, done)
  {
    GrowsOn(g2, g3, g4);
    GrowsOn(g2, g4, g5);
    forall b | 0 <= b < |g2.instrs|
      ensures b != rhs && b != done ==> g5.instrs[b] == g2.instrs[b] && g5.succs[b] == g2.succs[b]
      ensures b != done ==> g5.preds[b] == g2.preds[b]
    {
      assert Stays(g2, g3, rhs, {}, b) && Stays(g3, g4, c, {done}, b) && Stays(g4, g5, done, {}, b);
    }
  }

  lemma OnlyTwo(g0: Graph, g2: Graph, g5: Graph, b0: nat, rhs: nat, done: nat)
    requires Only(g0, g2, b0, {rhs, done}) && TwoBlocks(g2, g5, rhs, done) && rhs >= |g0.instrs| && done >= |g0.instrs|
    ensures Only(g0, g5, b0, {})
  {
    GrowsOn(g0, g2, g5);
    forall b | 0 <= b < |g0.instrs| ensures Stays(g0, g5, b0, {}, b) {
      assert Stays(g0, g2, b0, {rhs, done}, b);
    }
  }

  /** Blocks that are not worked on keep their phis, if any. */
  lemma StillFree(g: Graph, g': Graph, b: nat, T: set<nat>, S: set<nat>)
    requires Only(g, g', b, T) && forall t :: t in S ==> PhiFree(g, t)
    ensures forall t :: t in S ==> PhiFree(g', t) && t < |g.instrs|
  {
    forall t | t in S ensures PhiFree(g', t) && t < |g.instrs| {
      assert Stays(g, g', b, T, t);
    }
  }

  lemma OnlySelf(g: Graph, c: nat)
    requires WellFormed(g)
    ensures Only(g, g, c, {})
  {
  }
}
