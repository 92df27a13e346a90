/** Statements with if, switch, break and fallthrough: what they mean, and the meaning of the code
    they are lowered to from the meaning of its parts. */
module Statements {
  import opened Flowgraphs
  import opened LoweringModel
  import opened LoweringCode

  // ----- statements -----

  datatype Stmt =
    | Act(id: nat)
    | Break
    | Fallthrough
    | IfThen(cond: Expr, thn: Stmt)
    | IfElse(cond: Expr, thn: Stmt, els: Stmt)
    | Block(list: seq<Stmt>)
    | Switch(tag: Tag, clauses: seq<Clause>)

  datatype Tag = NoTag | TagOf(e: Expr)

  datatype Clause = Case(conds: seq<Expr>, body: Stmt) | Default(body: Stmt)

  /** How a statement ends: normally, by leaving the innermost switch, or by going on with the next clause. */
  datatype Flow = Normal | Broke | Fell

  datatype Done = Done(flow: Flow, hist: seq<nat>)

  function Exec(O: Oracle, st: Stmt, h: seq<nat>): (r: Done)
    decreases st, 1, 0
  {
    match st
    case Act(id) => Done(Normal, h + [id])
    case Break => Done(Broke, h)
    case Fallthrough => Done(Fell, h)
    case IfThen(c, a) => var r := Eval(O, c, h); if Truth(r.value) then Exec(O, a, r.hist) else Done(Normal, r.hist)
    case IfElse(c, a, b) => var r := Eval(O, c, h); if Truth(r.value) then Exec(O, a, r.hist) else Exec(O, b, r.hist)
    case Block(list) => ExecFirst(O, st, |list|, h)
    case Switch(tag, clauses) =>
      var t := TagValue(O, tag, h);
      var p := Selected(O, clauses, t.value, |clauses|, t.hist);
      var i := if p.index >= 0 then p.index else DefaultIndex(clauses, |clauses|);
      if 0 <= i < |clauses| then RunClauses(O, st, i, p.hist) else Done(Normal, p.hist)
  }

  /** The first n statements of a block. */
  function ExecFirst(O: Oracle, st: Stmt, n: nat, h: seq<nat>): (r: Done)
    requires st.Block? && n <= |st.list|
    decreases st, 0, n
  {
    if n == 0 then Done(Normal, h) else
    var r := ExecFirst(O, st, n - 1, h);
    if r.flow.Normal? then Exec(O, st.list[n - 1], r.hist) else r
  }

  /** The clause i of a switch, and those it falls through to. */
  function RunClauses(O: Oracle, st: Stmt, i: nat, h: seq<nat>): (r: Done)
    requires st.Switch? && i <= |st.clauses|
    decreases st, 0, |st.clauses| - i
  {
    if i == |st.clauses| then Done(Normal, h) else
    var r := Exec(O, st.clauses[i].body, h);
    if r.flow.Fell? then RunClauses(O, st, i + 1, r.hist) else Done(Normal, r.hist)
  }

  /** The value of the tag, and what has been evaluated. */
  datatype Tagged = Tagged(value: TagVal, hist: seq<nat>)

  function TagValue(O: Oracle, tag: Tag, h: seq<nat>): (r: Tagged) {
    match tag
    case NoTag => Tagged(IsTrue, h)
    case TagOf(e) => var r := Eval(O, e, h); Tagged(Equals(r.value), r.hist)
  }

  datatype Test = Test(matched: bool, hist: seq<nat>)

  /** What a case expression is compared with; without a tag it is a condition. */
  datatype TagVal = IsTrue | Equals(v: int)

  predicate Matches(tv: TagVal, v: int) {
    match tv case IsTrue => Truth(v) case Equals(w) => v == w
  }

  /** The first n case expressions, compared one after the other until one matches. */
  function Tested(O: Oracle, conds: seq<Expr>, tv: TagVal, n: nat, h: seq<nat>): (r: Test)
    requires n <= |conds|
  {
    if n == 0 then Test(false, h) else
    var r := Tested(O, conds, tv, n - 1, h);
    if r.matched then r else
    var e := Eval(O, conds[n - 1], r.hist);
    Test(Matches(tv, e.value), e.hist)
  }

  /** The clause chosen, or -1, and what has been evaluated to choose it. */
  datatype Pick = Pick(index: int, hist: seq<nat>)

  /** The first clause in source order with a match, among the first n; the default is passed over. */
  function Selected(O: Oracle, clauses: seq<Clause>, tv: TagVal, n: nat, h: seq<nat>): (r: Pick)
    requires n <= |clauses|
    ensures -1 <= r.index < n
    ensures r.index >= 0 ==> clauses[r.index].Case?
  {
    if n == 0 then Pick(-1, h) else
    var r := Selected(O, clauses, tv, n - 1, h);
    if r.index >= 0 || clauses[n - 1].Default? then r else
    var t := Tested(O, clauses[n - 1].conds, tv, |clauses[n - 1].conds|, r.hist);
    Pick(if t.matched then n - 1 else -1, t.hist)
  }

  /** The default among the first n clauses, or -1. */
  function DefaultIndex(clauses: seq<Clause>, n: nat): (i: int)
    requires n <= |clauses|
    ensures -1 <= i < n && (i >= 0 ==> clauses[i].Default?)
    ensures forall j :: 0 <= j < n && clauses[j].Default? ==> j <= i
  {
    if n == 0 then -1 else if clauses[n - 1].Default? then n - 1 else DefaultIndex(clauses, n - 1)
  }

  /** break and fallthrough are inside a switch; a switch has at most one default, and its other
      clauses have case expressions. */
  ghost predicate Legal(st: Stmt, inSwitch: bool) {
    match st
    case Act(_) => true
    case Break => inSwitch
    case Fallthrough => inSwitch
    case IfThen(_, a) => Legal(a, inSwitch)
    case IfElse(_, a, b) => Legal(a, inSwitch) && Legal(b, inSwitch)
    case Block(list) => forall i :: 0 <= i < |list| ==> Legal(list[i], inSwitch)
    case Switch(_, clauses) =>
      && (forall i :: 0 <= i < |clauses| ==> Legal(clauses[i].body, true))
      && (forall i :: 0 <= i < |clauses| && clauses[i].Case? ==> |clauses[i].conds| > 0)
      && OneDefault(clauses)
  }

  ghost predicate OneDefault(clauses: seq<Clause>) {
    forall i, j :: 0 <= i < j < |clauses| && clauses[i].Default? ==> clauses[j].Case?
  }

  // ----- what code is to do -----

  type Meaning = (Oracle, seq<nat>) -> Done

  /** From (b0, pc0) the code does what M says, and then is at (b1, pc1), at the start of brk or at
      the start of ft; the registers of g0 are left alone. */
  ghost predicate Executes(g: Graph, g0: Graph, b0: nat, pc0: nat, M: Meaning, brk: int, ft: int, b1: nat, pc1: nat) {
    forall O: Oracle, s: State :: At(s, b0, pc0) ==> ExecutesFrom(g, g0, O, s, M(O, s.hist), brk, ft, b1, pc1)
  }

  ghost predicate ExecutesFrom(g: Graph, g0: Graph, O: Oracle, s: State, r: Done, brk: int, ft: int, b1: nat, pc1: nat) {
    exists s' :: Reaches(g, O, s, s') && ExecutedTo(g0, s, r, brk, ft, b1, pc1, s')
  }

  ghost predicate ExecutedTo(g0: Graph, s: State, r: Done, brk: int, ft: int, b1: nat, pc1: nat, s': State) {
    && s'.hist == r.hist && Kept(g0, s.env, s'.env)
    && match r.flow
       case Normal => At(s', b1, pc1)
       case Broke => s'.b == brk && s'.pc == 0
       case Fell => s'.b == ft && s'.pc == 0
  }

  /** One piece of code after another. */
  lemma ExecutesThen(g0: Graph, g1: Graph, g2: Graph, b0: nat, pc0: nat, b1: nat, pc1: nat, b2: nat, pc2: nat, M1: Meaning, M2: Meaning, M: Meaning, brk: int, ft: int)
    requires Grows(g0, g1) && Grows(g1, g2) && Executes(g1, g0, b0, pc0, M1, brk, ft, b1, pc1) && Executes(g2, g1, b1, pc1, M2, brk, ft, b2, pc2)
    requires forall O: Oracle, h :: M(O, h) == var r := M1(O, h); if r.flow.Normal? then M2(O, r.hist) else r
    ensures Executes(g2, g0, b0, pc0, M, brk, ft, b2, pc2)
  {
    forall O: Oracle, s: State | At(s, b0, pc0) ensures ExecutesFrom(g2, g0, O, s, M(O, s.hist), brk, ft, b2, pc2) {
      var r1 := M1(O, s.hist);
      assert ExecutesFrom(g1, g0, O, s, r1, brk, ft, b1, pc1);
      var s1 :| Reaches(g1, O, s, s1) && ExecutedTo(g0, s, r1, brk, ft, b1, pc1, s1);
      ReachesStable(g1, g2, O, s, s1);
      if r1.flow.Normal? {
        assert ExecutesFrom(g2, g1, O, s1, M2(O, s1.hist), brk, ft, b2, pc2);
        var s2 :| Reaches(g2, O, s1, s2) && ExecutedTo(g1, s1, M2(O, s1.hist), brk, ft, b2, pc2, s2);
        ReachesOn(g2, O, s, s1, s2);
        KeptOn(g0, g1, s.env, s1.env, s2.env);
        assert ExecutedTo(g0, s, M(O, s.hist), brk, ft, b2, pc2, s2);
      } else {
        assert ExecutedTo(g0, s, M(O, s.hist), brk, ft, b2, pc2, s1);
      }
    }
  }

  lemma ExecutesLess(g: Graph, g0: Graph, g1: Graph, b0: nat, pc0: nat, M: Meaning, brk: int, ft: int, b1: nat, pc1: nat)
    requires Grows(g0, g1) && Executes(g, g1, b0, pc0, M, brk, ft, b1, pc1)
    ensures Executes(g, g0, b0, pc0, M, brk, ft, b1, pc1)
  {
    forall O: Oracle, s: State | At(s, b0, pc0) ensures ExecutesFrom(g, g0, O, s, M(O, s.hist), brk, ft, b1, pc1) {
      assert ExecutesFrom(g, g1, O, s, M(O, s.hist), brk, ft, b1, pc1);
      var s' :| Reaches(g, O, s, s') && ExecutedTo(g1, s, M(O, s.hist), brk, ft, b1, pc1, s');
      KeptLess(g0, g1, s.env, s'.env);
      assert ExecutedTo(g0, s, M(O, s.hist), brk, ft, b1, pc1, s');
    }
  }

  /** Code already built does the same in a graph that has grown. */
  lemma ExecutesStable(g: Graph, g': Graph, g0: Graph, b0: nat, pc0: nat, M: Meaning, brk: int, ft: int, b1: nat, pc1: nat)
    requires Grows(g, g') && Executes(g, g0, b0, pc0, M, brk, ft, b1, pc1)
    ensures Executes(g', g0, b0, pc0, M, brk, ft, b1, pc1)
  {
    forall O: Oracle, s: State | At(s, b0, pc0) ensures ExecutesFrom(g', g0, O, s, M(O, s.hist), brk, ft, b1, pc1) {
      assert ExecutesFrom(g, g0, O, s, M(O, s.hist), brk, ft, b1, pc1);
      var s' :| Reaches(g, O, s, s') && ExecutedTo(g0, s, M(O, s.hist), brk, ft, b1, pc1, s');
      ReachesStable(g, g', O, s, s');
    }
  }

  lemma ExecutesNothing(g: Graph, b: nat, pc: nat, M: Meaning, brk: int, ft: int)
    requires forall O: Oracle, h :: M(O, h) == Done(Normal, h)
    ensures Executes(g, g, b, pc, M, brk, ft, b, pc)
  {
    forall O: Oracle, s: State | At(s, b, pc) ensures ExecutesFrom(g, g, O, s, M(O, s.hist), brk, ft, b, pc) {
      ReachesSelf(g, O, s);
      assert ExecutedTo(g, s, M(O, s.hist), brk, ft, b, pc, s);
    }
  }

  lemma ExecutesAct(g: Graph, b: nat, id: nat, M: Meaning, brk: int, ft: int)
    requires WellFormed(g) && Open(g, b) && forall O: Oracle, h :: M(O, h) == Done(Normal, h + [id])
    ensures Executes(WithInstr(g, b, Do(id)), g, b, |g.instrs[b]|, M, brk, ft, b, |g.instrs[b]| + 1)
  {
    var g', pc := WithInstr(g, b, Do(id)), |g.instrs[b]|;
    var pc1 := pc + 1;
    forall O: Oracle, s: State | At(s, b, pc) ensures ExecutesFrom(g', g, O, s, M(O, s.hist), brk, ft, b, pc1) {
      ReachesSelf(g', O, s);
      ReachesStep(g', O, s, s);
      assert ExecutedTo(g, s, M(O, s.hist), brk, ft, b, pc1, Step(g', O, s));
    }
  }

  /** A jump, as break and fallthrough make it and as it ends a clause or a branch. */
  lemma ExecutesJump(g: Graph, g1: Graph, b: nat, t: nat, M: Meaning, brk: int, ft: int, b1: nat, pc1: nat)
    requires b < |g.instrs| && Grows(g, g1) && g1.instrs[b] == g.instrs[b] + [Jump] && g1.succs[b] == [t]
    requires forall O: Oracle, h :: M(O, h).hist == h && (match M(O, h).flow case Normal => t == b1 && pc1 == 0 case Broke => t == brk case Fell => t == ft)
    ensures Executes(g1, g, b, |g.instrs[b]|, M, brk, ft, b1, pc1)
  {
    var pc := |g.instrs[b]|;
    forall O: Oracle, s: State | At(s, b, pc) ensures ExecutesFrom(g1, g, O, s, M(O, s.hist), brk, ft, b1, pc1) {
      ReachesSelf(g1, O, s);
      ReachesStep(g1, O, s, s);
      assert ExecutedTo(g, s, M(O, s.hist), brk, ft, b1, pc1, Step(g1, O, s));
    }
  }

  /** A condition with the code of its two branches, both of which end at (b1, pc1). */
  lemma ExecutesIf(g0: Graph, g1: Graph, g2: Graph, b0: nat, pc0: nat, e: Expr, t: nat, f: nat, A: Meaning, B: Meaning, M: Meaning, brk: int, ft: int, b1: nat, pc1: nat)
    requires Grows(g0, g1) && Grows(g1, g2) && Branches(g1, g0, b0, pc0, e, t, f)
    requires Executes(g2, g1, t, 0, A, brk, ft, b1, pc1) && Executes(g2, g1, f, 0, B, brk, ft, b1, pc1)
    requires forall O: Oracle, h :: M(O, h) == var r := Eval(O, e, h); if Truth(r.value) then A(O, r.hist) else B(O, r.hist)
    ensures Executes(g2, g0, b0, pc0, M, brk, ft, b1, pc1)
  {
    forall O: Oracle, s: State | At(s, b0, pc0) ensures ExecutesFrom(g2, g0, O, s, M(O, s.hist), brk, ft, b1, pc1) {
      assert BranchesFrom(g1, g0, O, s, e, t, f);
      var s1 :| Reaches(g1, O, s, s1) && BranchedTo(g1, g0, O, s, e, t, f, s1);
      ReachesStable(g1, g2, O, s, s1);
      var r := M(O, s.hist);
      assert ExecutesFrom(g2, g1, O, s1, r, brk, ft, b1, pc1);
      var s2 :| Reaches(g2, O, s1, s2) && ExecutedTo(g1, s1, r, brk, ft, b1, pc1, s2);
      ReachesOn(g2, O, s, s1, s2);
      KeptOn(g0, g1, s.env, s1.env, s2.env);
      assert ExecutedTo(g0, s, r, brk, ft, b1, pc1, s2);
    }
  }

  // ----- the tests of a switch -----

  /** What the case expressions are compared with when the tag is in the given place. */
  ghost function TagIn(env: map<(nat, nat), int>, tag: Val): (tv: TagVal) {
    if tag.VTrue? then IsTrue else Equals(ValOf(env, tag))
  }

  /** The code of a comparison with v after n instructions of block b: without a tag, v itself decides. */
  function Compare(tag: Val, v: Val, b: nat, n: nat): (code: seq<Instr>) {
    if tag.VTrue? then [If(v)] else [Eq(tag, v), If(Reg(b, n))]
  }

  /** From (b0, pc0) the code compares the tag with the first n case expressions: it goes to body at
      the first match and otherwise to (b1, pc1). */
  ghost predicate Tests(g: Graph, g0: Graph, b0: nat, pc0: nat, tag: Val, conds: seq<Expr>, n: nat, body: nat, b1: nat, pc1: nat)
    requires n <= |conds|
  {
    forall O: Oracle, s: State :: At(s, b0, pc0) ==> TestsFrom(g, g0, O, s, Tested(O, conds, TagIn(s.env, tag), n, s.hist), body, b1, pc1)
  }

  ghost predicate TestsFrom(g: Graph, g0: Graph, O: Oracle, s: State, t: Test, body: nat, b1: nat, pc1: nat) {
    exists s' :: Reaches(g, O, s, s') && TestedTo(g0, s, t, body, b1, pc1, s')
  }

  ghost predicate TestedTo(g0: Graph, s: State, t: Test, body: nat, b1: nat, pc1: nat, s': State) {
    s'.hist == t.hist && Kept(g0, s.env, s'.env) && if t.matched then At(s', body, 0) else At(s', b1, pc1)
  }

  /** One more comparison: g2 after the value v of the case expression, g3 after Eq and If. */
  lemma TestsOneMore(g0: Graph, g1: Graph, g2: Graph, g3: Graph, b0: nat, pc0: nat, tag: Val, conds: seq<Expr>, n: nat, body: nat, b1: nat, pc1: nat, v: Val, b2: nat, next: nat)
    requires n < |conds| && Grows(g0, g1) && Grows(g1, g2) && Grows(g2, g3) && Exists(g0, tag)
    requires Tests(g1, g0, b0, pc0, tag, conds, n, body, b1, pc1) && b2 < |g2.instrs| && Evaluates(g2, g1, b1, pc1, conds[n], v, b2, |g2.instrs[b2]|)
    requires g3.instrs[b2] == g2.instrs[b2] + Compare(tag, v, b2, |g2.instrs[b2]|) && g3.succs[b2] == [body, next]
    ensures Tests(g3, g0, b0, pc0, tag, conds, n + 1, body, next, 0)
  {
    var n1 := n + 1;
    forall O: Oracle, s: State | At(s, b0, pc0) ensures TestsFrom(g3, g0, O, s, Tested(O, conds, TagIn(s.env, tag), n1, s.hist), body, next, 0) {
      var t := Tested(O, conds, TagIn(s.env, tag), n, s.hist);
      assert TestsFrom(g1, g0, O, s, t, body, b1, pc1);
      var s1 :| Reaches(g1, O, s, s1) && TestedTo(g0, s, t, body, b1, pc1, s1);
      GrowsOn(g1, g2, g3);
      ReachesStable(g1, g3, O, s, s1);
      if t.matched {
        assert TestedTo(g0, s, t, body, next, 0, s1);
      } else {
        TestsMiss(g0, g1, g2, g3, tag, conds[n], body, v, b1, pc1, b2, next, O, s, s1);
        var s2 :| Reaches(g3, O, s1, s2) && TestedTo(g0, s, Test(Matches(TagIn(s.env, tag), Eval(O, conds[n], s1.hist).value), Eval(O, conds[n], s1.hist).hist), body, next, 0, s2);
        ReachesOn(g3, O, s, s1, s2);
      }
    }
  }

  lemma TestsMiss(g0: Graph, g1: Graph, g2: Graph, g3: Graph, tag: Val, e: Expr, body: nat, v: Val, b1: nat, pc1: nat, b2: nat, next: nat, O: Oracle, s: State, s1: State)
    requires Grows(g0, g1) && Grows(g1, g2) && Grows(g2, g3) && Exists(g0, tag)
    requires b2 < |g2.instrs| && Evaluates(g2, g1, b1, pc1, e, v, b2, |g2.instrs[b2]|) && At(s1, b1, pc1) && Kept(g0, s.env, s1.env)
    requires g3.instrs[b2] == g2.instrs[b2] + Compare(tag, v, b2, |g2.instrs[b2]|) && g3.succs[b2] == [body, next]
    ensures var r := Eval(O, e, s1.hist); exists s2 :: Reaches(g3, O, s1, s2) && TestedTo(g0, s, Test(Matches(TagIn(s.env, tag), r.value), r.hist), body, next, 0, s2)
  {
    var pc2 := |g2.instrs[b2]|;
    var r := Eval(O, e, s1.hist);
    assert EvaluatesFrom(g2, g1, O, s1, e, v, b2, pc2);
    var s2 :| Reaches(g2, O, s1, s2) && EvaluatedTo(g1, O, s1, e, v, b2, pc2, s2);
    KeptOn(g0, g1, s.env, s1.env, s2.env);
    assert ValOf(s2.env, tag) == ValOf(s.env, tag);
    ReachesStable(g2, g3, O, s1, s2);
    ReachesStep(g3, O, s1, s2);
    var s3 := Step(g3, O, s2);
    if tag.VTrue? {
      assert TestedTo(g0, s, Test(Matches(TagIn(s.env, tag), r.value), r.hist), body, next, 0, s3);
    } else {
      ReachesStep(g3, O, s1, s3);
      var s4 := Step(g3, O, s3);
      GrowsOn(g0, g1, g2);
      DefineKeeps(g0, g2, s2, if ValOf(s2.env, tag) == ValOf(s2.env, v) then 1 else 0);
      KeptOn(g0, g0, s.env, s2.env, s3.env);
      assert TestedTo(g0, s, Test(Matches(TagIn(s.env, tag), r.value), r.hist), body, next, 0, s4);
    }
  }

  lemma TestsNothing(g: Graph, b: nat, pc: nat, tag: Val, conds: seq<Expr>, body: nat)
    ensures Tests(g, g, b, pc, tag, conds, 0, body, b, pc)
  {
    forall O: Oracle, s: State | At(s, b, pc) ensures TestsFrom(g, g, O, s, Tested(O, conds, TagIn(s.env, tag), 0, s.hist), body, b, pc) {
      ReachesSelf(g, O, s);
      assert TestedTo(g, s, Test(false, s.hist), body, b, pc, s);
    }
  }

  // ----- the choice of a clause -----

  /** From (b0, pc0) the code goes to the body of the clause selected among the first n, and
      otherwise to (b1, pc1). */
  ghost predicate Selects(g: Graph, g0: Graph, b0: nat, pc0: nat, tag: Val, clauses: seq<Clause>, n: nat, bodies: seq<nat>, b1: nat, pc1: nat)
    requires n <= |clauses|
  {
    forall O: Oracle, s: State :: At(s, b0, pc0) ==> SelectsFrom(g, g0, O, s, Selected(O, clauses, TagIn(s.env, tag), n, s.hist), bodies, b1, pc1)
  }

  ghost predicate SelectsFrom(g: Graph, g0: Graph, O: Oracle, s: State, p: Pick, bodies: seq<nat>, b1: nat, pc1: nat) {
    exists s' :: Reaches(g, O, s, s') && SelectedTo(g0, s, p, bodies, b1, pc1, s')
  }

  ghost predicate SelectedTo(g0: Graph, s: State, p: Pick, bodies: seq<nat>, b1: nat, pc1: nat, s': State) {
    && s'.hist == p.hist && Kept(g0, s.env, s'.env)
    && if p.index >= 0 then p.index < |bodies| && At(s', bodies[p.index], 0) else At(s', b1, pc1)
  }

  lemma SelectsNothing(g: Graph, b: nat, pc: nat, tag: Val, clauses: seq<Clause>, bodies: seq<nat>)
    ensures Selects(g, g, b, pc, tag, clauses, 0, bodies, b, pc)
  {
    forall O: Oracle, s: State | At(s, b, pc) ensures SelectsFrom(g, g, O, s, Selected(O, clauses, TagIn(s.env, tag), 0, s.hist), bodies, b, pc) {
      ReachesSelf(g, O, s);
      assert SelectedTo(g, s, Pick(-1, s.hist), bodies, b, pc, s);
    }
  }

  /** The graph grows and more bodies are allocated. */
  lemma SelectsStable(g: Graph, g': Graph, g0: Graph, b0: nat, pc0: nat, tag: Val, clauses: seq<Clause>, n: nat, bodies: seq<nat>, bodies': seq<nat>, b1: nat, pc1: nat)
    requires n <= |clauses| && Grows(g, g') && bodies <= bodies' && Selects(g, g0, b0, pc0, tag, clauses, n, bodies, b1, pc1)
    ensures Selects(g', g0, b0, pc0, tag, clauses, n, bodies', b1, pc1)
  {
    forall O: Oracle, s: State | At(s, b0, pc0) ensures SelectsFrom(g', g0, O, s, Selected(O, clauses, TagIn(s.env, tag), n, s.hist), bodies', b1, pc1) {
      var p := Selected(O, clauses, TagIn(s.env, tag), n, s.hist);
      assert SelectsFrom(g, g0, O, s, p, bodies, b1, pc1);
      var s' :| Reaches(g, O, s, s') && SelectedTo(g0, s, p, bodies, b1, pc1, s');
      ReachesStable(g, g', O, s, s');
      assert SelectedTo(g0, s, p, bodies', b1, pc1, s');
    }
  }

  /** The default is passed over. */
  lemma SelectsDefault(g: Graph, g0: Graph, b0: nat, pc0: nat, tag: Val, clauses: seq<Clause>, n: nat, bodies: seq<nat>, b1: nat, pc1: nat)
    requires n < |clauses| && clauses[n].Default? && Selects(g, g0, b0, pc0, tag, clauses, n, bodies, b1, pc1)
    ensures Selects(g, g0, b0, pc0, tag, clauses, n + 1, bodies, b1, pc1)
  {
    var n1 := n + 1;
    forall O: Oracle, s: State | At(s, b0, pc0) ensures SelectsFrom(g, g0, O, s, Selected(O, clauses, TagIn(s.env, tag), n1, s.hist), bodies, b1, pc1) {
      assert SelectsFrom(g, g0, O, s, Selected(O, clauses, TagIn(s.env, tag), n, s.hist), bodies, b1, pc1);
    }
  }

  lemma SelectsCase(g0: Graph, g1: Graph, g2: Graph, b0: nat, pc0: nat, tag: Val, clauses: seq<Clause>, n: nat, bodies: seq<nat>, b1: nat, pc1: nat, b2: nat, pc2: nat)
    requires n < |clauses| && n < |bodies| && clauses[n].Case? && Grows(g0, g1) && Grows(g1, g2) && Exists(g0, tag)
    requires Selects(g1, g0, b0, pc0, tag, clauses, n, bodies, b1, pc1)
    requires Tests(g2, g1, b1, pc1, tag, clauses[n].conds, |clauses[n].conds|, bodies[n], b2, pc2)
    ensures Selects(g2, g0, b0, pc0, tag, clauses, n + 1, bodies, b2, pc2)
  {
    var n1 := n + 1;
    forall O: Oracle, s: State | At(s, b0, pc0) ensures SelectsFrom(g2, g0, O, s, Selected(O, clauses, TagIn(s.env, tag), n1, s.hist), bodies, b2, pc2) {
      var p := Selected(O, clauses, TagIn(s.env, tag), n, s.hist);
      assert SelectsFrom(g1, g0, O, s, p, bodies, b1, pc1);
      var s1 :| Reaches(g1, O, s, s1) && SelectedTo(g0, s, p, bodies, b1, pc1, s1);
      ReachesStable(g1, g2, O, s, s1);
      if p.index >= 0 {
        assert SelectedTo(g0, s, p, bodies, b2, pc2, s1);
      } else {
        assert ValOf(s1.env, tag) == ValOf(s.env, tag);
        var t := Tested(O, clauses[n].conds, TagIn(s1.env, tag), |clauses[n].conds|, s1.hist);
        assert TestsFrom(g2, g1, O, s1, t, bodies[n], b2, pc2);
        var s2 :| Reaches(g2, O, s1, s2) && TestedTo(g1, s1, t, bodies[n], b2, pc2, s2);
        ReachesOn(g2, O, s, s1, s2);
        KeptOn(g0, g1, s.env, s1.env, s2.env);
        assert SelectedTo(g0, s, Pick(if t.matched then n else -1, t.hist), bodies, b2, pc2, s2);
      }
    }
  }

  // ----- the bodies -----

  /** The meaning of a statement. */
  ghost function Means(st: Stmt): (M: Meaning)
    ensures forall O: Oracle, h :: M(O, h) == Exec(O, st, h)
  {
    (O: Oracle, h: seq<nat>) => Exec(O, st, h)
  }

  ghost function Skip(): (M: Meaning)
    ensures forall O: Oracle, h :: M(O, h) == Done(Normal, h)
  {
    (O: Oracle, h: seq<nat>) => Done(Normal, h)
  }

  /** Where the clause i falls through to: the next one in the source, or the end. */
  ghost function NextBody(clauses: seq<Clause>, bodies: seq<nat>, done: nat, i: nat): (b: nat) {
    if i + 1 < |clauses| && i + 1 < |bodies| then bodies[i + 1] else done
  }

  /** The code of clause i runs its body and ends at done or at the next body. */
  ghost predicate BodyRuns(g: Graph, g0: Graph, clauses: seq<Clause>, bodies: seq<nat>, done: nat, i: nat) {
    i < |clauses| && i < |bodies| && Executes(g, g0, bodies[i], 0, Means(clauses[i].body), done, NextBody(clauses, bodies, done, i), done, 0)
  }

  lemma {:induction false} ClausesRun(g: Graph, g0: Graph, st: Stmt, bodies: seq<nat>, done: nat, i: nat, O: Oracle, s: State)
    requires st.Switch? && i <= |st.clauses| == |bodies| && (forall j :: i <= j < |bodies| ==> BodyRuns(g, g0, st.clauses, bodies, done, j))
    requires At(s, if i < |bodies| then bodies[i] else done, 0)
    requires Grows(g0, g0)
    ensures exists s' :: Reaches(g, O, s, s') && At(s', done, 0) && s'.hist == RunClauses(O, st, i, s.hist).hist && Kept(g0, s.env, s'.env)
    decreases |bodies| - i
  {
    if i == |bodies| {
      ReachesSelf(g, O, s);
    } else {
      assert BodyRuns(g, g0, st.clauses, bodies, done, i);
      var r := Exec(O, st.clauses[i].body, s.hist);
      var next := NextBody(st.clauses, bodies, done, i);
      assert Means(st.clauses[i].body)(O, s.hist) == r;
      assert ExecutesFrom(g, g0, O, s, Means(st.clauses[i].body)(O, s.hist), done, next, done, 0);
      var s1 :| Reaches(g, O, s, s1) && ExecutedTo(g0, s, r, done, next, done, 0, s1);
      if r.flow.Fell? {
        ClausesRun(g, g0, st, bodies, done, i + 1, O, s1);
        var s2 :| Reaches(g, O, s1, s2) && At(s2, done, 0) && s2.hist == RunClauses(O, st, i + 1, s1.hist).hist && Kept(g0, s1.env, s2.env);
        ReachesOn(g, O, s, s1, s2);
        KeptOn(g0, g0, s.env, s1.env, s2.env);
      }
    }
  }

  /** The result of running clauses is always a normal end. */
  lemma {:induction false} RunClausesNormal(O: Oracle, st: Stmt, i: nat, h: seq<nat>)
    requires st.Switch? && i <= |st.clauses|
    ensures RunClauses(O, st, i, h).flow.Normal?
    decreases |st.clauses| - i
  {
    if i < |st.clauses| && Exec(O, st.clauses[i].body, h).flow.Fell? {
      RunClausesNormal(O, st, i + 1, Exec(O, st.clauses[i].body, h).hist);
    }
  }

  // ----- the whole switch -----

  /** The tag, if any, is evaluated and its value left in v. */
  ghost predicate TagEvaluates(g: Graph, g0: Graph, b0: nat, pc0: nat, tag: Tag, v: Val, b1: nat, pc1: nat) {
    match tag
    case NoTag => v == VTrue && b1 == b0 && pc1 == pc0 && g == g0
    case TagOf(e) => !v.VTrue? && Evaluates(g, g0, b0, pc0, e, v, b1, pc1)
  }

  lemma TagReaches(g: Graph, g0: Graph, b0: nat, pc0: nat, tag: Tag, v: Val, b1: nat, pc1: nat, O: Oracle, s: State) returns (s': State)
    requires TagEvaluates(g, g0, b0, pc0, tag, v, b1, pc1) && At(s, b0, pc0)
    ensures Reaches(g, O, s, s') && At(s', b1, pc1) && Kept(g0, s.env, s'.env)
    ensures s'.hist == TagValue(O, tag, s.hist).hist && TagIn(s'.env, v) == TagValue(O, tag, s.hist).value
  {
    match tag
    case NoTag =>
      s' := s;
      ReachesSelf(g, O, s);
    case TagOf(e) =>
      assert EvaluatesFrom(g, g0, O, s, e, v, b1, pc1);
      s' :| Reaches(g, O, s, s') && EvaluatedTo(g0, O, s, e, v, b1, pc1, s');
  }

  /** All parts of a switch: g1 after the tag, g2 after the tests, g3 the whole. */
  ghost predicate SwitchBuilt(g0: Graph, g1: Graph, g2: Graph, g3: Graph, b0: nat, pc0: nat, st: Stmt, tag: Val, b1: nat, pc1: nat, bodies: seq<nat>, done: nat, b2: nat, pc2: nat) {
    && st.Switch? && |bodies| == |st.clauses| && Grows(g0, g1) && Grows(g1, g2) && Grows(g2, g3)
    && TagEvaluates(g1, g0, b0, pc0, st.tag, tag, b1, pc1)
    && Selects(g2, g1, b1, pc1, tag, st.clauses, |st.clauses|, bodies, b2, pc2)
    && Executes(g3, g2, b2, pc2, Skip(), NIL, NIL, LastTarget(st.clauses, bodies, done), 0)
    && (forall j :: 0 <= j < |bodies| ==> BodyRuns(g3, g1, st.clauses, bodies, done, j))
  }

  /** Where the tests end when none has matched. */
  ghost function LastTarget(clauses: seq<Clause>, bodies: seq<nat>, done: nat): (b: nat) {
    var d := DefaultIndex(clauses, |clauses|);
    if 0 <= d < |bodies| then bodies[d] else done
  }

  /** From the choice of a clause to its body, or the default, or the end. */
  lemma SwitchEnters(g0: Graph, g1: Graph, g2: Graph, g3: Graph, b0: nat, pc0: nat, st: Stmt, tag: Val, b1: nat, pc1: nat, bodies: seq<nat>, done: nat, b2: nat, pc2: nat, O: Oracle, s: State) returns (s': State)
    requires SwitchBuilt(g0, g1, g2, g3, b0, pc0, st, tag, b1, pc1, bodies, done, b2, pc2) && At(s, b1, pc1)
    ensures var p := Selected(O, st.clauses, TagIn(s.env, tag), |st.clauses|, s.hist);
      var i := if p.index >= 0 then p.index else DefaultIndex(st.clauses, |st.clauses|);
      Reaches(g3, O, s, s') && s'.hist == p.hist && Kept(g1, s.env, s'.env) && At(s', if i >= 0 then bodies[i] else done, 0)
  {
    var p := Selected(O, st.clauses, TagIn(s.env, tag), |st.clauses|, s.hist);
    assert SelectsFrom(g2, g1, O, s, p, bodies, b2, pc2);
    s' :| Reaches(g2, O, s, s') && SelectedTo(g1, s, p, bodies, b2, pc2, s');
    ReachesStable(g2, g3, O, s, s');
    if p.index < 0 {
      var s1 := s';
      var t := LastTarget(st.clauses, bodies, done);
      assert ExecutesFrom(g3, g2, O, s1, Skip()(O, s1.hist), NIL, NIL, t, 0);
      s' :| Reaches(g3, O, s1, s') && ExecutedTo(g2, s1, Done(Normal, s1.hist), NIL, NIL, t, 0, s');
      ReachesOn(g3, O, s, s1, s');
      KeptOn(g1, g2, s.env, s1.env, s'.env);
    }
  }

  /** A switch runs the clause selected, else the default, else nothing, and falls through in
      source order. */
  lemma SwitchExecutes(g0: Graph, g1: Graph, g2: Graph, g3: Graph, b0: nat, pc0: nat, st: Stmt, tag: Val, b1: nat, pc1: nat, bodies: seq<nat>, done: nat, b2: nat, pc2: nat, brk: int, ft: int)
    requires SwitchBuilt(g0, g1, g2, g3, b0, pc0, st, tag, b1, pc1, bodies, done, b2, pc2)
    ensures Executes(g3, g0, b0, pc0, Means(st), brk, ft, done, 0)
  {
    forall O: Oracle, s: State | At(s, b0, pc0) ensures ExecutesFrom(g3, g0, O, s, Means(st)(O, s.hist), brk, ft, done, 0) {
      var s1 := TagReaches(g1, g0, b0, pc0, st.tag, tag, b1, pc1, O, s);
      GrowsOn(g1, g2, g3);
      ReachesStable(g1, g3, O, s, s1);
      var s2 := SwitchEnters(g0, g1, g2, g3, b0, pc0, st, tag, b1, pc1, bodies, done, b2, pc2, O, s1);
      ReachesOn(g3, O, s, s1, s2);
      KeptOn(g0, g1, s.env, s1.env, s2.env);
      SwitchEnds(g0, g1, g3, st, bodies, done, O, s, s1.hist, TagIn(s1.env, tag), s2, brk, ft);
    }
  }

  lemma SwitchEnds(g0: Graph, g1: Graph, g3: Graph, st: Stmt, bodies: seq<nat>, done: nat, O: Oracle, s: State, h: seq<nat>, tv: TagVal, s2: State, brk: int, ft: int)
    requires st.Switch? && |bodies| == |st.clauses| && Grows(g0, g1) && Reaches(g3, O, s, s2) && Kept(g0, s.env, s2.env)
    requires h == TagValue(O, st.tag, s.hist).hist && tv == TagValue(O, st.tag, s.hist).value
    requires var p := Selected(O, st.clauses, tv, |st.clauses|, h);
      var i := if p.index >= 0 then p.index else DefaultIndex(st.clauses, |st.clauses|);
      s2.hist == p.hist && At(s2, if i >= 0 then bodies[i] else done, 0)
    requires forall j :: 0 <= j < |bodies| ==> BodyRuns(g3, g1, st.clauses, bodies, done, j)
    ensures ExecutesFrom(g3, g0, O, s, Means(st)(O, s.hist), brk, ft, done, 0)
  {
    var p := Selected(O, st.clauses, tv, |st.clauses|, h);
    var i := if p.index >= 0 then p.index else DefaultIndex(st.clauses, |st.clauses|);
    var r := Means(st)(O, s.hist);
    assert r == Exec(O, st, s.hist);
    if i < 0 {
      assert ExecutedTo(g0, s, r, brk, ft, done, 0, s2);
    } else {
      assert Grows(g1, g1) by { assert forall b :: 0 <= b < |g1.instrs| ==> BlockGrows(g1, g1, b); }
      ClausesRun(g3, g1, st, bodies, done, i, O, s2);
      var s3 :| Reaches(g3, O, s2, s3) && At(s3, done, 0) && s3.hist == RunClauses(O, st, i, s2.hist).hist && Kept(g1, s2.env, s3.env);
      RunClausesNormal(O, st, i, s2.hist);
      ReachesOn(g3, O, s, s2, s3);
      KeptOn(g0, g1, s.env, s2.env, s3.env);
      assert ExecutedTo(g0, s, r, brk, ft, done, 0, s3);
    }
  }
}
