/** Boolean expressions, statements with switch, and the control-flow graphs they are lowered to:
    what each means, and how code in a growing graph runs. */
module LoweringModel {

  // ----- expressions -----

  /** Leaf is any expression that is none of the others and no constant; booleans are 0 and 1. */
  datatype Expr = Leaf(id: nat) | Lit(v: int) | Paren(x: Expr) | Not(x: Expr) | And(x: Expr, y: Expr) | Or(x: Expr, y: Expr)

  /** What a leaf evaluates to: any function of what was evaluated before. */
  type Oracle = (seq<nat>, nat) -> int

  /** A value, and the leaves and actions evaluated so far. */
  datatype Outcome = Outcome(value: int, hist: seq<nat>)

  predicate Truth(v: int) {
    v != 0
  }

  function Eval(O: Oracle, e: Expr, h: seq<nat>): (r: Outcome) {
    match e
    case Leaf(id) => Outcome(O(h, id), h + [id])
    case Lit(v) => Outcome(v, h)
    case Paren(x) => Eval(O, x, h)
    case Not(x) => var r := Eval(O, x, h); Outcome(if Truth(r.value) then 0 else 1, r.hist)
    case And(x, y) => var r := Eval(O, x, h); if Truth(r.value) then Eval(O, y, r.hist) else Outcome(0, r.hist)
    case Or(x, y) => var r := Eval(O, x, h); if Truth(r.value) then Outcome(1, r.hist) else Eval(O, y, r.hist)
  }

  /** The constants of the language: what is built from literals alone. */
  predicate IsConst(e: Expr) {
    match e
    case Leaf(_) => false
    case Lit(_) => true
    case Paren(x) => IsConst(x)
    case Not(x) => IsConst(x)
    case And(x, y) => IsConst(x) && IsConst(y)
    case Or(x, y) => IsConst(x) && IsConst(y)
  }

  function ConstValue(e: Expr): (v: int)
    requires IsConst(e)
  {
    match e
    case Lit(v) => v
    case Paren(x) => ConstValue(x)
    case Not(x) => if Truth(ConstValue(x)) then 0 else 1
    case And(x, y) => if Truth(ConstValue(x)) then ConstValue(y) else 0
    case Or(x, y) => if Truth(ConstValue(x)) then 1 else ConstValue(y)
  }

  lemma {:induction false} ConstMeans(O: Oracle, e: Expr, h: seq<nat>)
    requires IsConst(e)
    ensures Eval(O, e, h) == Outcome(ConstValue(e), h)
  {
    match e
    case Lit(v) =>
    case Paren(x) => ConstMeans(O, x, h);
    case Not(x) => ConstMeans(O, x, h);
    case And(x, y) => ConstMeans(O, x, h); ConstMeans(O, y, h);
    case Or(x, y) => ConstMeans(O, x, h); ConstMeans(O, y, h);
  }

  // ----- graphs -----

  /** VTrue is the constant that stands for a missing tag. */
  datatype Val = Const(v: int) | VTrue | Reg(block: nat, i: nat)

  datatype Instr = Do(id: nat) | Neg(x: Val) | Eq(x: Val, y: Val) | Phi(edges: seq<Val>) | If(cond: Val) | Jump

  datatype Graph = Graph(instrs: seq<seq<Instr>>, preds: seq<seq<nat>>, succs: seq<seq<nat>>)

  predicate IsControl(i: Instr) {
    i.If? || i.Jump?
  }

  /** About to execute instruction pc of block b, entered from prev. */
  datatype State = State(b: nat, prev: nat, pc: nat, env: map<(nat, nat), int>, hist: seq<nat>)

  function ValOf(env: map<(nat, nat), int>, v: Val): (x: int) {
    match v
    case Const(c) => c
    case VTrue => 1
    case Reg(b, i) => if (b, i) in env then env[(b, i)] else 0
  }

  function FirstIndex(s: seq<nat>, x: nat): (k: nat)
    requires x in s
    ensures k < |s| && s[k] == x && forall j :: 0 <= j < k ==> s[j] != x
  {
    if s[0] == x then 0 else 1 + FirstIndex(s[1..], x)
  }

  predicate CanStep(g: Graph, s: State) {
    && s.b < |g.instrs| && s.b < |g.preds| && s.b < |g.succs| && s.pc < |g.instrs[s.b]|
    && match g.instrs[s.b][s.pc]
       case Phi(edges) => s.prev in g.preds[s.b] && FirstIndex(g.preds[s.b], s.prev) < |edges|
       case If(_) => |g.succs[s.b]| == 2
       case Jump => |g.succs[s.b]| == 1
       case _ => true
  }

  function Define(s: State, x: int): (s': State) {
    s.(pc := s.pc + 1, env := s.env[(s.b, s.pc) := x])
  }

  function Step(g: Graph, O: Oracle, s: State): (s': State)
    requires CanStep(g, s)
  {
    match g.instrs[s.b][s.pc]
    case Do(id) => Define(s, O(s.hist, id)).(hist := s.hist + [id])
    case Neg(x) => Define(s, if Truth(ValOf(s.env, x)) then 0 else 1)
    case Eq(x, y) => Define(s, if ValOf(s.env, x) == ValOf(s.env, y) then 1 else 0)
    case Phi(edges) => Define(s, ValOf(s.env, edges[FirstIndex(g.preds[s.b], s.prev)]))
    case If(c) => State(g.succs[s.b][if Truth(ValOf(s.env, c)) then 0 else 1], s.b, 0, s.env, s.hist)
    case Jump => State(g.succs[s.b][0], s.b, 0, s.env, s.hist)
  }

  ghost predicate Runs(g: Graph, O: Oracle, s: State, n: nat, s': State)
    decreases n
  {
    if n == 0 then s == s' else CanStep(g, s) && Runs(g, O, Step(g, O, s), n - 1, s')
  }

  ghost predicate Reaches(g: Graph, O: Oracle, s: State, s': State) {
    exists n :: Runs(g, O, s, n, s')
  }

  lemma {:induction false} RunsOn(g: Graph, O: Oracle, s: State, n: nat, s1: State, m: nat, s2: State)
    requires Runs(g, O, s, n, s1) && Runs(g, O, s1, m, s2)
    ensures Runs(g, O, s, n + m, s2)
    decreases n
  {
    if n > 0 { RunsOn(g, O, Step(g, O, s), n - 1, s1, m, s2); }
  }

  lemma ReachesOn(g: Graph, O: Oracle, s: State, s1: State, s2: State)
    requires Reaches(g, O, s, s1) && Reaches(g, O, s1, s2)
    ensures Reaches(g, O, s, s2)
  {
    var n :| Runs(g, O, s, n, s1);
    var m :| Runs(g, O, s1, m, s2);
    RunsOn(g, O, s, n, s1, m, s2);
  }

  lemma ReachesSelf(g: Graph, O: Oracle, s: State)
    ensures Reaches(g, O, s, s)
  {
    assert Runs(g, O, s, 0, s);
  }

  lemma ReachesStep(g: Graph, O: Oracle, s: State, s1: State)
    requires Reaches(g, O, s, s1) && CanStep(g, s1)
    ensures Reaches(g, O, s, Step(g, O, s1))
  {
    assert Runs(g, O, Step(g, O, s1), 0, Step(g, O, s1));
    assert Runs(g, O, s1, 1, Step(g, O, s1));
    ReachesOn(g, O, s, s1, Step(g, O, s1));
  }

  // ----- growing graphs -----

  /** g' has the blocks of g, with no less in them; a block that has its successors keeps them. */
  ghost predicate Grows(g: Graph, g': Graph) {
    && |g.instrs| == |g.preds| == |g.succs| <= |g'.instrs| == |g'.preds| == |g'.succs|
    && forall b :: 0 <= b < |g.instrs| ==> BlockGrows(g, g', b)
  }

  ghost predicate BlockGrows(g: Graph, g': Graph, b: nat)
    requires b < |g.instrs| == |g.preds| == |g.succs| <= |g'.instrs| == |g'.preds| == |g'.succs|
  {
    && g.instrs[b] <= g'.instrs[b] && g.preds[b] <= g'.preds[b]
    && (g.succs[b] != [] ==> g'.succs[b] == g.succs[b] && g'.instrs[b] == g.instrs[b])
  }

  lemma GrowsOn(g: Graph, g1: Graph, g2: Graph)
    requires Grows(g, g1) && Grows(g1, g2)
    ensures Grows(g, g2)
  {
    forall b | 0 <= b < |g.instrs| ensures BlockGrows(g, g2, b) {
      assert BlockGrows(g, g1, b) && BlockGrows(g1, g2, b);
    }
  }

  lemma {:induction false} FirstIndexStable(a: seq<nat>, b: seq<nat>, x: nat)
    requires a <= b && x in a
    ensures x in b && FirstIndex(a, x) == FirstIndex(b, x)
  {
    var k := FirstIndex(a, x);
    assert b[k] == a[k];
    assert forall j :: 0 <= j < k ==> b[j] == a[j];
  }

  lemma StepStable(g: Graph, g': Graph, O: Oracle, s: State)
    requires Grows(g, g') && CanStep(g, s)
    ensures CanStep(g', s) && Step(g', O, s) == Step(g, O, s)
  {
    assert BlockGrows(g, g', s.b);
    assert g'.instrs[s.b][s.pc] == g.instrs[s.b][s.pc];
    if g.instrs[s.b][s.pc].Phi? { FirstIndexStable(g.preds[s.b], g'.preds[s.b], s.prev); }
  }

  lemma {:induction false} RunsStable(g: Graph, g': Graph, O: Oracle, s: State, n: nat, s': State)
    requires Grows(g, g') && Runs(g, O, s, n, s')
    ensures Runs(g', O, s, n, s')
    decreases n
  {
    if n > 0 {
      StepStable(g, g', O, s);
      RunsStable(g, g', O, Step(g, O, s), n - 1, s');
    }
  }

  /** What has been built keeps its meaning while more is built. */
  lemma ReachesStable(g: Graph, g': Graph, O: Oracle, s: State, s': State)
    requires Grows(g, g') && Reaches(g, O, s, s')
    ensures Reaches(g', O, s, s')
  {
    var n :| Runs(g, O, s, n, s');
    RunsStable(g, g', O, s, n, s');
  }

  /** The registers of g have kept their values. */
  ghost predicate Kept(g: Graph, env: map<(nat, nat), int>, env': map<(nat, nat), int>) {
    forall b: nat, i: nat :: b < |g.instrs| && i < |g.instrs[b]| ==> ValOf(env', Reg(b, i)) == ValOf(env, Reg(b, i))
  }

  lemma KeptOn(g: Graph, g1: Graph, a: map<(nat, nat), int>, b: map<(nat, nat), int>, c: map<(nat, nat), int>)
    requires Grows(g, g1) && Kept(g, a, b) && Kept(g1, b, c)
    ensures Kept(g, a, c)
  {
    forall x: nat, i: nat | x < |g.instrs| && i < |g.instrs[x]| ensures ValOf(c, Reg(x, i)) == ValOf(a, Reg(x, i)) {
      assert BlockGrows(g, g1, x);
    }
  }

  lemma KeptLess(g: Graph, g1: Graph, a: map<(nat, nat), int>, b: map<(nat, nat), int>)
    requires Grows(g, g1) && Kept(g1, a, b)
    ensures Kept(g, a, b)
  {
    KeptOn(g, g1, a, a, b);
  }

  /** v is a constant or the register of an instruction of g. */
  ghost predicate Exists(g: Graph, v: Val) {
    v.Reg? ==> v.block < |g.instrs| && v.i < |g.instrs[v.block]|
  }

  ghost predicate At(s: State, b: nat, pc: nat) {
    s.b == b && s.pc == pc
  }

  // ----- what code is to do -----

  /** From (b0, pc0) the code evaluates e and goes to t or f; the registers of g0 are left alone. */
  ghost predicate Branches(g: Graph, g0: Graph, b0: nat, pc0: nat, e: Expr, t: nat, f: nat) {
    forall O: Oracle, s: State :: At(s, b0, pc0) ==> BranchesFrom(g, g0, O, s, e, t, f)
  }

  ghost predicate BranchesFrom(g: Graph, g0: Graph, O: Oracle, s: State, e: Expr, t: nat, f: nat) {
    exists s' :: Reaches(g, O, s, s') && BranchedTo(g, g0, O, s, e, t, f, s')
  }

  ghost predicate BranchedTo(g: Graph, g0: Graph, O: Oracle, s: State, e: Expr, t: nat, f: nat, s': State) {
    var r := Eval(O, e, s.hist);
    && At(s', if Truth(r.value) then t else f, 0) && s'.hist == r.hist && Kept(g0, s.env, s'.env)
    && s'.b < |g.preds| && s'.prev in g.preds[s'.b]
  }

  /** From (b0, pc0) the code evaluates e, leaves its value in v and goes on at (b1, pc1). */
  ghost predicate Evaluates(g: Graph, g0: Graph, b0: nat, pc0: nat, e: Expr, v: Val, b1: nat, pc1: nat) {
    forall O: Oracle, s: State :: At(s, b0, pc0) ==> EvaluatesFrom(g, g0, O, s, e, v, b1, pc1)
  }

  ghost predicate EvaluatesFrom(g: Graph, g0: Graph, O: Oracle, s: State, e: Expr, v: Val, b1: nat, pc1: nat) {
    exists s' :: Reaches(g, O, s, s') && EvaluatedTo(g0, O, s, e, v, b1, pc1, s')
  }

  ghost predicate EvaluatedTo(g0: Graph, O: Oracle, s: State, e: Expr, v: Val, b1: nat, pc1: nat, s': State) {
    var r := Eval(O, e, s.hist);
    At(s', b1, pc1) && s'.hist == r.hist && ValOf(s'.env, v) == r.value && Kept(g0, s.env, s'.env)
  }
}
