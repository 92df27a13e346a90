/** Basic blocks with their instructions, Preds and Succs, what running them shows, and a method to
    compare two such graphs. Block identities are numbers; instructions other than phis and
    transfers of control are opaque. */
module Cfgs {
  import opened Flowgraphs

  /** A phi has one operand per predecessor. Op stands for every instruction that is not a phi, a
      Jump or an If, including Return and Panic. */
  datatype Instr = Phi(id: nat, edges: seq<nat>) | Op(id: nat) | Jump | If(cond: nat)

  datatype Cfg = Cfg(instrs: seq<seq<Instr>>, preds: seq<seq<nat>>, succs: seq<seq<nat>>)

  predicate IsControl(i: Instr) {
    i.Jump? || i.If?
  }

  // ----- what a run shows -----

  /** An instruction executed, or the operand a phi chose. */
  datatype Event = Ran(id: nat) | Chose(id: nat, operand: nat) | Undefined(id: nat)

  /** How conditions come out: any function of what has been executed so far. */
  type Branches = (seq<Event>, nat) -> bool

  /** About to execute instruction pc of block b, entered from prev. */
  datatype State = State(b: nat, prev: nat, pc: nat, hist: seq<Event>)

  /** The operand for the first occurrence of p among the predecessors. */
  function Choice(id: nat, ps: seq<nat>, es: seq<nat>, p: nat): (e: Event)
    requires |ps| == |es|
    ensures if p in ps then exists i :: 0 <= i < |ps| && ps[i] == p && p !in ps[..i] && e == Chose(id, es[i]) else e == Undefined(id)
  {
    if ps == [] then Undefined(id) else
    var n := |ps| - 1;
    var e := Choice(id, ps[..n], es[..n], p);
    assert ps == ps[..n] + [ps[n]];
    if e.Chose? then
      (assert p in ps[..n] && forall i :: 0 <= i < n ==> ps[..n][..i] == ps[..i]; e)
    else if ps[n] == p then Chose(id, es[n]) else e
  }

  function Goto(g: Cfg, s: State, k: nat): (s': State) {
    if s.b < |g.succs| && k < |g.succs[s.b]| then State(g.succs[s.b][k], s.b, 0, s.hist) else s
  }

  function Step(g: Cfg, br: Branches, s: State): (s': State) {
    if s.b >= |g.instrs| || s.b >= |g.preds| || s.pc >= |g.instrs[s.b]| then s else
    match g.instrs[s.b][s.pc]
    case Op(id) => s.(pc := s.pc + 1, hist := s.hist + [Ran(id)])
    case Phi(id, es) =>
      s.(pc := s.pc + 1, hist := s.hist + [if |es| == |g.preds[s.b]| then Choice(id, g.preds[s.b], es, s.prev) else Undefined(id)])
    case Jump => Goto(g, s, 0)
    case If(c) => Goto(g, s, if br(s.hist, c) then 0 else 1)
  }

  function Start(root: nat): (s: State) {
    State(root, root, 0, [])
  }

  /** The state after n steps. */
  function Run(g: Cfg, br: Branches, root: nat, n: nat): (s: State) {
    if n == 0 then Start(root) else Step(g, br, Run(g, br, root, n - 1))
  }

  /** At some point the run has executed exactly h. */
  ghost predicate Shows(g: Cfg, br: Branches, root: nat, h: seq<Event>) {
    exists n :: Run(g, br, root, n).hist == h
  }

  /** From every root and for every branch behaviour, both graphs execute the same instructions
      with the same phi choices. */
  ghost predicate SameHistories(g: Cfg, g': Cfg, roots: set<nat>) {
    forall root, br, h {:trigger Shows(g, br, root, h)} {:trigger Shows(g', br, root, h)} ::
      root in roots ==> (Shows(g, br, root, h) <==> Shows(g', br, root, h))
  }

  // ----- comparing two graphs step by step -----

  /** A step of g is matched by none or one of g', and a step of g' by one or two of g. */
  ghost predicate Matched(g: Cfg, g': Cfg, br: Branches, R: (State, State) -> bool, s: State, t: State) {
    var s', t' := Step(g, br, s), Step(g', br, t);
    s.hist == t.hist && (R(s', t) || R(s', t')) && (R(s', t') || R(Step(g, br, s'), t'))
  }

  ghost predicate Bisimulation(g: Cfg, g': Cfg, br: Branches, R: (State, State) -> bool) {
    forall s, t {:trigger Matched(g, g', br, R, s, t)} :: R(s, t) ==> Matched(g, g', br, R, s, t)
  }

  lemma {:induction false} MatchForth(g: Cfg, g': Cfg, br: Branches, R: (State, State) -> bool, root: nat, n: nat) returns (m: nat)
    requires Bisimulation(g, g', br, R) && R(Start(root), Start(root))
    ensures R(Run(g, br, root, n), Run(g', br, root, m))
  {
    m := 0;
    if n > 0 {
      m := MatchForth(g, g', br, R, root, n - 1);
      var s, t := Run(g, br, root, n - 1), Run(g', br, root, m);
      assert Matched(g, g', br, R, s, t);
      if !R(Step(g, br, s), t) {
        m := m + 1;
      }
    }
  }

  lemma {:induction false} MatchBack(g: Cfg, g': Cfg, br: Branches, R: (State, State) -> bool, root: nat, m: nat) returns (n: nat)
    requires Bisimulation(g, g', br, R) && R(Start(root), Start(root))
    ensures R(Run(g, br, root, n), Run(g', br, root, m))
  {
    n := 0;
    if m > 0 {
      n := MatchBack(g, g', br, R, root, m - 1);
      var s, t := Run(g, br, root, n), Run(g', br, root, m - 1);
      assert Matched(g, g', br, R, s, t);
      assert Run(g, br, root, n + 1) == Step(g, br, s);
      assert Run(g, br, root, n + 2) == Step(g, br, Run(g, br, root, n + 1));
      n := if R(Step(g, br, s), Step(g', br, t)) then n + 1 else n + 2;
    }
  }

  lemma BisimilarShows(g: Cfg, g': Cfg, br: Branches, R: (State, State) -> bool, root: nat, h: seq<Event>)
    requires Bisimulation(g, g', br, R) && R(Start(root), Start(root))
    ensures Shows(g, br, root, h) <==> Shows(g', br, root, h)
  {
    if n: nat :| Run(g, br, root, n).hist == h {
      var m := MatchForth(g, g', br, R, root, n);
      assert Matched(g, g', br, R, Run(g, br, root, n), Run(g', br, root, m));
    }
    if m: nat :| Run(g', br, root, m).hist == h {
      var n := MatchBack(g, g', br, R, root, m);
      assert Matched(g, g', br, R, Run(g, br, root, n), Run(g', br, root, m));
    }
  }

  // ----- well-formed graphs -----

  /** The block ends in its only transfer of control, begins with its phis, and each phi has an
      operand for each predecessor. */
  ghost predicate Shaped(g: Cfg, u: nat)
    requires u < |g.instrs| == |g.preds| == |g.succs|
  {
    var code := g.instrs[u];
    && |code| > 0
    && (forall i, j :: 0 <= i < j < |code| && code[j].Phi? ==> code[i].Phi?)
    && (forall i :: 0 <= i < |code| - 1 ==> !IsControl(code[i]))
    && (forall i :: 0 <= i < |code| && code[i].Phi? ==> |code[i].edges| == |g.preds[u]|)
    && (match code[|code| - 1] case Jump => |g.succs[u]| == 1 case If(_) => |g.succs[u]| == 2 case Op(_) => g.succs[u] == [] case Phi(_, _) => false)
  }

  /** The edges at u are listed at both ends, each once. */
  ghost predicate Dual(g: Cfg, live: set<nat>, u: nat)
    requires u < |g.preds| == |g.succs|
  {
    && Distinct(g.succs[u]) && Distinct(g.preds[u])
    && (forall v: nat :: v in g.succs[u] ==> v in live && v < |g.preds| && u in g.preds[v])
    && (forall p: nat :: p in g.preds[u] ==> p in live && p < |g.succs| && u in g.succs[p])
  }

  /** The blocks of a function: the first root is the entry; another one is the recover block.
      Only a block without predecessors may be unfinished. */
  ghost predicate WellFormed(g: Cfg, live: set<nat>, roots: set<nat>, entry: nat) {
    && |g.instrs| == |g.preds| == |g.succs| && entry in roots && roots <= live
    && (forall u :: u in live ==> u < |g.instrs|)
    && (forall u {:trigger Dual(g, live, u)} :: u in live ==> Dual(g, live, u))
    && (forall r :: r in roots ==> g.preds[r] == [] && (r != entry ==> g.succs[r] == []))
    && (forall u {:trigger Shaped(g, u)} :: u in live && (u in roots || g.preds[u] != []) ==> Shaped(g, u))
  }

  /** S contains the roots and what its members lead to. */
  ghost predicate Closed(g: Cfg, live: set<nat>, roots: set<nat>, S: set<nat>) {
    roots <= S && forall u: nat, v: nat :: u in S && u in live && u < |g.succs| && v in g.succs[u] ==> v in S
  }

  /** Every block can be reached from a root. */
  ghost predicate AllReached(g: Cfg, live: set<nat>, roots: set<nat>) {
    forall S: set<nat> :: Closed(g, live, roots, S) ==> live <= S
  }

  /** A reached block that is no root has a predecessor other than itself. */
  lemma ReachedHasPred(g: Cfg, live: set<nat>, roots: set<nat>, entry: nat, b: nat)
    requires WellFormed(g, live, roots, entry) && AllReached(g, live, roots) && b in live && b !in roots
    ensures exists p :: p in g.preds[b] && p != b
  {
    if forall p :: p in g.preds[b] ==> p == b {
      var S := live - {b};
      forall u: nat, v: nat | u in S && u in live && u < |g.succs| && v in g.succs[u] ensures v in S {
        assert Dual(g, live, u);
      }
      assert Closed(g, live, roots, S);
    }
  }
}
