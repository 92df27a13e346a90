/** SSA lifting: what the pass of lift.go computes, and why it preserves meaning.
    A register is named by the position of the instruction that defines it, a new phi by its
    block and the cell it stands for. */
module Lifting {
  import opened Paths
  import opened Flowgraphs
  import opened DomTrees
  import opened DomFrontiers

  datatype Option<T> = None | Some(value: T)

  datatype Value = Const(c: int) | Param(i: nat) | Reg(b: nat, j: nat) | PhiOf(b: nat, k: nat)

  /** Op stands for every instruction that lifting does not interpret, branches and returns included. */
  datatype Instr =
    | Alloc(zero: int)
    | Load(addr: Value)
    | Store(addr: Value, val: Value)
    | Phi(edges: seq<Value>)
    | Op(args: seq<Value>)

  /** The operands that an instruction reads when it executes (a phi reads its edges on entry). */
  function Operands(ins: Instr): (vs: seq<Value>) {
    match ins
    case Alloc(_) => []
    case Load(a) => [a]
    case Store(a, v) => [a, v]
    case Phi(_) => []
    case Op(args) => args
  }

  /** A function together with the cells that liftAlloc chose: index numbers the liftable allocs,
      zeros holds the zero value of each cell, phiAt the cells with a new phi in each block. */
  datatype Plan = Plan(g: Flowgraph, recover: int, idom: seq<int>, children: seq<seq<nat>>,
                       blocks: seq<seq<Instr>>, index: map<(nat, nat), nat>, zeros: seq<int>, phiAt: seq<set<nat>>)
  {
    ghost predicate Shaped() {
      && TreeOf(g, recover, idom, children)
      && |blocks| == |phiAt| == |g.succs| == |idom|
      && (forall p :: p in index ==> index[p] < |zeros|)
      && (forall b, k :: 0 <= b < |phiAt| && k in phiAt[b] ==> k < |zeros|)
    }

    predicate IsCell(v: Value) {
      v.Reg? && (v.b, v.j) in index
    }

    function Cell(v: Value): (k: nat)
      requires IsCell(v)
    {
      index[(v.b, v.j)]
    }

    predicate At(u: nat, i: nat) {
      u < |blocks| && i < |blocks[u]|
    }

    predicate LiftedAlloc(u: nat, i: nat) {
      At(u, i) && blocks[u][i].Alloc? && (u, i) in index
    }

    predicate LiftedLoad(u: nat, i: nat) {
      At(u, i) && blocks[u][i].Load? && IsCell(blocks[u][i].addr)
    }

    predicate LiftedStore(u: nat, i: nat) {
      At(u, i) && blocks[u][i].Store? && IsCell(blocks[u][i].addr)
    }

    predicate Deleted(u: nat, i: nat) {
      LiftedAlloc(u, i) || LiftedLoad(u, i) || LiftedStore(u, i)
    }

    /** Position (b, j) comes before position (u, i) on the way down the dominator tree. */
    ghost predicate Before(b: nat, j: nat, u: nat, i: nat)
      requires Shaped() && u < |idom|
    {
      b < |idom| && (DomRank(g)[b] < DomRank(g)[u] || (b == u && j < i))
    }

    ghost function Zeros(): (r: seq<Value>)
      ensures |r| == |zeros| && forall k :: 0 <= k < |r| ==> r[k] == Const(zeros[k])
    {
      seq(|zeros|, k requires 0 <= k < |zeros| => Const(zeros[k]))
    }

    /** The renaming just before instruction i of block u: the value that each cell stands for. */
    ghost function Ren(u: nat, i: nat): (r: seq<Value>)
      requires Shaped() && u < |idom| && i <= |blocks[u]|
      ensures |r| == |zeros|
      decreases DomRank(g)[u], i
    {
      if i == 0 then
        var up := if idom[u] == NIL then Zeros() else Ren(idom[u], |blocks[idom[u]]|);
        seq(|zeros|, k requires 0 <= k < |zeros| => if k in phiAt[u] then PhiOf(u, k) else up[k])
      else
        var r := Ren(u, i - 1);
        if LiftedAlloc(u, i - 1) then
          r[index[(u, i - 1)] := Const(zeros[index[(u, i - 1)]])]
        else if LiftedStore(u, i - 1) then
          var v := blocks[u][i - 1].val;
          r[Cell(blocks[u][i - 1].addr) :=
            if v.Reg? && LiftedLoad(v.b, v.j) && Before(v.b, v.j, u, i - 1)
            then Ren(v.b, v.j)[Cell(blocks[v.b][v.j].addr)] else v]
        else r
    }

    /** The renaming at the end of block u. */
    ghost function RenOut(u: nat): (r: seq<Value>)
      requires Shaped() && u < |idom|
      ensures |r| == |zeros|
    {
      Ren(u, |blocks[u]|)
    }

    /** The value that replaces v: a load of a cell becomes what the cell stands for there. */
    ghost function Sub(v: Value): (w: Value)
      requires Shaped()
    {
      if v.Reg? && LiftedLoad(v.b, v.j) then Ren(v.b, v.j)[Cell(blocks[v.b][v.j].addr)] else v
    }

    ghost function SubAll(vs: seq<Value>): (ws: seq<Value>)
      requires Shaped()
      ensures |ws| == |vs| && forall i :: 0 <= i < |vs| ==> ws[i] == Sub(vs[i])
    {
      seq(|vs|, i requires 0 <= i < |vs| => Sub(vs[i]))
    }

    ghost function SubInstr(ins: Instr): (r: Instr)
      requires Shaped()
    {
      match ins
      case Alloc(_) => ins
      case Load(a) => Load(Sub(a))
      case Store(a, v) => Store(Sub(a), Sub(v))
      case Phi(edges) => Phi(SubAll(edges))
      case Op(args) => Op(SubAll(args))
    }

    // ----- well-formed input -----

    /** The register defined at (b, j) is available at (u, i): its definition dominates that point. */
    ghost predicate Avail(b: nat, j: nat, u: nat, i: nat) {
      At(b, j) && (StrictlyDominates(g.EdgeSet(), 0, b, u) || (b == u && j < i))
    }

    /** v may be used as a value at (u, i). */
    ghost predicate Usable(v: Value, u: nat, i: nat) {
      && !v.PhiOf?
      && (v.Reg? ==> Avail(v.b, v.j, u, i) && (v.b, v.j) !in index && !blocks[v.b][v.j].Store?)
    }

    /** The definitions of cell k: its alloc and the stores to it. */
    ghost predicate Defines(u: nat, i: nat, k: nat) {
      (LiftedAlloc(u, i) && index[(u, i)] == k) || (LiftedStore(u, i) && Cell(blocks[u][i].addr) == k)
    }

    /** Instruction i of block u uses cells only as addresses, and only values that are available. */
    ghost predicate UsesOk(u: nat, i: nat)
      requires Shaped() && At(u, i)
    {
      match blocks[u][i]
      case Alloc(z) => (u, i) in index ==> z == zeros[index[(u, i)]]
      case Load(a) => IsCell(a) || Usable(a, u, i)
      case Store(a, v) => (IsCell(a) || Usable(a, u, i)) && Usable(v, u, i)
      case Phi(edges) =>
        |edges| == |g.preds[u]| &&
        forall e :: 0 <= e < |edges| ==>
          g.preds[u][e] < |blocks| && Usable(edges[e], g.preds[u][e], |blocks[g.preds[u][e]]|)
      case Op(args) => forall a :: 0 <= a < |args| ==> Usable(args[a], u, i)
    }

    /** Phis come first. */
    ghost predicate PhisFirst(u: nat)
      requires u < |blocks|
    {
      forall i, j :: 0 <= i < j < |blocks[u]| && blocks[u][j].Phi? ==> blocks[u][i].Phi?
    }

    /** The frontier of every block that defines cell k, or has a phi for it, has a phi for it. */
    ghost predicate PhisClosed(k: nat)
      requires |phiAt| == |g.succs|
    {
      forall u, v :: 0 <= u < |phiAt| && 0 <= v < |phiAt| && (k in phiAt[u] || (exists i :: Defines(u, i, k))) && InFrontier(g, u, v)
        ==> k in phiAt[v]
    }

    ghost predicate Valid() {
      && Shaped()
      && g.preds[0] == [] && phiAt[0] == {}
      && (forall v :: 0 <= v < |g.preds| ==> Distinct(g.preds[v]))
      && (forall p :: p in index ==> LiftedAlloc(p.0, p.1))
      && (forall p, q :: p in index && q in index && index[p] == index[q] ==> p == q)
      && (forall u, i :: 0 <= u < |blocks| && 0 <= i < |blocks[u]| && u != recover ==> UsesOk(u, i))
      && (forall u :: 0 <= u < |blocks| ==> PhisFirst(u))
      && (forall k :: 0 <= k < |zeros| ==> PhisClosed(k))
    }
  }

  // ----- meaning -----

  /** What the environment sees: the instruction at (b, j) executed with these operand values. */
  datatype Event = Event(b: nat, j: nat, args: seq<int>)

  datatype State = State(env: map<Value, int>, mem: seq<int>, hist: seq<Event>)

  /** The outcome of the latest event, which may depend on everything that happened so far. */
  type Oracle = seq<Event> -> int

  function Eval(env: map<Value, int>, v: Value): (x: int) {
    if v.Const? then v.c else if v in env then env[v] else 0
  }

  function EvalAll(env: map<Value, int>, vs: seq<Value>): (xs: seq<int>)
    ensures |xs| == |vs| && forall i :: 0 <= i < |vs| ==> xs[i] == Eval(env, vs[i])
  {
    seq(|vs|, i requires 0 <= i < |vs| => Eval(env, vs[i]))
  }

  function Observe(s: State, u: nat, i: nat, args: seq<Value>, orc: Oracle): (t: State) {
    var h := s.hist + [Event(u, i, EvalAll(s.env, args))];
    State(s.env[Reg(u, i) := orc(h)], s.mem, h)
  }

  /** The position of u among the predecessors ps. */
  function PredIndex(ps: seq<nat>, u: nat): (e: nat)
    requires u in ps
    ensures e < |ps| && ps[e] == u
  {
    if ps[0] == u then 0 else 1 + PredIndex(ps[1..], u)
  }

  /** One instruction of the original function: cells are memory. */
  function NaiveStep(pl: Plan, orc: Oracle, u: nat, i: nat, s: State): (t: State)
    requires pl.At(u, i) && (forall p :: p in pl.index ==> pl.index[p] < |s.mem|)
    ensures |t.mem| == |s.mem|
  {
    var ins := pl.blocks[u][i];
    if ins.Phi? then s
    else if pl.LiftedAlloc(u, i) then s.(mem := s.mem[pl.index[(u, i)] := ins.zero])
    else if pl.LiftedLoad(u, i) then s.(env := s.env[Reg(u, i) := s.mem[pl.Cell(ins.addr)]])
    else if pl.LiftedStore(u, i) then s.(mem := s.mem[pl.Cell(ins.addr) := Eval(s.env, ins.val)])
    else Observe(s, u, i, Operands(ins), orc)
  }

  /** The first i instructions of block u. */
  function NaiveBlock(pl: Plan, orc: Oracle, u: nat, i: nat, s: State): (t: State)
    requires u < |pl.blocks| && i <= |pl.blocks[u]| && (forall p :: p in pl.index ==> pl.index[p] < |s.mem|)
    ensures |t.mem| == |s.mem|
  {
    if i == 0 then s else NaiveStep(pl, orc, u, i - 1, NaiveBlock(pl, orc, u, i - 1, s))
  }

  /** The registers of the phis among the first j instructions, for the e-th predecessor. */
  function PhiValues(env: map<Value, int>, v: nat, code: seq<Option<Instr>>, e: nat, j: nat): (m: map<Value, int>)
    requires j <= |code|
  {
    if j == 0 then map[]
    else
      var m := PhiValues(env, v, code, e, j - 1);
      if code[j - 1].Some? && code[j - 1].value.Phi? && e < |code[j - 1].value.edges|
      then m[Reg(v, j - 1) := Eval(env, code[j - 1].value.edges[e])] else m
  }

  function Whole(ins: seq<Instr>): (code: seq<Option<Instr>>)
    ensures |code| == |ins| && forall i :: 0 <= i < |ins| ==> code[i] == Some(ins[i])
  {
    seq(|ins|, i requires 0 <= i < |ins| => Some(ins[i]))
  }

  /** Entering block v by its e-th predecessor assigns all its phis at once. */
  function NaiveEnter(pl: Plan, v: nat, e: nat, s: State): (t: State)
    requires v < |pl.blocks|
  {
    s.(env := s.env + PhiValues(s.env, v, Whole(pl.blocks[v]), e, |pl.blocks[v]|))
  }

  /** A new phi for cell k; an edge is nil until the renaming has reached its predecessor. */
  datatype NewPhi = NewPhi(k: nat, edges: seq<Option<Value>>)

  function NewPhiValues(env: map<Value, int>, v: nat, phis: seq<NewPhi>, e: nat): (m: map<Value, int>) {
    if phis == [] then map[]
    else
      var m, np := NewPhiValues(env, v, phis[..|phis| - 1], e), phis[|phis| - 1];
      if e < |np.edges| && np.edges[e].Some? then m[PhiOf(v, np.k) := Eval(env, np.edges[e].value)] else m
  }

  /** The lifted function: surviving instructions, and the edges of the new phis of each block. */
  datatype Lifted = Lifted(code: seq<seq<Option<Instr>>>, phis: seq<seq<NewPhi>>)

  function LiftedStep(L: Lifted, orc: Oracle, u: nat, i: nat, s: State): (t: State)
    requires u < |L.code| && i < |L.code[u]|
  {
    match L.code[u][i]
    case None => s
    case Some(ins) => if ins.Phi? then s else Observe(s, u, i, Operands(ins), orc)
  }

  function LiftedBlock(L: Lifted, orc: Oracle, u: nat, i: nat, s: State): (t: State)
    requires u < |L.code| && i <= |L.code[u]|
  {
    if i == 0 then s else LiftedStep(L, orc, u, i - 1, LiftedBlock(L, orc, u, i - 1, s))
  }

  function LiftedEnter(L: Lifted, v: nat, e: nat, s: State): (t: State)
    requires v < |L.code| == |L.phis|
  {
    s.(env := s.env + NewPhiValues(s.env, v, L.phis[v], e) + PhiValues(s.env, v, L.code[v], e, |L.code[v]|))
  }

  /** L is the result of lifting: the accesses to cells are gone, every operand is replaced, and
      each new phi has, for each predecessor, the renaming at its end. */
  ghost predicate IsLifted(pl: Plan, L: Lifted)
    requires pl.Shaped()
  {
    && |L.code| == |L.phis| == |pl.blocks|
    && (forall u :: 0 <= u < |L.code| && u != pl.recover ==> BlockLifted(pl, L, u))
  }

  ghost predicate BlockLifted(pl: Plan, L: Lifted, u: nat)
    requires pl.Shaped() && |L.code| == |L.phis| == |pl.blocks| && u < |L.code|
  {
    && |L.code[u]| == |pl.blocks[u]|
    && (forall i :: 0 <= i < |L.code[u]| ==>
          L.code[u][i] == if pl.Deleted(u, i) then None else Some(pl.SubInstr(pl.blocks[u][i])))
    && (forall k :: k in pl.phiAt[u] <==> exists m :: 0 <= m < |L.phis[u]| && L.phis[u][m].k == k)
    && (forall m :: 0 <= m < |L.phis[u]| ==> EdgesLifted(pl, L.phis[u][m], u))
    && DistinctPhis(L.phis[u])
  }

  ghost predicate DistinctPhis(phis: seq<NewPhi>) {
    forall m, m' :: 0 <= m < m' < |phis| ==> phis[m].k != phis[m'].k
  }

  ghost predicate EdgesLifted(pl: Plan, np: NewPhi, u: nat)
    requires pl.Shaped() && u < |pl.idom|
  {
    && np.k < |pl.zeros| && |np.edges| == |pl.g.preds[u]|
    && forall e :: 0 <= e < |pl.g.preds[u]| ==>
         pl.g.preds[u][e] < |pl.idom| && np.edges[e] == Some(pl.RenOut(pl.g.preds[u][e])[np.k])
  }

  /** p is a walk along the predecessor lists. */
  ghost predicate Runs(g: Flowgraph, p: seq<nat>) {
    && |p| > 0 && (forall i :: 0 <= i < |p| ==> p[i] < |g.preds|)
    && (forall i :: 0 < i < |p| ==> Arrives(g, p, i))
  }

  ghost predicate Arrives(g: Flowgraph, p: seq<nat>, i: nat) {
    0 < i < |p| && p[i] < |g.preds| && p[i - 1] in g.preds[p[i]]
  }

  lemma RunsPrefix(g: Flowgraph, p: seq<nat>)
    requires Runs(g, p) && |p| > 1
    ensures Runs(g, p[..|p| - 1]) && p[|p| - 2] in g.preds[p[|p| - 1]]
  {
    assert Arrives(g, p, |p| - 1);
    var q := p[..|p| - 1];
    forall i | 0 < i < |q| ensures Arrives(g, q, i) {
      assert Arrives(g, p, i);
    }
  }

  /** A run of the original function along the walk p. */
  ghost function NaiveRun(pl: Plan, orc: Oracle, s0: State, p: seq<nat>): (t: State)
    requires Runs(pl.g, p) && |pl.blocks| == |pl.g.preds|
    requires forall q :: q in pl.index ==> pl.index[q] < |s0.mem|
    ensures |t.mem| == |s0.mem|
  {
    var v := p[|p| - 1];
    var s := if |p| == 1 then s0
             else (RunsPrefix(pl.g, p); NaiveEnter(pl, v, PredIndex(pl.g.preds[v], p[|p| - 2]), NaiveRun(pl, orc, s0, p[..|p| - 1])));
    NaiveBlock(pl, orc, v, |pl.blocks[v]|, s)
  }

  /** A run of the lifted function along the walk p. */
  ghost function LiftedRun(g: Flowgraph, L: Lifted, orc: Oracle, s0: State, p: seq<nat>): (t: State)
    requires Runs(g, p) && |L.code| == |L.phis| == |g.preds|
  {
    var v := p[|p| - 1];
    var s := if |p| == 1 then s0
             else (RunsPrefix(g, p); LiftedEnter(L, v, PredIndex(g.preds[v], p[|p| - 2]), LiftedRun(g, L, orc, s0, p[..|p| - 1])));
    LiftedBlock(L, orc, v, |L.code[v]|, s)
  }
}
