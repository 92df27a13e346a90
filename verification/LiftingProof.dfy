/** Lifting preserves meaning: along every walk from the entry, every surviving instruction
    executes with the same operand values as in the original function. */
module LiftingProof {
  import opened Paths
  import opened Flowgraphs
  import opened DomTrees
  import opened DomFrontiers
  import opened Lifting

  // ----- availability -----

  lemma StrictRank(pl: Plan, b: nat, u: nat)
    requires pl.Shaped() && u < |pl.idom| && u != pl.recover && StrictlyDominates(pl.g.EdgeSet(), 0, b, u)
    ensures b < |pl.idom| && b != pl.recover && DomRank(pl.g)[b] < DomRank(pl.g)[u]
  {
    assert Reaches(pl.g.EdgeSet(), 0, u);
    var p :| WalkFromTo(pl.g.EdgeSet(), p, 0, u);
    assert b in p;
    var i :| 0 <= i < |p| && p[i] == b;
    assert i > 0 ==> Step(pl.g.EdgeSet(), p, i);
    AboveIsDominance(pl.g, pl.recover, pl.idom, pl.children, b, u);
    AboveRank(pl.idom, DomRank(pl.g), b, u);
  }

  lemma StrictTransitive(pl: Plan, a: nat, b: nat, c: nat)
    requires pl.Shaped() && c < |pl.idom| && c != pl.recover
    requires Dominates(pl.g.EdgeSet(), 0, a, b) && Dominates(pl.g.EdgeSet(), 0, b, c) && (a != b || b != c)
    ensures StrictlyDominates(pl.g.EdgeSet(), 0, a, c)
  {
    DominatesTransitive(pl.g.EdgeSet(), 0, a, b, c);
    assert Reaches(pl.g.EdgeSet(), 0, c);
    if a == c { DominatesAntisymmetric(pl.g.EdgeSet(), 0, b, c); }
  }

  /** A value in a renaming or an operand after replacement: its definition dominates (u, i), and
      it is not one of the deleted instructions. */
  ghost predicate Ready(pl: Plan, v: Value, u: nat, i: nat) {
    match v
    case Const(_) => true
    case Param(_) => true
    case Reg(b, j) => pl.Avail(b, j, u, i) && !pl.Deleted(b, j)
    case PhiOf(b, k) => b < |pl.phiAt| && k in pl.phiAt[b] && Dominates(pl.g.EdgeSet(), 0, b, u)
  }

  /** What is ready at the definition of an available register is ready where that is available. */
  lemma ReadyLater(pl: Plan, v: Value, b: nat, j: nat, u: nat, i: nat)
    requires pl.Shaped() && u < |pl.idom| && u != pl.recover
    requires Ready(pl, v, b, j) && pl.Avail(b, j, u, i)
    ensures Ready(pl, v, u, i)
  {
    DominatesSelf(pl.g.EdgeSet(), 0, u);
    if v.Reg? && b != u {
      if v.b != b { StrictTransitive(pl, v.b, b, u); }
    }
    if v.PhiOf? && b != u { DominatesTransitive(pl.g.EdgeSet(), 0, v.b, b, u); }
  }

  lemma ReadyNext(pl: Plan, v: Value, u: nat, i: nat)
    requires Ready(pl, v, u, i)
    ensures Ready(pl, v, u, i + 1)
  {
  }

  /** What is ready at the end of the immediate dominator is ready on entry. */
  lemma ReadyDown(pl: Plan, v: Value, u: nat)
    requires pl.Shaped() && u < |pl.idom| && u != pl.recover && pl.idom[u] != NIL
    requires Ready(pl, v, pl.idom[u], |pl.blocks[pl.idom[u]]|)
    ensures Ready(pl, v, u, 0)
  {
    var d := pl.idom[u];
    assert StrictlyDominates(pl.g.EdgeSet(), 0, d, u);
    if v.Reg? && v.b != d { StrictTransitive(pl, v.b, d, u); }
    if v.PhiOf? { DominatesTransitive(pl.g.EdgeSet(), 0, v.b, d, u); }
  }

  /** Every value in the renaming at a point is ready there. */
  lemma {:induction false} RenReady(pl: Plan, u: nat, i: nat, k: nat)
    requires pl.Valid() && u < |pl.idom| && u != pl.recover && i <= |pl.blocks[u]| && k < |pl.zeros|
    ensures Ready(pl, pl.Ren(u, i)[k], u, i)
    decreases DomRank(pl.g)[u], i
  {
    if i == 0 {
      DominatesSelf(pl.g.EdgeSet(), 0, u);
      if k !in pl.phiAt[u] && pl.idom[u] != NIL {
        assert StrictlyDominates(pl.g.EdgeSet(), 0, pl.idom[u], u);
        StrictRank(pl, pl.idom[u], u);
        RenReady(pl, pl.idom[u], |pl.blocks[pl.idom[u]]|, k);
        ReadyDown(pl, pl.RenOut(pl.idom[u])[k], u);
      }
    } else {
      RenReady(pl, u, i - 1, k);
      assert Ready(pl, pl.Ren(u, i)[k], u, i - 1) by {
        if pl.LiftedStore(u, i - 1) {
          assert pl.UsesOk(u, i - 1);
          StoredReady(pl, u, i - 1, pl.blocks[u][i - 1].val);
        }
      }
      ReadyNext(pl, pl.Ren(u, i)[k], u, i - 1);
    }
  }

  /** The replacement of a value usable at (u, i) is ready there; this is also the value that
      the renaming records for a store of it. */
  lemma {:induction false} StoredReady(pl: Plan, u: nat, i: nat, v: Value)
    requires pl.Valid() && u < |pl.idom| && u != pl.recover && i <= |pl.blocks[u]|
    requires pl.Usable(v, u, i)
    ensures Ready(pl, pl.Sub(v), u, i)
    ensures v.Reg? && pl.LiftedLoad(v.b, v.j) ==> pl.Before(v.b, v.j, u, i)
    decreases DomRank(pl.g)[u], i, 0
  {
    if v.Reg? && pl.LiftedLoad(v.b, v.j) {
      if v.b != u { StrictRank(pl, v.b, u); }
      RenReady(pl, v.b, v.j, pl.Cell(pl.blocks[v.b][v.j].addr));
      ReadyLater(pl, pl.Sub(v), v.b, v.j, u, i);
    }
  }

  // ----- where no phi is needed -----

  /** A block that neither defines cell k nor has a phi for it passes its renaming on. */
  lemma {:induction false} RenUnchanged(pl: Plan, u: nat, i: nat, k: nat)
    requires pl.Shaped() && u < |pl.idom| && i <= |pl.blocks[u]| && k < |pl.zeros|
    requires forall j :: !pl.Defines(u, j, k)
    ensures pl.Ren(u, i)[k] == pl.Ren(u, 0)[k]
  {
    if i > 0 {
      RenUnchanged(pl, u, i - 1, k);
      assert !pl.Defines(u, i - 1, k);
    }
  }

  /** Between a block without a phi for cell k and its immediate dominator, nothing defines the
      cell: the renaming at the end of every predecessor is that of the immediate dominator. */
  lemma {:induction false} NoPhiSame(pl: Plan, v: nat, u: nat, k: nat, x: nat)
    requires pl.Valid() && v < |pl.idom| && v != pl.recover && u in pl.g.preds[v] && k < |pl.zeros| && k !in pl.phiAt[v]
    requires x < |pl.idom| && Dominates(pl.g.EdgeSet(), 0, x, u)
    requires pl.idom[v] != NIL && Dominates(pl.g.EdgeSet(), 0, pl.idom[v], x)
    ensures pl.RenOut(x)[k] == pl.RenOut(pl.idom[v])[k]
    decreases DomRank(pl.g)[x]
  {
    var E, d := pl.g.EdgeSet(), pl.idom[v];
    NotRecover(pl.g, pl.recover, pl.idom, pl.children, u, v);
    if x != d {
      ReachesDominator(pl.g, x, u);
      assert x != pl.recover by {
        if x == pl.recover { RecoverDominatesNothing(pl.g, pl.recover, u); }
      }
      assert !StrictlyDominates(E, 0, x, v) by {
        if StrictlyDominates(E, 0, x, v) { DominatesAntisymmetric(E, 0, d, x); }
      }
      assert InFrontier(pl.g, x, v);
      assert pl.PhisClosed(k);
      RenUnchanged(pl, x, |pl.blocks[x]|, k);
      EntryHasNoStrictDominator(pl.g, d);
      var up := pl.idom[x];
      assert IsIdom(E, 0, up, x);
      DominatesTransitive(E, 0, up, x, u);
      NoPhiSame(pl, v, u, k, up);
    }
  }

  // ----- simulation -----

  /** The register (b, j) of the original run has the value of its replacement in the lifted run. */
  ghost predicate Agrees(pl: Plan, s: State, t: State, b: nat, j: nat)
    requires pl.Shaped()
  {
    Eval(s.env, Reg(b, j)) == Eval(t.env, pl.Sub(Reg(b, j)))
  }

  /** (b, j) defines a register that may be used as a value at (u, i). */
  ghost predicate Live(pl: Plan, b: nat, j: nat, u: nat, i: nat) {
    pl.Avail(b, j, u, i) && !pl.LiftedAlloc(b, j) && !pl.LiftedStore(b, j)
  }

  /** The original run in state s and the lifted run in state t, both before instruction i of block u. */
  ghost predicate Simulates(pl: Plan, s: State, t: State, u: nat, i: nat)
    requires pl.Shaped() && u < |pl.idom| && i <= |pl.blocks[u]|
  {
    && s.hist == t.hist && |s.mem| == |pl.zeros|
    && (forall k :: 0 <= k < |s.mem| ==> s.mem[k] == Eval(t.env, pl.Ren(u, i)[k]))
    && (forall b, j :: Live(pl, b, j, u, i) ==> Agrees(pl, s, t, b, j))
    && (forall j: nat :: pl.At(u, j) && pl.blocks[u][j].Phi? ==> Eval(s.env, Reg(u, j)) == Eval(t.env, Reg(u, j)))
    && (forall a: nat :: Eval(s.env, Param(a)) == Eval(t.env, Param(a)))
  }

  lemma SubReady(pl: Plan, b: nat, j: nat, u: nat, i: nat)
    requires pl.Valid() && u < |pl.idom| && u != pl.recover && i <= |pl.blocks[u]| && Live(pl, b, j, u, i)
    ensures Ready(pl, pl.Sub(Reg(b, j)), u, i)
  {
    if pl.LiftedLoad(b, j) {
      if b != u { StrictRank(pl, b, u); }
      RenReady(pl, b, j, pl.Cell(pl.blocks[b][j].addr));
      ReadyLater(pl, pl.Sub(Reg(b, j)), b, j, u, i);
    }
  }

  lemma UsableAgrees(pl: Plan, s: State, t: State, u: nat, i: nat, v: Value)
    requires pl.Valid() && u < |pl.idom| && i <= |pl.blocks[u]| && Simulates(pl, s, t, u, i)
    requires pl.Usable(v, u, i)
    ensures Eval(s.env, v) == Eval(t.env, pl.Sub(v))
  {
    if v.Reg? {
      assert Live(pl, v.b, v.j, u, i);
      assert Agrees(pl, s, t, v.b, v.j);
    }
  }

  lemma OperandsAgree(pl: Plan, s: State, t: State, u: nat, i: nat)
    requires pl.Valid() && u < |pl.idom| && u != pl.recover && pl.At(u, i) && Simulates(pl, s, t, u, i)
    requires !pl.Deleted(u, i)
    ensures EvalAll(s.env, Operands(pl.blocks[u][i])) == EvalAll(t.env, Operands(pl.SubInstr(pl.blocks[u][i])))
  {
    assert pl.UsesOk(u, i);
    var vs, ws := Operands(pl.blocks[u][i]), Operands(pl.SubInstr(pl.blocks[u][i]));
    forall a | 0 <= a < |vs| ensures Eval(s.env, vs[a]) == Eval(t.env, ws[a]) {
      UsableAgrees(pl, s, t, u, i, vs[a]);
    }
  }

  /** Writing the register of (u, i) in the lifted run disturbs nothing that is ready there. */
  lemma WriteFrame(pl: Plan, env: map<Value, int>, x: int, u: nat, i: nat, v: Value)
    requires Ready(pl, v, u, i)
    ensures Eval(env[Reg(u, i) := x], v) == Eval(env, v)
  {
  }

  /** Simulation across an instruction that stays: both runs observe the same event. */
  lemma SimObserve(pl: Plan, orc: Oracle, s: State, t: State, u: nat, i: nat)
    requires pl.Valid() && u < |pl.idom| && u != pl.recover && pl.At(u, i) && Simulates(pl, s, t, u, i)
    requires !pl.Deleted(u, i) && !pl.blocks[u][i].Phi?
    ensures Simulates(pl, Observe(s, u, i, Operands(pl.blocks[u][i]), orc),
                      Observe(t, u, i, Operands(pl.SubInstr(pl.blocks[u][i])), orc), u, i + 1)
  {
    OperandsAgree(pl, s, t, u, i);
    var s' := Observe(s, u, i, Operands(pl.blocks[u][i]), orc);
    var t' := Observe(t, u, i, Operands(pl.SubInstr(pl.blocks[u][i])), orc);
    forall k | 0 <= k < |s'.mem| ensures s'.mem[k] == Eval(t'.env, pl.Ren(u, i + 1)[k]) {
      RenReady(pl, u, i, k);
      WriteFrame(pl, t.env, orc(t'.hist), u, i, pl.Ren(u, i)[k]);
    }
    forall b, j | Live(pl, b, j, u, i + 1) ensures Agrees(pl, s', t', b, j) {
      if b != u || j != i {
        assert Live(pl, b, j, u, i) && Agrees(pl, s, t, b, j);
        SubReady(pl, b, j, u, i);
        WriteFrame(pl, t.env, orc(t'.hist), u, i, pl.Sub(Reg(b, j)));
      }
    }
  }

  /** Simulation across a deleted alloc or store: the cell and its renaming change together. */
  lemma SimCell(pl: Plan, s: State, t: State, u: nat, i: nat, k: nat, x: int)
    requires pl.Valid() && u < |pl.idom| && u != pl.recover && pl.At(u, i) && Simulates(pl, s, t, u, i)
    requires (pl.LiftedAlloc(u, i) || pl.LiftedStore(u, i)) && k < |pl.zeros| && |pl.Ren(u, i + 1)| == |pl.zeros|
    requires pl.Ren(u, i + 1) == pl.Ren(u, i)[k := pl.Ren(u, i + 1)[k]] && x == Eval(t.env, pl.Ren(u, i + 1)[k])
    ensures Simulates(pl, s.(mem := s.mem[k := x]), t, u, i + 1)
  {
    var s' := s.(mem := s.mem[k := x]);
    forall b, j | Live(pl, b, j, u, i + 1) ensures Agrees(pl, s', t, b, j) {
      assert Live(pl, b, j, u, i) && Agrees(pl, s, t, b, j);
    }
  }

  /** Simulation across a deleted load: its register equals its replacement. */
  lemma SimLoad(pl: Plan, s: State, t: State, u: nat, i: nat)
    requires pl.Valid() && u < |pl.idom| && u != pl.recover && pl.At(u, i) && Simulates(pl, s, t, u, i)
    requires pl.LiftedLoad(u, i)
    ensures Simulates(pl, s.(env := s.env[Reg(u, i) := s.mem[pl.Cell(pl.blocks[u][i].addr)]]), t, u, i + 1)
  {
    var s' := s.(env := s.env[Reg(u, i) := s.mem[pl.Cell(pl.blocks[u][i].addr)]]);
    forall b, j | Live(pl, b, j, u, i + 1) ensures Agrees(pl, s', t, b, j) {
      if b != u || j != i {
        assert Live(pl, b, j, u, i) && Agrees(pl, s, t, b, j);
      }
    }
  }

  /** Simulation across a deleted instruction: only the original run moves. */
  lemma SimDeleted(pl: Plan, orc: Oracle, s: State, t: State, u: nat, i: nat)
    requires pl.Valid() && u < |pl.idom| && u != pl.recover && pl.At(u, i) && Simulates(pl, s, t, u, i)
    requires pl.Deleted(u, i)
    ensures Simulates(pl, NaiveStep(pl, orc, u, i, s), t, u, i + 1)
  {
    assert pl.UsesOk(u, i);
    var ins := pl.blocks[u][i];
    if pl.LiftedLoad(u, i) {
      SimLoad(pl, s, t, u, i);
    } else if pl.LiftedStore(u, i) {
      UsableAgrees(pl, s, t, u, i, ins.val);
      StoredReady(pl, u, i, ins.val);
      SimCell(pl, s, t, u, i, pl.Cell(ins.addr), Eval(s.env, ins.val));
    } else {
      SimCell(pl, s, t, u, i, pl.index[(u, i)], ins.zero);
    }
  }

  lemma SimPhi(pl: Plan, s: State, t: State, u: nat, i: nat)
    requires pl.Valid() && u < |pl.idom| && u != pl.recover && pl.At(u, i) && Simulates(pl, s, t, u, i)
    requires pl.blocks[u][i].Phi?
    ensures Simulates(pl, s, t, u, i + 1)
  {
    forall b, j | Live(pl, b, j, u, i + 1) ensures Agrees(pl, s, t, b, j) {
      if b != u || j != i { assert Live(pl, b, j, u, i); }
    }
  }

  lemma SimStep(pl: Plan, L: Lifted, orc: Oracle, s: State, t: State, u: nat, i: nat)
    requires pl.Valid() && |L.code| == |L.phis| == |pl.blocks| && u < |pl.idom| && u != pl.recover && pl.At(u, i)
    requires BlockLifted(pl, L, u) && Simulates(pl, s, t, u, i)
    ensures Simulates(pl, NaiveStep(pl, orc, u, i, s), LiftedStep(L, orc, u, i, t), u, i + 1)
  {
    assert L.code[u][i] == if pl.Deleted(u, i) then None else Some(pl.SubInstr(pl.blocks[u][i]));
    if pl.Deleted(u, i) {
      SimDeleted(pl, orc, s, t, u, i);
    } else if pl.blocks[u][i].Phi? {
      SimPhi(pl, s, t, u, i);
    } else {
      SimObserve(pl, orc, s, t, u, i);
    }
  }

  lemma {:induction false} SimBlock(pl: Plan, L: Lifted, orc: Oracle, s: State, t: State, u: nat, i: nat)
    requires pl.Valid() && |L.code| == |L.phis| == |pl.blocks| && u < |pl.idom| && u != pl.recover && i <= |pl.blocks[u]|
    requires BlockLifted(pl, L, u) && Simulates(pl, s, t, u, 0)
    ensures Simulates(pl, NaiveBlock(pl, orc, u, i, s), LiftedBlock(L, orc, u, i, t), u, i)
  {
    if i > 0 {
      SimBlock(pl, L, orc, s, t, u, i - 1);
      var s1, t1 := NaiveBlock(pl, orc, u, i - 1, s), LiftedBlock(L, orc, u, i - 1, t);
      SimStep(pl, L, orc, s1, t1, u, i - 1);
      assert NaiveBlock(pl, orc, u, i, s) == NaiveStep(pl, orc, u, i - 1, s1);
      assert LiftedBlock(L, orc, u, i, t) == LiftedStep(L, orc, u, i - 1, t1);
    }
  }

  // ----- crossing an edge -----

  /** v is neither a register nor a phi of block w. */
  predicate Foreign(v: Value, w: nat) {
    (v.Reg? ==> v.b != w) && (v.PhiOf? ==> v.b != w)
  }

  lemma {:induction false} PhiValuesAt(env: map<Value, int>, v: nat, code: seq<Option<Instr>>, e: nat, n: nat)
    requires n <= |code|
    ensures forall w :: w in PhiValues(env, v, code, e, n) ==> w.Reg? && w.b == v
    ensures forall j :: 0 <= j < n && code[j].Some? && code[j].value.Phi? && e < |code[j].value.edges| ==>
              Reg(v, j) in PhiValues(env, v, code, e, n) && PhiValues(env, v, code, e, n)[Reg(v, j)] == Eval(env, code[j].value.edges[e])
    ensures forall j: nat :: Reg(v, j) in PhiValues(env, v, code, e, n) ==> j < n
  {
    if n > 0 { PhiValuesAt(env, v, code, e, n - 1); }
  }

  lemma {:induction false} NewPhiValuesAt(env: map<Value, int>, v: nat, phis: seq<NewPhi>, e: nat)
    requires DistinctPhis(phis)
    ensures forall w :: w in NewPhiValues(env, v, phis, e) ==> w.PhiOf? && w.b == v
    ensures forall m :: 0 <= m < |phis| && e < |phis[m].edges| && phis[m].edges[e].Some? ==>
              PhiOf(v, phis[m].k) in NewPhiValues(env, v, phis, e) && NewPhiValues(env, v, phis, e)[PhiOf(v, phis[m].k)] == Eval(env, phis[m].edges[e].value)
  {
    if phis != [] { NewPhiValuesAt(env, v, phis[..|phis| - 1], e); }
  }

  lemma EnterFrame(pl: Plan, L: Lifted, v: nat, e: nat, s: State, t: State, w: Value)
    requires v < |pl.blocks| && v < |L.code| == |L.phis| && Foreign(w, v) && DistinctPhis(L.phis[v])
    ensures Eval(NaiveEnter(pl, v, e, s).env, w) == Eval(s.env, w)
    ensures Eval(LiftedEnter(L, v, e, t).env, w) == Eval(t.env, w)
  {
    PhiValuesAt(s.env, v, Whole(pl.blocks[v]), e, |pl.blocks[v]|);
    PhiValuesAt(t.env, v, L.code[v], e, |L.code[v]|);
    NewPhiValuesAt(t.env, v, L.phis[v], e);
  }

  /** Entering a block gives each of its phis the value of the edge taken. */
  lemma EnterValues(pl: Plan, L: Lifted, v: nat, e: nat, s: State, t: State)
    requires v < |pl.blocks| && v < |L.code| == |L.phis| && DistinctPhis(L.phis[v])
    ensures forall j: nat :: pl.At(v, j) && pl.blocks[v][j].Phi? && e < |pl.blocks[v][j].edges| ==>
              Eval(NaiveEnter(pl, v, e, s).env, Reg(v, j)) == Eval(s.env, pl.blocks[v][j].edges[e])
    ensures forall j: nat :: j < |L.code[v]| && L.code[v][j].Some? && L.code[v][j].value.Phi? && e < |L.code[v][j].value.edges| ==>
              Eval(LiftedEnter(L, v, e, t).env, Reg(v, j)) == Eval(t.env, L.code[v][j].value.edges[e])
    ensures forall m :: 0 <= m < |L.phis[v]| && e < |L.phis[v][m].edges| && L.phis[v][m].edges[e].Some? ==>
              Eval(LiftedEnter(L, v, e, t).env, PhiOf(v, L.phis[v][m].k)) == Eval(t.env, L.phis[v][m].edges[e].value)
  {
    PhiValuesAt(s.env, v, Whole(pl.blocks[v]), e, |pl.blocks[v]|);
    PhiValuesAt(t.env, v, L.code[v], e, |L.code[v]|);
    NewPhiValuesAt(t.env, v, L.phis[v], e);
    forall j: nat | pl.At(v, j) && pl.blocks[v][j].Phi? && e < |pl.blocks[v][j].edges|
      ensures Eval(NaiveEnter(pl, v, e, s).env, Reg(v, j)) == Eval(s.env, pl.blocks[v][j].edges[e])
    {
      assert Whole(pl.blocks[v])[j] == Some(pl.blocks[v][j]);
    }
  }

  /** Whatever is ready in a block that strictly dominates v is foreign to v. */
  lemma ReadyIsForeign(pl: Plan, w: Value, b: nat, j: nat, v: nat)
    requires pl.Shaped() && v < |pl.idom| && v != pl.recover
    requires Ready(pl, w, b, j) && StrictlyDominates(pl.g.EdgeSet(), 0, b, v)
    ensures Foreign(w, v)
  {
    assert Reaches(pl.g.EdgeSet(), 0, v);
    DominatesSelf(pl.g.EdgeSet(), 0, b);
    if !Foreign(w, v) {
      DominatesAntisymmetric(pl.g.EdgeSet(), 0, b, v);
    }
  }

  /** On entry to v from u, a register available in v agrees because it was available in u. */
  lemma EnterRegister(pl: Plan, L: Lifted, s: State, t: State, u: nat, v: nat, e: nat, b: nat, j: nat)
    requires pl.Valid() && IsLifted(pl, L) && v < |pl.idom| && v != pl.recover && u in pl.g.preds[v] && u < |pl.idom|
    requires Simulates(pl, s, t, u, |pl.blocks[u]|) && Live(pl, b, j, v, 0)
    ensures Agrees(pl, NaiveEnter(pl, v, e, s), LiftedEnter(L, v, e, t), b, j)
  {
    NotRecover(pl.g, pl.recover, pl.idom, pl.children, u, v);
    assert BlockLifted(pl, L, v);
    StrictDominatorOfEdge(pl.g.EdgeSet(), 0, b, u, v);
    assert Live(pl, b, j, u, |pl.blocks[u]|);
    assert Agrees(pl, s, t, b, j);
    EnterFrame(pl, L, v, e, s, t, Reg(b, j));
    StrictRank(pl, b, v);
    if pl.LiftedLoad(b, j) {
      RenReady(pl, b, j, pl.Cell(pl.blocks[b][j].addr));
      ReadyIsForeign(pl, pl.Sub(Reg(b, j)), b, j, v);
      EnterFrame(pl, L, v, e, s, t, pl.Sub(Reg(b, j)));
    }
  }

  lemma EnterPhi(pl: Plan, L: Lifted, s: State, t: State, u: nat, v: nat, e: nat, j: nat)
    requires pl.Valid() && IsLifted(pl, L) && v < |pl.idom| && v != pl.recover && u < |pl.idom|
    requires e < |pl.g.preds[v]| && pl.g.preds[v][e] == u
    requires Simulates(pl, s, t, u, |pl.blocks[u]|) && pl.At(v, j) && pl.blocks[v][j].Phi?
    ensures Eval(NaiveEnter(pl, v, e, s).env, Reg(v, j)) == Eval(LiftedEnter(L, v, e, t).env, Reg(v, j))
  {
    assert pl.UsesOk(v, j) && BlockLifted(pl, L, v);
    EnterValues(pl, L, v, e, s, t);
    UsableAgrees(pl, s, t, u, |pl.blocks[u]|, pl.blocks[v][j].edges[e]);
    assert L.code[v][j] == Some(pl.SubInstr(pl.blocks[v][j]));
  }

  lemma EnterCell(pl: Plan, L: Lifted, s: State, t: State, u: nat, v: nat, e: nat, k: nat)
    requires pl.Valid() && IsLifted(pl, L) && v < |pl.idom| && v != pl.recover && u < |pl.idom|
    requires e < |pl.g.preds[v]| && pl.g.preds[v][e] == u
    requires Simulates(pl, s, t, u, |pl.blocks[u]|) && k < |pl.zeros|
    ensures Eval(LiftedEnter(L, v, e, t).env, pl.Ren(v, 0)[k]) == s.mem[k]
  {
    assert BlockLifted(pl, L, v);
    assert u in pl.g.preds[v];
    NotRecover(pl.g, pl.recover, pl.idom, pl.children, u, v);
    if k in pl.phiAt[v] {
      EnterValues(pl, L, v, e, s, t);
      var m :| 0 <= m < |L.phis[v]| && L.phis[v][m].k == k;
      assert EdgesLifted(pl, L.phis[v][m], v);
    } else {
      var d := pl.idom[v];
      assert IsIdom(pl.g.EdgeSet(), 0, d, v);
      StrictDominatorOfEdge(pl.g.EdgeSet(), 0, d, u, v);
      DominatesSelf(pl.g.EdgeSet(), 0, u);
      NoPhiSame(pl, v, u, k, u);
      StrictRank(pl, d, v);
      RenReady(pl, d, |pl.blocks[d]|, k);
      ReadyIsForeign(pl, pl.RenOut(d)[k], d, |pl.blocks[d]|, v);
      EnterFrame(pl, L, v, e, s, t, pl.RenOut(d)[k]);
    }
  }

  lemma SimEnter(pl: Plan, L: Lifted, s: State, t: State, u: nat, v: nat, e: nat)
    requires pl.Valid() && IsLifted(pl, L) && v < |pl.idom| && v != pl.recover && u < |pl.idom|
    requires e < |pl.g.preds[v]| && pl.g.preds[v][e] == u
    requires Simulates(pl, s, t, u, |pl.blocks[u]|)
    ensures Simulates(pl, NaiveEnter(pl, v, e, s), LiftedEnter(L, v, e, t), v, 0)
  {
    var s', t' := NaiveEnter(pl, v, e, s), LiftedEnter(L, v, e, t);
    forall k | 0 <= k < |s'.mem| ensures s'.mem[k] == Eval(t'.env, pl.Ren(v, 0)[k]) {
      EnterCell(pl, L, s, t, u, v, e, k);
    }
    forall b, j | Live(pl, b, j, v, 0) ensures Agrees(pl, s', t', b, j) {
      assert u in pl.g.preds[v];
      EnterRegister(pl, L, s, t, u, v, e, b, j);
    }
    forall j: nat | pl.At(v, j) && pl.blocks[v][j].Phi? ensures Eval(s'.env, Reg(v, j)) == Eval(t'.env, Reg(v, j)) {
      EnterPhi(pl, L, s, t, u, v, e, j);
    }
    assert BlockLifted(pl, L, v);
    forall a: nat ensures Eval(s'.env, Param(a)) == Eval(t'.env, Param(a)) {
      EnterFrame(pl, L, v, e, s, t, Param(a));
    }
  }

  // ----- whole runs -----

  /** Both runs start alike, with every cell zero. */
  ghost predicate Initial(pl: Plan, s0: State) {
    s0.mem == pl.zeros && s0.hist == []
  }

  lemma SimInitial(pl: Plan, s0: State)
    requires pl.Valid() && Initial(pl, s0)
    ensures Simulates(pl, s0, s0, 0, 0)
  {
    forall b: nat, j: nat ensures !Live(pl, b, j, 0, 0) {
      EntryHasNoStrictDominator(pl.g, b);
    }
  }

  lemma {:induction false} SimRun(pl: Plan, L: Lifted, orc: Oracle, s0: State, p: seq<nat>)
    requires pl.Valid() && IsLifted(pl, L) && Initial(pl, s0) && Runs(pl.g, p) && p[0] == 0
    ensures p[|p| - 1] != pl.recover
    ensures Simulates(pl, NaiveRun(pl, orc, s0, p), LiftedRun(pl.g, L, orc, s0, p), p[|p| - 1], |pl.blocks[p[|p| - 1]]|)
    decreases |p|
  {
    var v := p[|p| - 1];
    assert BlockLifted(pl, L, 0);
    if |p| == 1 {
      SimInitial(pl, s0);
      SimBlock(pl, L, orc, s0, s0, v, |pl.blocks[v]|);
    } else {
      var q, u := p[..|p| - 1], p[|p| - 2];
      RunsPrefix(pl.g, p);
      SimRun(pl, L, orc, s0, q);
      SimNext(pl, L, orc, NaiveRun(pl, orc, s0, q), LiftedRun(pl.g, L, orc, s0, q), u, v);
    }
  }

  /** One more block of a walk. */
  lemma SimNext(pl: Plan, L: Lifted, orc: Oracle, s: State, t: State, u: nat, v: nat)
    requires pl.Valid() && IsLifted(pl, L) && u < |pl.idom| && v in pl.g.succs[u] && Simulates(pl, s, t, u, |pl.blocks[u]|)
    ensures v < |pl.idom| && v != pl.recover && u in pl.g.preds[v] && |L.code| == |L.phis| == |pl.blocks| && |L.code[v]| == |pl.blocks[v]|
    ensures var e := PredIndex(pl.g.preds[v], u);
      Simulates(pl, NaiveBlock(pl, orc, v, |pl.blocks[v]|, NaiveEnter(pl, v, e, s)), LiftedBlock(L, orc, v, |pl.blocks[v]|, LiftedEnter(L, v, e, t)), v, |pl.blocks[v]|)
  {
    NotRecover(pl.g, pl.recover, pl.idom, pl.children, u, v);
    var e := PredIndex(pl.g.preds[v], u);
    assert BlockLifted(pl, L, v);
    SimEnter(pl, L, s, t, u, v, e);
    SimBlock(pl, L, orc, NaiveEnter(pl, v, e, s), LiftedEnter(L, v, e, t), v, |pl.blocks[v]|);
  }

  /** Lifting preserves meaning: on every walk from the entry, whatever the environment answers,
      the two functions execute the same instructions on the same operand values. */
  lemma LiftingPreservesMeaning(pl: Plan, L: Lifted, orc: Oracle, s0: State, p: seq<nat>)
    requires pl.Valid() && IsLifted(pl, L) && Initial(pl, s0) && Runs(pl.g, p) && p[0] == 0
    ensures NaiveRun(pl, orc, s0, p).hist == LiftedRun(pl.g, L, orc, s0, p).hist
  {
    SimRun(pl, L, orc, s0, p);
  }
}
