/** The lift pass as a whole: liftAlloc chooses the cells and places their phis, then come
    renaming and the removal of dead phis. */
module LiftFunction {
  import opened Paths
  import opened Flowgraphs
  import opened DomFrontiers
  import opened Lifting
  import opened LiftingProof
  import opened Referrers
  import opened Renaming
  import opened DeadPhis

  /** The function before lifting: a plan without cells. */
  ghost predicate IsInput(f: Plan) {
    f.Valid() && f.index == map[] && f.zeros == [] && forall v :: 0 <= v < |f.phiAt| ==> f.phiAt[v] == {}
  }

  /** The instruction uses the register r, if at all, as the address of a load or a store. */
  predicate OnlyAddress(ins: Instr, r: Value) {
    match ins
    case Alloc(_) => true
    case Load(_) => true
    case Store(_, v) => v != r
    case Phi(edges) => r !in edges
    case Op(args) => r !in args
  }

  ghost predicate OnlyAddresses(blocks: seq<seq<Instr>>, r: Value) {
    forall u, i :: 0 <= u < |blocks| && 0 <= i < |blocks[u]| ==> OnlyAddress(blocks[u][i], r)
  }

  /** An instruction that has r as an operand loads from it, or stores another value to it. */
  lemma AddressesMean(blocks: seq<seq<Instr>>, r: Value)
    ensures OnlyAddresses(blocks, r) <==>
              forall u, i :: 0 <= u < |blocks| && 0 <= i < |blocks[u]| && r in Rands(blocks[u][i]) ==>
                blocks[u][i] == Load(r) || (blocks[u][i].Store? && blocks[u][i].addr == r && blocks[u][i].val != r)
  {
    forall u, i | 0 <= u < |blocks| && 0 <= i < |blocks[u]|
      ensures OnlyAddress(blocks[u][i], r) <==>
                (r in Rands(blocks[u][i]) ==>
                   blocks[u][i] == Load(r) || (blocks[u][i].Store? && blocks[u][i].addr == r && blocks[u][i].val != r))
    {
    }
  }

  predicate StoresTo(ins: Instr, r: Value) {
    ins.Store? && ins.addr == r
  }

  ghost predicate HasStore(blocks: seq<seq<Instr>>, u: nat, r: Value) {
    u < |blocks| && exists i :: 0 <= i < |blocks[u]| && StoresTo(blocks[u][i], r)
  }

  /** The blocks that define the cell of the alloc at (b, j). */
  ghost predicate AreDefs(blocks: seq<seq<Instr>>, b: nat, j: nat, defs: set<nat>) {
    forall u: nat :: u in defs <==> u == b || HasStore(blocks, u, Reg(b, j))
  }

  /** The first half of liftAlloc: may the alloc at (b, j) be lifted, and which blocks define it? Only
      its listed referrers are looked at. */
  method DefBlocks(blocks: seq<seq<Instr>>, refs: Refs, b: nat, j: nat) returns (ok: bool, defs: set<nat>)
    requires b < |blocks| && IsReferrers(blocks, refs)
    ensures ok <==> OnlyAddresses(blocks, Reg(b, j))
    ensures ok <==> forall u, i :: 0 <= u < |blocks| && 0 <= i < |blocks[u]| && Reg(b, j) in Rands(blocks[u][i]) ==>
              blocks[u][i] == Load(Reg(b, j)) || (blocks[u][i].Store? && blocks[u][i].addr == Reg(b, j) && blocks[u][i].val != Reg(b, j))
    ensures ok ==> AreDefs(blocks, b, j, defs) && forall u :: u in defs ==> u < |blocks|
  {
    var r := Reg(b, j);
    AddressesMean(blocks, r);
    var us := RefsOf(refs, r);
    defs := {};
    for n := 0 to |us|
      invariant forall k :: 0 <= k < n ==> FineUser(blocks, us[k], r)
      invariant forall u :: u in defs <==> exists k :: 0 <= k < n && StoreIn(blocks, us[k], u)
    {
      assert us[n] in us;
      var ins := blocks[us[n].b][us[n].j];
      if !(ins.Load? || (ins.Store? && ins.val != r)) {
        assert !OnlyAddress(blocks[us[n].b][us[n].j], r);
        return false, {};
      }
      if ins.Store? { defs := defs + {us[n].b}; }
    }
    ListedDecide(blocks, refs, us, r, defs);
    defs := defs + {b};
    ok := true;
  }

  /** w is a store in block u. */
  ghost predicate StoreIn(blocks: seq<seq<Instr>>, w: Value, u: nat) {
    w.Reg? && w.b == u && u < |blocks| && w.j < |blocks[u]| && blocks[u][w.j].Store?
  }

  /** u is a load or a store with the address r. */
  ghost predicate FineUser(blocks: seq<seq<Instr>>, u: Value, r: Value) {
    && u.Reg? && u.b < |blocks| && u.j < |blocks[u.b]|
    && var ins := blocks[u.b][u.j]; (ins.Load? || (ins.Store? && ins.val != r)) && ins.addr == r
  }

  /** If all listed referrers of r are fine, so are all instructions, and the stores are among them. */
  lemma ListedDecide(blocks: seq<seq<Instr>>, refs: Refs, us: seq<Value>, r: Value, defs: set<nat>)
    requires r.Reg? && IsReferrers(blocks, refs) && us == RefsOf(refs, r) && forall k :: 0 <= k < |us| ==> FineUser(blocks, us[k], r)
    requires forall u :: u in defs <==> exists k :: 0 <= k < |us| && StoreIn(blocks, us[k], u)
    ensures OnlyAddresses(blocks, r) && (forall u: nat :: u in defs <==> HasStore(blocks, u, r)) && forall u :: u in defs ==> u < |blocks|
  {
    forall u, i | 0 <= u < |blocks| && 0 <= i < |blocks[u]| ensures OnlyAddress(blocks[u][i], r) {
      assert Reg(u, i) in us <==> UsedInBlocks(blocks, Reg(u, i), r);
    }
    forall u: nat | HasStore(blocks, u, r) ensures u in defs {
      var i :| 0 <= i < |blocks[u]| && StoresTo(blocks[u][i], r);
      assert Reg(u, i) in us by { assert UsedInBlocks(blocks, Reg(u, i), r); }
    }
  }

  // ----- the cells chosen so far -----

  /** cells lists the positions of the lifted allocs; defs their defining blocks. */
  ghost predicate CellOk(f: Plan, cells: seq<(nat, nat)>, zeros: seq<int>, defs: seq<set<nat>>, k: nat)
    requires k < |cells| == |zeros| == |defs|
  {
    var p := cells[k];
    && f.At(p.0, p.1) && f.blocks[p.0][p.1] == Alloc(zeros[k])
    && OnlyAddresses(f.blocks, Reg(p.0, p.1)) && AreDefs(f.blocks, p.0, p.1, defs[k])
  }

  /** The new phis of block v: one for each cell with v in its iterated frontier. */
  ghost predicate PhisFor(f: Plan, E: Edges, defs: seq<set<nat>>, phis: seq<NewPhi>, v: nat) {
    && v < |f.g.preds| && DistinctPhis(phis)
    && (forall m :: 0 <= m < |phis| ==> phis[m].k < |defs| && phis[m].edges == seq(|f.g.preds[v]|, _ => None))
    && (forall k: nat :: k < |defs| ==> (InIterated(E, defs[k], v) <==> exists m :: 0 <= m < |phis| && phis[m].k == k))
  }

  lemma PhisForNext(f: Plan, E: Edges, defs: seq<set<nat>>, phis: seq<NewPhi>, v: nat, d: set<nat>)
    requires PhisFor(f, E, defs, phis, v)
    ensures PhisFor(f, E, defs + [d],
                    phis + (if InIterated(E, d, v) then [NewPhi(|defs|, seq(|f.g.preds[v]|, _ => None))] else []), v)
  {
    var nils := seq(|f.g.preds[v]|, _ => None);
    var phis' := phis + (if InIterated(E, d, v) then [NewPhi(|defs|, nils)] else []);
    forall k: nat | k < |defs| + 1
      ensures InIterated(E, (defs + [d])[k], v) <==> exists m :: 0 <= m < |phis'| && phis'[m].k == k
    {
      if k < |defs| {
        assert (defs + [d])[k] == defs[k];
        if m :| 0 <= m < |phis| && phis[m].k == k { assert phis'[m].k == k; }
      } else if InIterated(E, d, v) {
        assert phis'[|phis|].k == k;
      }
    }
  }

  /** All that the choice of cells has to keep. */
  ghost predicate Chosen(f: Plan, E: Edges, cells: seq<(nat, nat)>, zeros: seq<int>, defs: seq<set<nat>>, newPhis: seq<seq<NewPhi>>) {
    && |cells| == |zeros| == |defs| && |newPhis| == |f.blocks| == |f.g.preds|
    && (forall k :: 0 <= k < |cells| ==> CellOk(f, cells, zeros, defs, k))
    && (forall v :: 0 <= v < |newPhis| ==> PhisFor(f, E, defs, newPhis[v], v))
  }

  /** liftAlloc for the alloc at (b, j), as cell number k = |cells|. */
  method LiftAlloc(f: Plan, refs: Refs, df: seq<seq<nat>>, eligible: set<(nat, nat)>, b: nat, j: nat, ghost E: Edges, ghost cells: seq<(nat, nat)>,
                   zeros: seq<int>, ghost defs0: seq<set<nat>>, newPhis0: seq<seq<NewPhi>>)
    returns (lifted: bool, newPhis: seq<seq<NewPhi>>, ghost defs: seq<set<nat>>)
    requires f.At(b, j) && f.blocks[b][j].Alloc? && |df| == |f.blocks| && IsReferrers(f.blocks, refs)
    requires FrontiersAre(df, E) && forall u, v :: (u, v) in E ==> u < |df| && v < |df|
    requires Chosen(f, E, cells, zeros, defs0, newPhis0)
    ensures lifted <==> (b, j) in eligible && OnlyAddresses(f.blocks, Reg(b, j))
    ensures if lifted then Chosen(f, E, cells + [(b, j)], zeros + [f.blocks[b][j].zero], defs, newPhis)
            else newPhis == newPhis0 && defs == defs0
  {
    newPhis, defs := newPhis0, defs0;
    if (b, j) !in eligible { return false, newPhis, defs; }
    var d;
    lifted, d := DefBlocks(f.blocks, refs, b, j);
    if !lifted { return; }
    var k, preds := |zeros|, f.g.preds;
    newPhis := PlacePhis(df, d, E, newPhis0,
                         (v: nat) => NewPhi(k, if v < |preds| then seq(|preds[v]|, _ => None) else []));
    defs := defs0 + [d];
    forall v | 0 <= v < |newPhis| ensures PhisFor(f, E, defs, newPhis[v], v) {
      assert PhisFor(f, E, defs0, newPhis0[v], v);
      PhisForNext(f, E, defs0, newPhis0[v], v, d);
    }
    forall x | 0 <= x < |cells| + 1 ensures CellOk(f, cells + [(b, j)], zeros + [f.blocks[b][j].zero], defs, x) {
      assert x < |cells| ==> CellOk(f, cells, zeros, defs0, x);
    }
  }

  /** index numbers exactly the cells. */
  ghost predicate Indexes(index: map<(nat, nat), nat>, cells: seq<(nat, nat)>) {
    && (forall p :: p in index ==> index[p] < |cells| && cells[index[p]] == p)
    && (forall k :: 0 <= k < |cells| ==> cells[k] in index && index[cells[k]] == k)
  }

  /** The cells in block order come before position (b, j). */
  ghost predicate Ordered(cells: seq<(nat, nat)>, b: nat, j: nat) {
    forall k :: 0 <= k < |cells| ==> cells[k].0 < b || (cells[k].0 == b && cells[k].1 < j)
  }

  /** Which allocs become cells: the eligible ones that are only loaded and stored. */
  ghost predicate Complete(f: Plan, eligible: set<(nat, nat)>, index: map<(nat, nat), nat>, b: nat, j: nat) {
    forall u: nat, i: nat :: f.At(u, i) && (u < b || (u == b && i < j)) ==>
      ((u, i) in index <==> f.blocks[u][i].Alloc? && (u, i) in eligible && OnlyAddresses(f.blocks, Reg(u, i)))
  }

  /** The loop of lift over the allocs, block by block. */
  class Chooser {
    const f: Plan
    const refs: Refs
    const df: seq<seq<nat>>
    const eligible: set<(nat, nat)>
    var index: map<(nat, nat), nat>
    var zeros: seq<int>
    var newPhis: seq<seq<NewPhi>>
    ghost const E: Edges
    ghost var cells: seq<(nat, nat)>
    ghost var defs: seq<set<nat>>

    constructor (f: Plan, refs: Refs, df: seq<seq<nat>>, eligible: set<(nat, nat)>, ghost E: Edges)
      requires IsInput(f)
      ensures this.f == f && this.refs == refs && this.df == df && this.E == E && this.eligible == eligible && index == map[] && cells == []
      ensures Chosen(f, E, cells, zeros, defs, newPhis)
    {
      this.f, this.refs, this.df, this.eligible, this.E := f, refs, df, eligible, E;
      index, zeros, newPhis := map[], [], seq(|f.blocks|, _ => []);
      cells, defs := [], [];
    }

    ghost predicate Valid(b: nat, j: nat)
      reads this
    {
      && IsReferrers(f.blocks, refs) && |df| == |f.blocks| && FrontiersAre(df, E) && (forall u, v :: (u, v) in E ==> u < |df| && v < |df|)
      && Chosen(f, E, cells, zeros, defs, newPhis) && Indexes(index, cells)
      && Ordered(cells, b, j) && Complete(f, eligible, index, b, j)
    }

    method Visit(b: nat, j: nat)
      requires Valid(b, j) && f.At(b, j)
      modifies this
      ensures Valid(b, j + 1)
    {
      if f.blocks[b][j].Alloc? {
        var lifted, phis;
        ghost var d;
        lifted, phis, d := LiftAlloc(f, refs, df, eligible, b, j, E, cells, zeros, defs, newPhis);
        if lifted {
          index := index[(b, j) := |zeros|];
          zeros := zeros + [f.blocks[b][j].zero];
          newPhis := phis;
          cells := cells + [(b, j)];
          defs := d;
        }
      }
    }

    method Choose()
      requires Valid(0, 0)
      modifies this
      ensures Valid(|f.blocks|, 0)
    {
      var b := 0;
      while b < |f.blocks|
        invariant 0 <= b <= |f.blocks| && Valid(b, 0)
      {
        var j := 0;
        while j < |f.blocks[b]|
          invariant 0 <= j <= |f.blocks[b]| && Valid(b, j)
        {
          Visit(b, j);
          j := j + 1;
        }
        b := b + 1;
      }
    }
  }

  // ----- the plan -----

  function PhiSet(phis: seq<NewPhi>): (s: set<nat>)
    ensures forall k :: k in s <==> exists m :: 0 <= m < |phis| && phis[m].k == k
  {
    set m | 0 <= m < |phis| :: phis[m].k
  }

  /** The plan that the chosen cells make. */
  function MakePlan(f: Plan, index: map<(nat, nat), nat>, zeros: seq<int>, newPhis: seq<seq<NewPhi>>): (pl: Plan) {
    Plan(f.g, f.recover, f.idom, f.children, f.blocks, index, zeros,
         seq(|newPhis|, v requires 0 <= v < |newPhis| => PhiSet(newPhis[v])))
  }

  /** A use that is legal before lifting is legal for the plan: cells are used as addresses only. */
  lemma UsesStayOk(f: Plan, pl: Plan, cells: seq<(nat, nat)>, u: nat, i: nat)
    requires IsInput(f) && pl.Shaped() && pl.g == f.g && pl.recover == f.recover && pl.blocks == f.blocks
    requires Indexes(pl.index, cells) && |cells| == |pl.zeros|
    requires forall k :: 0 <= k < |cells| ==>
               f.At(cells[k].0, cells[k].1) && f.blocks[cells[k].0][cells[k].1] == Alloc(pl.zeros[k]) && OnlyAddresses(f.blocks, Reg(cells[k].0, cells[k].1))
    requires f.At(u, i) && u != f.recover
    ensures pl.UsesOk(u, i)
  {
    assert f.UsesOk(u, i);
    var ins := f.blocks[u][i];
    forall p | p in pl.index ensures OnlyAddress(ins, Reg(p.0, p.1)) {
      assert OnlyAddresses(f.blocks, Reg(cells[pl.index[p]].0, cells[pl.index[p]].1));
    }
    forall v: Value | v.Reg? && (v.b, v.j) in pl.index ensures OnlyAddress(ins, v) {
      assert OnlyAddress(ins, Reg((v.b, v.j).0, (v.b, v.j).1));
    }
    match ins
    case Alloc(_) =>
    case Load(_) =>
    case Store(_, _) =>
    case Phi(edges) =>
      forall e | 0 <= e < |edges| ensures pl.Usable(edges[e], f.g.preds[u][e], |f.blocks[f.g.preds[u][e]]|) {
        assert edges[e] in edges;
      }
    case Op(args) =>
      forall a | 0 <= a < |args| ensures pl.Usable(args[a], u, i) {
        assert args[a] in args;
      }
  }

  /** The phis placed for cell k are closed under frontiers. */
  lemma PlacedClosed(f: Plan, pl: Plan, cells: seq<(nat, nat)>, defs: seq<set<nat>>, newPhis: seq<seq<NewPhi>>, k: nat)
    requires f.Shaped() && pl.g == f.g && pl.blocks == f.blocks
    requires Chosen(f, FrontierEdges(f.g), cells, pl.zeros, defs, newPhis) && Indexes(pl.index, cells) && k < |cells|
    requires |pl.phiAt| == |newPhis| == |f.g.succs| && forall v :: 0 <= v < |newPhis| ==> pl.phiAt[v] == PhiSet(newPhis[v])
    ensures pl.PhisClosed(k)
  {
    var E := FrontierEdges(f.g);
    forall u, v | 0 <= u < |pl.phiAt| && 0 <= v < |pl.phiAt| && (k in pl.phiAt[u] || (exists i :: pl.Defines(u, i, k))) && InFrontier(f.g, u, v)
      ensures k in pl.phiAt[v]
    {
      assert PhisFor(f, E, defs, newPhis[u], u) && PhisFor(f, E, defs, newPhis[v], v);
      if k !in pl.phiAt[u] {
        var i :| pl.Defines(u, i, k);
        assert CellOk(f, cells, pl.zeros, defs, k);
        DefinerIsDef(f, pl, cells, pl.zeros, defs, u, i, k);
      }
      assert (u, v) in E;
      IteratedIsClosed(E, defs[k], u, v);
    }
  }

  lemma DefinerIsDef(f: Plan, pl: Plan, cells: seq<(nat, nat)>, zeros: seq<int>, defs: seq<set<nat>>, u: nat, i: nat, k: nat)
    requires pl.blocks == f.blocks && Indexes(pl.index, cells) && k < |cells| == |zeros| == |defs| && CellOk(f, cells, zeros, defs, k)
    requires pl.Defines(u, i, k)
    ensures u in defs[k]
  {
    if pl.LiftedStore(u, i) && pl.Cell(pl.blocks[u][i].addr) == k {
      assert StoresTo(f.blocks[u][i], Reg(cells[k].0, cells[k].1));
    }
  }

  lemma PlanValid(f: Plan, pl: Plan, cells: seq<(nat, nat)>, defs: seq<set<nat>>, newPhis: seq<seq<NewPhi>>)
    requires IsInput(f) && Chosen(f, FrontierEdges(f.g), cells, pl.zeros, defs, newPhis) && Indexes(pl.index, cells)
    requires pl == MakePlan(f, pl.index, pl.zeros, newPhis)
    ensures pl.Valid()
  {
    assert pl.Shaped() by {
      forall b, k | 0 <= b < |pl.phiAt| && k in pl.phiAt[b] ensures k < |pl.zeros| {
        assert PhisFor(f, FrontierEdges(f.g), defs, newPhis[b], b);
      }
    }
    forall k | 0 <= k < |pl.zeros| ensures pl.PhisClosed(k) {
      PlacedClosed(f, pl, cells, defs, newPhis, k);
    }
    forall k | 0 <= k < |cells|
      ensures f.At(cells[k].0, cells[k].1) && f.blocks[cells[k].0][cells[k].1] == Alloc(pl.zeros[k]) && OnlyAddresses(f.blocks, Reg(cells[k].0, cells[k].1))
    {
      assert CellOk(f, cells, pl.zeros, defs, k);
    }
    forall u, i | 0 <= u < |pl.blocks| && 0 <= i < |pl.blocks[u]| && u != pl.recover ensures pl.UsesOk(u, i) {
      UsesStayOk(f, pl, cells, u, i);
    }
    forall p | p in pl.index ensures pl.LiftedAlloc(p.0, p.1) {
      assert cells[pl.index[p]] == p;
    }
    NoPhiAtEntry(f, defs, newPhis);
    forall u | 0 <= u < |pl.blocks| ensures pl.PhisFirst(u) {
      assert f.PhisFirst(u);
    }
  }

  /** The entry has no predecessors, so it gets no phi. */
  lemma NoPhiAtEntry(f: Plan, defs: seq<set<nat>>, newPhis: seq<seq<NewPhi>>)
    requires IsInput(f) && |newPhis| == |f.blocks| && PhisFor(f, FrontierEdges(f.g), defs, newPhis[0], 0)
    ensures PhiSet(newPhis[0]) == {}
  {
    forall k: nat ensures k !in PhiSet(newPhis[0]) {
      if k < |defs| { EntryInNoFrontier(f.g, defs[k]); }
    }
  }

  lemma EntryInNoFrontier(g: Flowgraph, defs: set<nat>)
    requires g.Valid() && g.preds[0] == []
    ensures !InIterated(FrontierEdges(g), defs, 0)
  {
    assert forall w: nat :: !InFrontier(g, w, 0);
  }

  lemma PhisAreListed(f: Plan, pl: Plan, defs: seq<set<nat>>, newPhis: seq<seq<NewPhi>>)
    requires |newPhis| == |f.g.preds| == |pl.phiAt| && |defs| == |pl.zeros|
    requires forall v :: 0 <= v < |newPhis| ==> PhisFor(f, FrontierEdges(f.g), defs, newPhis[v], v) && pl.phiAt[v] == PhiSet(newPhis[v])
    ensures forall v :: 0 <= v < |newPhis| ==> PhisListed(pl, newPhis[v], v)
    ensures forall v, m :: 0 <= v < |newPhis| && 0 <= m < |newPhis[v]| ==>
              newPhis[v][m].k < |pl.zeros| && newPhis[v][m].edges == seq(|f.g.preds[v]|, _ => None)
  {
    forall v | 0 <= v < |newPhis| ensures PhisListed(pl, newPhis[v], v) {
      assert PhisFor(f, FrontierEdges(f.g), defs, newPhis[v], v);
    }
    forall v, m | 0 <= v < |newPhis| && 0 <= m < |newPhis[v]|
      ensures newPhis[v][m].k < |pl.zeros| && newPhis[v][m].edges == seq(|f.g.preds[v]|, _ => None)
    {
      assert PhisFor(f, FrontierEdges(f.g), defs, newPhis[v], v);
    }
  }

  lemma CellsAt(f: Plan, cells: seq<(nat, nat)>, zeros: seq<int>, defs: seq<set<nat>>)
    requires |cells| == |zeros| == |defs| && forall k :: 0 <= k < |cells| ==> CellOk(f, cells, zeros, defs, k)
    ensures forall k :: 0 <= k < |cells| ==> f.At(cells[k].0, cells[k].1)
  {
    forall k | 0 <= k < |cells| ensures f.At(cells[k].0, cells[k].1) {
      assert CellOk(f, cells, zeros, defs, k);
    }
  }

  lemma IndexExact(f: Plan, eligible: set<(nat, nat)>, index: map<(nat, nat), nat>, cells: seq<(nat, nat)>)
    requires Indexes(index, cells) && Ordered(cells, |f.blocks|, 0) && Complete(f, eligible, index, |f.blocks|, 0)
    requires forall k :: 0 <= k < |cells| ==> f.At(cells[k].0, cells[k].1)
    ensures forall u: nat, i: nat :: (u, i) in index <==>
              f.At(u, i) && f.blocks[u][i].Alloc? && (u, i) in eligible && OnlyAddresses(f.blocks, Reg(u, i))
  {
    forall u: nat, i: nat | (u, i) in index ensures f.At(u, i) {
      assert cells[index[(u, i)]] == (u, i);
    }
  }

  lemma LiftedIsWellFormed(pl: Plan, L: Lifted)
    requires pl.Valid() && PhisKept(pl, L)
    ensures WellFormed(L) && forall b :: 0 <= b < |L.code| ==> PhisLead(L, b)
  {
    forall b | 0 <= b < |L.code| ensures PhisLead(L, b) {
      assert pl.PhisFirst(b);
      forall i: nat, j: nat | i < j && IsOld(L, Reg(b, j)) ensures IsOld(L, Reg(b, i)) {
        assert PhiKept(pl, L, b, i) && PhiKept(pl, L, b, j);
      }
    }
  }

  /** The result of lift: the renamed function without its dead phis. */
  ghost predicate IsLiftResult(pl: Plan, L': Lifted) {
    pl.Valid() && exists L, live :: IsLifted(pl, L) && IsPruned(L, L', live) && IsNeededSet(L, live)
  }

  /** Outside recover, which renaming does not visit, the alloc at (u, i) is gone, and so is every
      instruction and every phi operand that names it. */
  ghost predicate NoAccess(pl: Plan, L: Lifted, u: nat, i: nat) {
    && |L.code| == |L.phis| == |pl.blocks|
    && (u != pl.recover ==> u < |L.code| && i < |L.code[u]| && L.code[u][i].None?)
    && (forall v, k :: 0 <= v < |L.code| && v != pl.recover && 0 <= k < |L.code[v]| && L.code[v][k].Some? ==> Reg(u, i) !in Rands(L.code[v][k].value))
    && (forall v, np :: 0 <= v < |L.phis| && v != pl.recover && np in L.phis[v] ==> Some(Reg(u, i)) !in np.edges)
  }

  lemma NoAccessLeft(pl: Plan, L: Lifted, L': Lifted, live: set<Value>, u: nat, i: nat)
    requires pl.Valid() && IsLifted(pl, L) && IsPruned(L, L', live) && (u, i) in pl.index
    ensures NoAccess(pl, L', u, i)
  {
    assert pl.LiftedAlloc(u, i);
    if u != pl.recover { assert BlockLifted(pl, L, u); }
    forall v, k | 0 <= v < |L.code| && v != pl.recover && 0 <= k < |L.code[v]| && L.code[v][k].Some?
      ensures Reg(u, i) !in Rands(L.code[v][k].value)
    {
      assert BlockLifted(pl, L, v);
      NoCellLeft(pl, v, k, Reg(u, i));
    }
    forall v, np | 0 <= v < |L.phis| && v != pl.recover && np in L'.phis[v] ensures Some(Reg(u, i)) !in np.edges {
      assert BlockLifted(pl, L, v);
      KeptHas(live, v, L.phis[v]);
      var m :| 0 <= m < |L.phis[v]| && L.phis[v][m] == np;
      assert EdgesLifted(pl, np, v);
      forall e | 0 <= e < |np.edges| ensures np.edges[e] != Some(Reg(u, i)) {
        var p := pl.g.preds[v][e];
        assert p in pl.g.preds[v];
        NotRecover(pl.g, pl.recover, pl.idom, pl.children, p, v);
        RenIsNoCell(pl, p, np.k);
      }
    }
  }

  /** An instruction that survives names no cell. */
  lemma NoCellLeft(pl: Plan, v: nat, k: nat, r: Value)
    requires pl.Valid() && pl.At(v, k) && v != pl.recover && !pl.Deleted(v, k) && pl.IsCell(r)
    ensures r !in Rands(pl.SubInstr(pl.blocks[v][k]))
  {
    assert pl.UsesOk(v, k);
    match pl.blocks[v][k]
    case Alloc(_) =>
    case Load(a) => SubIsNoCell(pl, a, v, k);
    case Store(a, x) => SubIsNoCell(pl, a, v, k); SubIsNoCell(pl, x, v, k);
    case Phi(edges) =>
      forall e | 0 <= e < |edges| ensures pl.SubAll(edges)[e] != r {
        var p := pl.g.preds[v][e];
        assert p in pl.g.preds[v];
        NotRecover(pl.g, pl.recover, pl.idom, pl.children, p, v);
        SubIsNoCell(pl, edges[e], p, |pl.blocks[p]|);
      }
    case Op(args) =>
      forall a | 0 <= a < |args| ensures pl.SubAll(args)[a] != r {
        SubIsNoCell(pl, args[a], v, k);
      }
  }

  lemma SubIsNoCell(pl: Plan, x: Value, u: nat, i: nat)
    requires pl.Valid() && pl.Usable(x, u, i) && u < |pl.blocks| && u != pl.recover && i <= |pl.blocks[u]|
    ensures !pl.IsCell(pl.Sub(x))
  {
    if x.Reg? && pl.LiftedLoad(x.b, x.j) {
      if x.b != u { StrictRank(pl, x.b, u); }
      RenReady(pl, x.b, x.j, pl.Cell(pl.blocks[x.b][x.j].addr));
    }
  }

  /** lift: chooses the cells, places the phis, renames, and removes the dead phis. The referrer
      lists, exact before, are exact afterwards. */
  method Lift(f: Plan, eligible: set<(nat, nat)>, refs: Refs) returns (pl: Plan, L': Lifted, refs': Refs)
    requires IsInput(f) && IsReferrers(f.blocks, refs)
    ensures pl.g == f.g && pl.recover == f.recover && pl.blocks == f.blocks && IsLiftResult(pl, L')
    ensures forall u: nat, i: nat :: (u, i) in pl.index <==>
              f.At(u, i) && f.blocks[u][i].Alloc? && (u, i) in eligible && OnlyAddresses(f.blocks, Reg(u, i))
    ensures forall u: nat, i: nat :: f.At(u, i) && f.blocks[u][i].Alloc? && (u, i) in eligible
              && (forall v, k :: 0 <= v < |f.blocks| && 0 <= k < |f.blocks[v]| && Reg(u, i) in Rands(f.blocks[v][k]) ==>
                    f.blocks[v][k] == Load(Reg(u, i))
                    || (f.blocks[v][k].Store? && f.blocks[v][k].addr == Reg(u, i) && f.blocks[v][k].val != Reg(u, i)))
              ==> NoAccess(pl, L', u, i)
    ensures ListsOk(L', Cells(pl), refs')
  {
    var df := BuildDomFrontier(f.g, f.recover, f.idom, f.children);
    EdgesOfFrontiers(f.g, df);
    var c := new Chooser(f, refs, df, eligible, FrontierEdges(f.g));
    c.Choose();
    pl := MakePlan(f, c.index, c.zeros, c.newPhis);
    PlanValid(f, pl, c.cells, c.defs, c.newPhis);
    PhisAreListed(f, pl, c.defs, c.newPhis);
    CellsAt(f, c.cells, c.zeros, c.defs);
    IndexExact(f, eligible, c.index, c.cells);
    var L, refs1 := RenameFunction(pl, c.newPhis, refs);
    LiftedIsWellFormed(pl, L);
    ghost var live;
    L', refs', live := RemoveDeadPhis(L, refs1, Cells(pl));
    forall u: nat, i: nat | (u, i) in pl.index ensures NoAccess(pl, L', u, i) {
      NoAccessLeft(pl, L, L', live, u, i);
    }
    forall u: nat, i: nat ensures OnlyAddresses(f.blocks, Reg(u, i)) <==>
      forall v, k :: 0 <= v < |f.blocks| && 0 <= k < |f.blocks[v]| && Reg(u, i) in Rands(f.blocks[v][k]) ==>
        f.blocks[v][k] == Load(Reg(u, i))
        || (f.blocks[v][k].Store? && f.blocks[v][k].addr == Reg(u, i) && f.blocks[v][k].val != Reg(u, i))
    {
      AddressesMean(f.blocks, Reg(u, i));
    }
  }

  /** Lifting as a whole preserves meaning: along every walk from the entry, whatever the
      environment answers, the original function and the result of lift execute the same
      surviving instructions on the same operand values. */
  lemma LiftPreservesMeaning(pl: Plan, L': Lifted, orc: Oracle, s0: State, p: seq<nat>)
    requires IsLiftResult(pl, L') && Initial(pl, s0) && Runs(pl.g, p) && p[0] == 0
    ensures |L'.code| == |L'.phis| == |pl.g.preds|
    ensures NaiveRun(pl, orc, s0, p).hist == LiftedRun(pl.g, L', orc, s0, p).hist
  {
    var L, live :| IsLifted(pl, L) && IsPruned(L, L', live) && IsNeededSet(L, live);
    LiftingPreservesMeaning(pl, L, orc, s0, p);
    PruningPreservesMeaning(pl.g, L, L', live, orc, s0, p);
  }
}
