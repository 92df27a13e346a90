/** removeDeadPhis of lift.go: the new phis that are kept, and why dropping the others is sound. */
module DeadPhis {
  import opened Flowgraphs
  import opened Lifting
  import opened Referrers

  // ----- the graph of phis -----

  /** w names a new phi of L. */
  predicate IsNew(L: Lifted, w: Value) {
    w.PhiOf? && w.b < |L.phis| && exists m :: 0 <= m < |L.phis[w.b]| && L.phis[w.b][m].k == w.k
  }

  /** w names a phi that was there before. */
  predicate IsOld(L: Lifted, w: Value) {
    w.Reg? && w.b < |L.code| && w.j < |L.code[w.b]| && L.code[w.b][w.j].Some? && L.code[w.b][w.j].value.Phi?
  }

  predicate IsPhi(L: Lifted, w: Value) {
    IsNew(L, w) || IsOld(L, w)
  }

  /** The phi w has the operand x. */
  ghost predicate HasOperand(L: Lifted, w: Value, x: Value) {
    || (w.PhiOf? && w.b < |L.phis| && exists m :: 0 <= m < |L.phis[w.b]| && L.phis[w.b][m].k == w.k && Some(x) in L.phis[w.b][m].edges)
    || (IsOld(L, w) && x in L.code[w.b][w.j].value.edges)
  }

  /** The phi w refers to the phi x. */
  ghost predicate Refers(L: Lifted, w: Value, x: Value) {
    HasOperand(L, w, x) && IsPhi(L, x)
  }

  /** Some instruction other than a phi has the operand w. */
  ghost predicate DirectlyUsed(L: Lifted, w: Value) {
    exists b, i :: UsedBy(L, w, b, i)
  }

  predicate UsedBy(L: Lifted, w: Value, b: nat, i: nat) {
    b < |L.code| && i < |L.code[b]| && L.code[b][i].Some? && w in Operands(L.code[b][i].value)
  }

  /** The roots of the liveness traversal. */
  ghost predicate IsRoot(L: Lifted, w: Value) {
    IsPhi(L, w) && (DirectlyUsed(L, w) || IsOld(L, w))
  }

  ghost predicate Chain(L: Lifted, p: seq<Value>) {
    |p| > 0 && forall i :: 0 < i < |p| ==> Link(L, p, i)
  }

  ghost predicate Link(L: Lifted, p: seq<Value>, i: nat) {
    0 < i < |p| && Refers(L, p[i - 1], p[i])
  }

  /** w is needed: it is reached from a root through phi operands. */
  ghost predicate Needed(L: Lifted, w: Value) {
    exists p :: Chain(L, p) && IsRoot(L, p[0]) && p[|p| - 1] == w
  }

  lemma NeededStep(L: Lifted, w: Value, x: Value)
    requires Needed(L, w) && Refers(L, w, x)
    ensures Needed(L, x)
  {
    var p: seq<Value> :| Chain(L, p) && IsRoot(L, p[0]) && p[|p| - 1] == w;
    var q := p + [x];
    forall i | 0 < i < |q| ensures Link(L, q, i) {
      if i < |p| { assert Link(L, p, i); }
    }
    assert Chain(L, q) && q[|q| - 1] == x;
  }

  lemma NeededRoot(L: Lifted, w: Value)
    requires IsRoot(L, w)
    ensures Needed(L, w)
  {
    assert Chain(L, [w]);
  }

  /** A set that holds the roots and what its members refer to holds everything needed. */
  lemma {:induction false} ClosedHoldsChain(L: Lifted, live: set<Value>, p: seq<Value>)
    requires Chain(L, p) && p[0] in live && Closed(L, live, live)
    ensures p[|p| - 1] in live
    decreases |p|
  {
    if |p| > 1 {
      assert Link(L, p, 1) && ClosedAt(L, live, p[0]);
      var q := p[1..];
      forall i | 0 < i < |q| ensures Link(L, q, i) {
        assert Link(L, p, i + 1);
      }
      ClosedHoldsChain(L, live, q);
    }
  }

  ghost predicate ClosedAt(L: Lifted, live: set<Value>, w: Value) {
    forall x {:trigger Refers(L, w, x)} :: Refers(L, w, x) ==> x in live
  }

  /** What the members of X refer to is in live. */
  ghost predicate Closed(L: Lifted, live: set<Value>, X: set<Value>) {
    forall w {:trigger ClosedAt(L, live, w)} :: w in X ==> ClosedAt(L, live, w)
  }

  // ----- marking -----

  /** How many entries of the list are not in live. */
  ghost function Left(all: seq<Value>, live: set<Value>): (n: nat) {
    if all == [] then 0 else Left(all[..|all| - 1], live) + (if all[|all| - 1] in live then 0 else 1)
  }

  lemma {:induction false} LeftShrinks(all: seq<Value>, live: set<Value>, live': set<Value>)
    requires live <= live'
    ensures Left(all, live') <= Left(all, live)
    ensures (exists w :: w in all && w !in live && w in live') ==> Left(all, live') < Left(all, live)
  {
    if all != [] {
      var rest := all[..|all| - 1];
      assert all == rest + [all[|all| - 1]];
      LeftShrinks(rest, live, live');
    }
  }

  ghost predicate WellFormed(L: Lifted) {
    |L.code| == |L.phis| && forall v :: 0 <= v < |L.phis| ==> DistinctPhis(L.phis[v])
  }

  function Values(edges: seq<Option<Value>>): (vs: seq<Value>)
    ensures forall x :: x in vs <==> Some(x) in edges
  {
    if edges == [] then []
    else
      assert edges == edges[..|edges| - 1] + [edges[|edges| - 1]];
      Values(edges[..|edges| - 1]) + (if edges[|edges| - 1].Some? then [edges[|edges| - 1].value] else [])
  }

  /** The operands of a phi. */
  method PhiOperands(L: Lifted, w: Value) returns (ops: seq<Value>)
    requires WellFormed(L) && IsPhi(L, w)
    ensures forall x :: x in ops <==> HasOperand(L, w, x)
  {
    if w.PhiOf? {
      var m :| 0 <= m < |L.phis[w.b]| && L.phis[w.b][m].k == w.k;
      assert DistinctPhis(L.phis[w.b]);
      ops := Values(L.phis[w.b][m].edges);
    } else {
      ops := L.code[w.b][w.j].value.edges;
    }
  }

  lemma ClosedGrows(L: Lifted, live: set<Value>, live': set<Value>, X: set<Value>)
    requires Closed(L, live, X) && live <= live'
    ensures Closed(L, live', X)
  {
    forall w | w in X ensures ClosedAt(L, live', w) {
      assert ClosedAt(L, live, w);
    }
  }

  lemma ClosedUnion(L: Lifted, live: set<Value>, X: set<Value>, Y: set<Value>, Z: set<Value>)
    requires Closed(L, live, X) && Closed(L, live, Y) && Z <= X + Y
    ensures Closed(L, live, Z)
  {
  }

  class Marker {
    const L: Lifted
    const refs: Refs
    ghost const cells: set<Value>
    ghost const all: seq<Value>
    ghost const need: set<Value>
    var live: set<Value>

    constructor (L: Lifted, refs: Refs, ghost cells: set<Value>, ghost all: seq<Value>, ghost need: set<Value>)
      ensures this.L == L && this.refs == refs && this.cells == cells && this.all == all && this.need == need && live == {}
    {
      this.L, this.refs, this.cells := L, refs, cells;
      this.all := all;
      this.need := need;
      live := {};
    }

    ghost predicate Valid()
      reads this
    {
      && WellFormed(L) && (forall w :: IsPhi(L, w) ==> w in all)
      && live <= need && (forall w :: w in need ==> ClosedAt(L, need, w))
    }

    /** markLivePhi: phi, and what it reaches through operands, become live. */
    method Mark(phi: Value)
      requires Valid() && IsPhi(L, phi) && phi in need
      modifies this
      ensures Valid() && old(live) <= live && phi in live
      ensures Closed(L, live, live - old(live) + {phi})
      decreases Left(all, live), if phi in live then 1 else 0, 0
    {
      ghost var live0 := live;
      live := live + {phi};
      LeftShrinks(all, live0, live);
      ghost var top := Left(all, live0);
      assert phi !in live0 ==> Left(all, live) < top;
      var ops := PhiOperands(L, phi);
      var k := 0;
      while k < |ops|
        invariant 0 <= k <= |ops| && Valid() && live0 + {phi} <= live
        invariant Closed(L, live, live - live0 - {phi})
        invariant forall x :: 0 <= x < k && IsPhi(L, ops[x]) ==> ops[x] in live
        invariant Left(all, live) <= top && (phi !in live0 ==> Left(all, live) < top)
      {
        var q := ops[k];
        assert q in ops;
        if IsPhi(L, q) && q !in live {
          assert ClosedAt(L, need, phi) && Refers(L, phi, q);
          MarkOperand(q, live0, phi);
        }
        k := k + 1;
      }
      forall x | Refers(L, phi, x) ensures x in live {
        assert x in ops;
      }
      assert ClosedAt(L, live, phi);
    }

    /** The recursive call, from the marking of phi that started with live0. */
    method MarkOperand(q: Value, ghost live0: set<Value>, ghost phi: Value)
      requires Valid() && IsPhi(L, q) && q in need && q !in live && live0 + {phi} <= live
      requires Closed(L, live, live - live0 - {phi})
      modifies this
      ensures Valid() && old(live) <= live && q in live && Closed(L, live, live - live0 - {phi})
      ensures Left(all, live) <= Left(all, old(live))
      decreases Left(all, live), 0, 1
    {
      ghost var live1 := live;
      Mark(q);
      LeftShrinks(all, live1, live);
      ClosedGrows(L, live1, live, live1 - live0 - {phi});
      ClosedUnion(L, live, live1 - live0 - {phi}, live - live1 + {q}, live - live0 - {phi});
    }

    /** Everything live is closed, so far. */
    ghost predicate Settled()
      reads this
    {
      Valid() && Closed(L, live, live)
    }

    ghost predicate RootsNeeded() {
      forall w {:trigger IsRoot(L, w)} :: IsRoot(L, w) ==> w in need
    }

    method MarkRoot(phi: Value)
      requires Settled() && IsPhi(L, phi) && phi in need
      modifies this
      ensures Settled() && old(live) <= live && phi in live
    {
      ghost var live0 := live;
      Mark(phi);
      ClosedGrows(L, live0, live, live0);
      ClosedUnion(L, live, live0, live - live0 + {phi}, live);
    }

    /** The first pass over the new phis of block v. */
    method MarkNew(v: nat)
      requires Settled() && RootsNeeded() && v < |L.phis| && ListsOk(L, cells, refs)
      modifies this
      ensures Settled() && old(live) <= live && NewRootsIn(L, live, v)
    {
      var m := 0;
      while m < |L.phis[v]|
        invariant 0 <= m <= |L.phis[v]| && Settled() && old(live) <= live
        invariant forall x :: 0 <= x < m && DirectlyUsed(L, PhiOf(v, L.phis[v][x].k)) ==> PhiOf(v, L.phis[v][x].k) in live
      {
        var phi := PhiOf(v, L.phis[v][m].k);
        assert IsNew(L, phi);
        if phi !in live {
          assert ListOk(cells, L.code, L.phis, refs, phi);
          var used := HasDirectReferrer(L, refs, phi, cells);
          if used {
            assert IsRoot(L, phi);
            MarkRoot(phi);
          }
        }
        m := m + 1;
      }
    }

    /** The pass over the phis that were there before, at the front of block b. */
    method MarkOld(b: nat)
      requires Settled() && RootsNeeded() && b < |L.code| && PhisLead(L, b)
      modifies this
      ensures Settled() && old(live) <= live && OldRootsIn(L, live, b)
    {
      var i := 0;
      while i < |L.code[b]| && L.code[b][i].Some? && L.code[b][i].value.Phi?
        invariant 0 <= i <= |L.code[b]| && Settled() && old(live) <= live
        invariant forall x: nat :: x < i && IsOld(L, Reg(b, x)) ==> Reg(b, x) in live
      {
        assert IsRoot(L, Reg(b, i));
        MarkRoot(Reg(b, i));
        i := i + 1;
      }
      assert !IsOld(L, Reg(b, i));
    }
  }

  // ----- removal -----

  /** The list without the phis that are not live. */
  function Kept(live: set<Value>, v: nat, phis: seq<NewPhi>): (r: seq<NewPhi>) {
    if phis == [] then []
    else
      Kept(live, v, phis[..|phis| - 1]) + (if PhiOf(v, phis[|phis| - 1].k) in live then [phis[|phis| - 1]] else [])
  }

  lemma {:induction false} KeptHas(live: set<Value>, v: nat, phis: seq<NewPhi>)
    ensures forall np :: np in Kept(live, v, phis) <==> np in phis && PhiOf(v, np.k) in live
  {
    if phis != [] {
      assert phis == phis[..|phis| - 1] + [phis[|phis| - 1]];
      KeptHas(live, v, phis[..|phis| - 1]);
    }
  }

  /** The function with the dead new phis removed. */
  ghost predicate IsPruned(L: Lifted, L': Lifted, live: set<Value>) {
    && L'.code == L.code && |L'.phis| == |L.phis|
    && forall v :: 0 <= v < |L.phis| ==> L'.phis[v] == Kept(live, v, L.phis[v])
  }

  /** All phis of L, in some order. */
  ghost function AllPhis(L: Lifted): (all: seq<Value>)
    ensures forall w :: IsPhi(L, w) ==> w in all
  {
    var S := set b, i | 0 <= b < |L.code| && 0 <= i < |L.code[b]| :: Reg(b, i);
    var T := set b, m | 0 <= b < |L.phis| && 0 <= m < |L.phis[b]| :: PhiOf(b, L.phis[b][m].k);
    AsList(S + T)
  }

  ghost function AsList(S: set<Value>): (l: seq<Value>)
    ensures forall w :: w in S <==> w in l
    decreases S
  {
    if S == {} then [] else var w :| w in S; [w] + AsList(S - {w})
  }

  /** The referrer lists are exact; only instructions are cells. */
  ghost predicate ListsOk(L: Lifted, cells: set<Value>, refs: Refs) {
    RefsOk(cells, L.code, L.phis, refs) && forall c :: c in cells ==> c.Reg?
  }

  /** phiHasDirectReferrer reads the stored list. */
  method HasDirectReferrer(L: Lifted, refs: Refs, w: Value, ghost cells: set<Value>) returns (found: bool)
    requires !w.Const? && w !in cells && ListOk(cells, L.code, L.phis, refs, w)
    ensures found <==> DirectlyUsed(L, w)
  {
    var us := RefsOf(refs, w);
    for n := 0 to |us|
      invariant forall i :: 0 <= i < n ==> IsPhi(L, us[i])
    {
      if !IsPhi(L, us[n]) {
        assert us[n] in us;
        ListedOther(L, us[n], w);
        return true;
      }
    }
    forall b, i ensures !UsedBy(L, w, b, i) {
      if UsedBy(L, w, b, i) { assert UsesValue(L.code, L.phis, Reg(b, i), w); }
    }
    found := false;
  }

  /** A user that is no phi is an instruction that reads w. */
  lemma ListedOther(L: Lifted, u: Value, w: Value)
    requires UsesValue(L.code, L.phis, u, w) && !IsPhi(L, u)
    ensures DirectlyUsed(L, w)
  {
    assert u.Reg?;
    assert UsedBy(L, w, u.b, u.j);
  }

  /** The old phis of block b come first. */
  ghost predicate PhisLead(L: Lifted, b: nat) {
    forall i: nat, j: nat :: i < j && IsOld(L, Reg(b, j)) ==> IsOld(L, Reg(b, i))
  }

  ghost predicate NewRootsIn(L: Lifted, live: set<Value>, v: nat)
    requires v < |L.phis|
  {
    forall m :: 0 <= m < |L.phis[v]| && DirectlyUsed(L, PhiOf(v, L.phis[v][m].k)) ==> PhiOf(v, L.phis[v][m].k) in live
  }

  ghost predicate OldRootsIn(L: Lifted, live: set<Value>, b: nat) {
    forall i: nat :: IsOld(L, Reg(b, i)) ==> Reg(b, i) in live
  }

  /** The needed phis as a set. */
  lemma NeededSet(L: Lifted) returns (need: set<Value>)
    ensures forall w :: w in need ==> Needed(L, w) && ClosedAt(L, need, w)
    ensures forall w :: IsRoot(L, w) ==> w in need
  {
    var all := AllPhis(L);
    need := set w | w in all && Needed(L, w);
    forall w | w in need ensures ClosedAt(L, need, w) {
      forall x | Refers(L, w, x) ensures x in need {
        NeededStep(L, w, x);
      }
    }
    forall w | IsRoot(L, w) ensures w in need {
      NeededRoot(L, w);
    }
  }

  lemma RootsGrow(L: Lifted, live: set<Value>, live': set<Value>)
    requires live <= live'
    ensures forall v :: 0 <= v < |L.phis| && NewRootsIn(L, live, v) ==> NewRootsIn(L, live', v)
    ensures forall b :: 0 <= b && OldRootsIn(L, live, b) ==> OldRootsIn(L, live', b)
  {
    forall v | 0 <= v < |L.phis| && NewRootsIn(L, live, v) ensures NewRootsIn(L, live', v) {
    }
    forall b | 0 <= b && OldRootsIn(L, live, b) ensures OldRootsIn(L, live', b) {
    }
  }

  lemma RootsLive(L: Lifted, live: set<Value>)
    requires WellFormed(L) && Closed(L, live, live)
    requires forall v :: 0 <= v < |L.phis| ==> NewRootsIn(L, live, v)
    requires forall b :: 0 <= b < |L.code| ==> OldRootsIn(L, live, b)
    ensures forall w :: Needed(L, w) ==> w in live
  {
    forall w | Needed(L, w) ensures w in live {
      var p: seq<Value> :| Chain(L, p) && IsRoot(L, p[0]) && p[|p| - 1] == w;
      if p[0].PhiOf? {
        var m :| 0 <= m < |L.phis[p[0].b]| && L.phis[p[0].b][m].k == p[0].k;
        assert NewRootsIn(L, live, p[0].b);
        assert p[0] == PhiOf(p[0].b, L.phis[p[0].b][m].k);
      } else {
        assert OldRootsIn(L, live, p[0].b);
        assert p[0] == Reg(p[0].b, p[0].j);
      }
      ClosedHoldsChain(L, live, p);
    }
  }

  /** The first two loops of removeDeadPhis: the needed phis. */
  method LivePhis(L: Lifted, refs: Refs, ghost cells: set<Value>) returns (live: set<Value>)
    requires WellFormed(L) && ListsOk(L, cells, refs) && forall b :: 0 <= b < |L.code| ==> PhisLead(L, b)
    ensures IsNeededSet(L, live)
  {
    ghost var need := NeededSet(L);
    var marker := new Marker(L, refs, cells, AllPhis(L), need);
    assert marker.Settled() && marker.RootsNeeded();
    var v := 0;
    while v < |L.phis|
      invariant 0 <= v <= |L.phis| && marker.Settled()
      invariant forall x :: 0 <= x < v ==> NewRootsIn(L, marker.live, x)
    {
      ghost var live0 := marker.live;
      marker.MarkNew(v);
      RootsGrow(L, live0, marker.live);
      v := v + 1;
    }
    var b := 0;
    while b < |L.code|
      invariant 0 <= b <= |L.code| && marker.Settled()
      invariant forall x :: 0 <= x < |L.phis| ==> NewRootsIn(L, marker.live, x)
      invariant forall x :: 0 <= x < b ==> OldRootsIn(L, marker.live, x)
    {
      ghost var live0 := marker.live;
      marker.MarkOld(b);
      RootsGrow(L, live0, marker.live);
      b := b + 1;
    }
    RootsLive(L, marker.live);
    live := marker.live;
  }

  // ----- discarding -----

  /** Takes the phi off the list of each of its operands. */
  method Discard(refs: Refs, phi: Value, edges: seq<Option<Value>>) returns (refs': Refs)
    ensures forall x, u {:trigger u in RefsOf(refs', x)} ::
              u in RefsOf(refs', x) <==> u in RefsOf(refs, x) && (x.Const? || u != phi || Some(x) !in edges)
  {
    refs' := refs;
    for e := 0 to |edges|
      invariant forall x, u {:trigger u in RefsOf(refs', x)} ::
                  u in RefsOf(refs', x) <==> u in RefsOf(refs, x) && (x.Const? || u != phi || Some(x) !in edges[..e])
    {
      ghost var was := refs';
      if edges[e].Some? && !edges[e].value.Const? {
        var us := RemoveInstr(RefsOf(refs', edges[e].value), phi);
        refs' := refs'[edges[e].value := us];
      }
      assert edges[..e + 1] == edges[..e] + [edges[e]];
      forall x, u ensures u in RefsOf(refs', x) <==> u in RefsOf(refs, x) && (x.Const? || u != phi || Some(x) !in edges[..e + 1]) {
        assert RefsOf(refs', x) == if Some(x) == edges[e] && !x.Const? then WithoutUser(RefsOf(was, x), phi) else RefsOf(was, x);
        assert u in RefsOf(was, x) <==> u in RefsOf(refs, x) && (x.Const? || u != phi || Some(x) !in edges[..e]);
      }
    }
    assert edges[..|edges|] == edges;
  }

  /** u is a dead phi before the n-th new phi of block v, and x is an operand of it. */
  ghost predicate Dropped(L: Lifted, live: set<Value>, v: nat, n: nat, u: Value, x: Value) {
    && !x.Const? && u.PhiOf? && u !in live && u.b < |L.phis|
    && exists m :: 0 <= m < |L.phis[u.b]| && (u.b < v || (u.b == v && m < n)) && L.phis[u.b][m].k == u.k && Some(x) in L.phis[u.b][m].edges
  }

  /** The dead phis before the n-th new phi of block v, and only they, are off the lists of their operands. */
  ghost predicate Swept(L: Lifted, live: set<Value>, refs: Refs, refs': Refs, v: nat, n: nat) {
    forall x, u {:trigger u in RefsOf(refs', x)} :: u in RefsOf(refs', x) <==> u in RefsOf(refs, x) && !Dropped(L, live, v, n, u, x)
  }

  lemma SweptNext(L: Lifted, live: set<Value>, refs: Refs, was: Refs, refs': Refs, v: nat, n: nat)
    requires v < |L.phis| && n < |L.phis[v]| && Swept(L, live, refs, was, v, n)
    requires var np := L.phis[v][n];
             if PhiOf(v, np.k) in live then refs' == was
             else forall x, u {:trigger u in RefsOf(refs', x)} ::
                    u in RefsOf(refs', x) <==> u in RefsOf(was, x) && (x.Const? || u != PhiOf(v, np.k) || Some(x) !in np.edges)
    ensures Swept(L, live, refs, refs', v, n + 1)
  {
    var np := L.phis[v][n];
    forall x, u ensures u in RefsOf(refs', x) <==> u in RefsOf(refs, x) && !Dropped(L, live, v, n + 1, u, x) {
      assert u in RefsOf(was, x) <==> u in RefsOf(refs, x) && !Dropped(L, live, v, n, u, x);
      assert Dropped(L, live, v, n + 1, u, x) <==>
             Dropped(L, live, v, n, u, x) || (!x.Const? && u == PhiOf(v, np.k) && u !in live && Some(x) in np.edges);
    }
  }

  /** The second pass over the new phis of block v: the live ones move to the front of the list. */
  method SweepBlock(L: Lifted, live: set<Value>, v: nat, refs: Refs, ghost refs0: Refs) returns (kept: seq<NewPhi>, refs': Refs)
    requires v < |L.phis| && Swept(L, live, refs0, refs, v, 0)
    ensures kept == Kept(live, v, L.phis[v]) && Swept(L, live, refs0, refs', v + 1, 0)
  {
    var nps := L.phis[v];
    kept, refs' := nps, refs;
    var j := 0;
    for n := 0 to |nps|
      invariant j <= n && |kept| == |nps| && kept[n..] == nps[n..] && kept[..j] == Kept(live, v, nps[..n])
      invariant Swept(L, live, refs0, refs', v, n)
    {
      var np := kept[n];
      assert np == kept[n..][0] == nps[n] && nps[..n + 1] == nps[..n] + [np];
      KeptSnoc(live, v, nps[..n], np);
      ghost var was := refs';
      if PhiOf(v, np.k) in live {
        kept := kept[j := np];
        j := j + 1;
      } else {
        refs' := Discard(refs', PhiOf(v, np.k), np.edges);
      }
      SweptNext(L, live, refs0, was, refs', v, n);
    }
    assert nps[..|nps|] == nps;
    kept := kept[..j];
    SweptBlock(L, live, refs0, refs', v);
  }

  lemma SweptBlock(L: Lifted, live: set<Value>, refs: Refs, refs': Refs, v: nat)
    requires v < |L.phis| && Swept(L, live, refs, refs', v, |L.phis[v]|)
    ensures Swept(L, live, refs, refs', v + 1, 0)
  {
    forall x, u ensures u in RefsOf(refs', x) <==> u in RefsOf(refs, x) && !Dropped(L, live, v + 1, 0, u, x) {
      assert u in RefsOf(refs', x) <==> u in RefsOf(refs, x) && !Dropped(L, live, v, |L.phis[v]|, u, x);
      assert Dropped(L, live, v + 1, 0, u, x) <==> Dropped(L, live, v, |L.phis[v]|, u, x);
    }
  }

  /** Pruning takes away the uses by dead phis, and no others. */
  lemma UsesPruned(L: Lifted, L': Lifted, live: set<Value>, u: Value, x: Value)
    requires IsPruned(L, L', live)
    ensures UsedByPhi(L'.phis, u, x) <==> UsedByPhi(L.phis, u, x) && u in live
  {
    if u.PhiOf? && u.b < |L.phis| {
      var phis, phis' := L.phis[u.b], L'.phis[u.b];
      KeptHas(live, u.b, phis);
      if UsedByPhi(L'.phis, u, x) {
        var m :| 0 <= m < |phis'| && phis'[m].k == u.k && Some(x) in phis'[m].edges;
        assert phis'[m] in phis && PhiOf(u.b, phis'[m].k) == u;
      }
      if UsedByPhi(L.phis, u, x) && u in live {
        var m :| 0 <= m < |phis| && phis[m].k == u.k && Some(x) in phis[m].edges;
        assert phis[m] in phis && PhiOf(u.b, phis[m].k) == u;
        assert phis[m] in phis';
      }
    }
  }

  /** After the sweep the lists are exact again, and no list holds a removed phi. */
  lemma ListsPruned(L: Lifted, L': Lifted, live: set<Value>, cells: set<Value>, refs: Refs, refs': Refs)
    requires IsPruned(L, L', live) && ListsOk(L, cells, refs) && Swept(L, live, refs, refs', |L.phis|, 0)
    ensures ListsOk(L', cells, refs')
    ensures forall x, w {:trigger w in RefsOf(refs', x)} :: Removed(L, live, w) ==> w !in RefsOf(refs', x)
  {
    forall x, u ensures u in RefsOf(refs', x) <==> u in RefsOf(refs, x) && (x.Const? || u in live || !UsedByPhi(L.phis, u, x)) {
      assert u in RefsOf(refs', x) <==> u in RefsOf(refs, x) && !Dropped(L, live, |L.phis|, 0, u, x);
    }
    forall x ensures ListOk(cells, L'.code, L'.phis, refs', x) {
      assert ListOk(cells, L.code, L.phis, refs, x);
      assert RefsOf(refs', x) == [] || RefsOf(refs', x)[0] in RefsOf(refs', x);
      forall u | !x.Const? && x !in cells ensures u in RefsOf(refs', x) <==> UsesValue(L'.code, L'.phis, u, x) {
        UsesPruned(L, L', live, u, x);
      }
    }
    forall x, w | Removed(L, live, w) ensures w !in RefsOf(refs', x) {
      assert ListOk(cells, L.code, L.phis, refs, x);
    }
  }

  /** removeDeadPhis keeps a new phi exactly when it is needed; no referrer list holds a removed one. */
  method RemoveDeadPhis(L: Lifted, refs: Refs, ghost cells: set<Value>) returns (L': Lifted, refs': Refs, ghost needed: set<Value>)
    requires WellFormed(L) && ListsOk(L, cells, refs) && forall b :: 0 <= b < |L.code| ==> PhisLead(L, b)
    ensures IsPruned(L, L', needed) && IsNeededSet(L, needed)
    ensures ListsOk(L', cells, refs')
    ensures forall x, w {:trigger w in RefsOf(refs', x)} :: Removed(L, needed, w) ==> w !in RefsOf(refs', x)
  {
    var live := LivePhis(L, refs, cells);
    var phis: seq<seq<NewPhi>> := [];
    refs' := refs;
    for v := 0 to |L.phis|
      invariant |phis| == v && (forall w :: 0 <= w < v ==> phis[w] == Kept(live, w, L.phis[w]))
      invariant Swept(L, live, refs, refs', v, 0)
    {
      var kept;
      kept, refs' := SweepBlock(L, live, v, refs', refs);
      phis := phis + [kept];
    }
    L', needed := Lifted(L.code, phis), live;
    ListsPruned(L, L', live, cells, refs, refs');
  }

  // ----- dropping dead phis is sound -----

  /** w is a new phi that has been removed. */
  ghost predicate Removed(L: Lifted, live: set<Value>, w: Value) {
    IsNew(L, w) && w !in live
  }

  /** The two states agree, except on removed phis. */
  ghost predicate Same(L: Lifted, live: set<Value>, s: State, t: State) {
    s.hist == t.hist && forall w :: !Removed(L, live, w) ==> Eval(s.env, w) == Eval(t.env, w)
  }

  ghost predicate IsNeededSet(L: Lifted, live: set<Value>) {
    forall y {:trigger Needed(L, y)} :: y in live <==> Needed(L, y)
  }

  /** No surviving instruction or phi uses a removed phi. */
  lemma NoUseOfRemoved(L: Lifted, live: set<Value>, w: Value, x: Value)
    requires IsNeededSet(L, live)
    requires (IsPhi(L, w) && !Removed(L, live, w) && HasOperand(L, w, x)) || DirectlyUsed(L, x)
    ensures !Removed(L, live, x)
  {
    if IsNew(L, x) {
      if DirectlyUsed(L, x) {
        NeededRoot(L, x);
      } else {
        assert Needed(L, w) by { if IsOld(L, w) { NeededRoot(L, w); } }
        assert Refers(L, w, x);
        NeededStep(L, w, x);
      }
    }
  }

  /** No instruction, no old phi and no phi of S uses a new phi outside S. */
  ghost predicate Suffices(L: Lifted, S: set<Value>) {
    && (forall b: nat, i: nat, x :: b < |L.code| && i < |L.code[b]| && L.code[b][i].Some? && IsNew(L, x) && x in Rands(L.code[b][i].value) ==> x in S)
    && (forall v: nat, np, x :: v < |L.phis| && np in L.phis[v] && PhiOf(v, np.k) in S && IsNew(L, x) && Some(x) in np.edges ==> x in S)
  }

  /** Removing dead phis keeps as few as can be: whatever new phis suffice include all that are needed. */
  lemma PruningIsLeast(L: Lifted, S: set<Value>, w: Value)
    requires Suffices(L, S) && Needed(L, w) && IsNew(L, w)
    ensures w in S
  {
    var p: seq<Value> :| Chain(L, p) && IsRoot(L, p[0]) && p[|p| - 1] == w;
    if IsNew(L, p[0]) {
      var b: nat, i: nat :| UsedBy(L, p[0], b, i);
      assert p[0] in Rands(L.code[b][i].value);
    }
    LeastChain(L, S, p, |p| - 1);
  }

  lemma {:induction false} LeastChain(L: Lifted, S: set<Value>, p: seq<Value>, n: nat)
    requires Suffices(L, S) && Chain(L, p) && n < |p| && IsPhi(L, p[0]) && (IsNew(L, p[0]) ==> p[0] in S)
    ensures IsNew(L, p[n]) ==> p[n] in S
  {
    if n > 0 {
      LeastChain(L, S, p, n - 1);
      assert Link(L, p, n);
      var u := p[n - 1];
      if u.PhiOf? {
        var m :| 0 <= m < |L.phis[u.b]| && L.phis[u.b][m].k == u.k && Some(p[n]) in L.phis[u.b][m].edges;
        assert L.phis[u.b][m] in L.phis[u.b] && PhiOf(u.b, L.phis[u.b][m].k) == u && IsNew(L, u);
      } else {
        assert p[n] in Rands(L.code[u.b][u.j].value);
      }
    }
  }

  lemma PrunedStep(L: Lifted, L': Lifted, live: set<Value>, orc: Oracle, u: nat, i: nat, s: State, t: State)
    requires IsPruned(L, L', live) && IsNeededSet(L, live)
    requires u < |L.code| && i < |L.code[u]| && Same(L, live, s, t)
    ensures Same(L, live, LiftedStep(L, orc, u, i, s), LiftedStep(L', orc, u, i, t))
  {
    if L.code[u][i].Some? && !L.code[u][i].value.Phi? {
      var vs := Operands(L.code[u][i].value);
      forall a | 0 <= a < |vs| ensures Eval(s.env, vs[a]) == Eval(t.env, vs[a]) {
        assert UsedBy(L, vs[a], u, i);
        NoUseOfRemoved(L, live, vs[a], vs[a]);
      }
      assert EvalAll(s.env, vs) == EvalAll(t.env, vs);
    }
  }

  lemma {:induction false} PrunedBlock(L: Lifted, L': Lifted, live: set<Value>, orc: Oracle, u: nat, i: nat, s: State, t: State)
    requires IsPruned(L, L', live) && IsNeededSet(L, live)
    requires u < |L.code| && i <= |L.code[u]| && Same(L, live, s, t)
    ensures Same(L, live, LiftedBlock(L, orc, u, i, s), LiftedBlock(L', orc, u, i, t))
  {
    if i > 0 {
      PrunedBlock(L, L', live, orc, u, i - 1, s, t);
      PrunedStep(L, L', live, orc, u, i - 1, LiftedBlock(L, orc, u, i - 1, s), LiftedBlock(L', orc, u, i - 1, t));
    }
  }

  /** On entry the old phis get the same values. */
  lemma {:induction false} PrunedPhiValues(L: Lifted, live: set<Value>, s: State, t: State, v: nat, e: nat, n: nat)
    requires v < |L.code| && n <= |L.code[v]| && Same(L, live, s, t) && IsNeededSet(L, live)
    ensures PhiValues(s.env, v, L.code[v], e, n) == PhiValues(t.env, v, L.code[v], e, n)
  {
    if n > 0 {
      PrunedPhiValues(L, live, s, t, v, e, n - 1);
      var c := L.code[v][n - 1];
      if c.Some? && c.value.Phi? && e < |c.value.edges| {
        var x := c.value.edges[e];
        assert HasOperand(L, Reg(v, n - 1), x);
        NoUseOfRemoved(L, live, Reg(v, n - 1), x);
      }
    }
  }

  /** a and b agree on the live new phis, and b has no others. */
  ghost predicate Matches(L: Lifted, live: set<Value>, a: map<Value, int>, b: map<Value, int>) {
    && (forall w :: w in a ==> IsNew(L, w))
    && (forall w :: w in b <==> w in a && w in live)
    && (forall w :: w in b ==> a[w] == b[w])
  }

  lemma MatchesOne(L: Lifted, live: set<Value>, a: map<Value, int>, b: map<Value, int>, w: Value, x: int, y: int)
    requires Matches(L, live, a, b) && IsNew(L, w) && (w in live ==> x == y)
    ensures Matches(L, live, a[w := x], if w in live then b[w := y] else b)
  {
  }

  lemma NewValuesSnoc(env: map<Value, int>, v: nat, rest: seq<NewPhi>, np: NewPhi, e: nat)
    ensures NewPhiValues(env, v, rest + [np], e) ==
            if e < |np.edges| && np.edges[e].Some?
            then NewPhiValues(env, v, rest, e)[PhiOf(v, np.k) := Eval(env, np.edges[e].value)] else NewPhiValues(env, v, rest, e)
  {
    assert (rest + [np])[..|rest|] == rest;
  }

  lemma KeptSnoc(live: set<Value>, v: nat, rest: seq<NewPhi>, np: NewPhi)
    ensures Kept(live, v, rest + [np]) == Kept(live, v, rest) + (if PhiOf(v, np.k) in live then [np] else [])
  {
    assert (rest + [np])[..|rest|] == rest;
  }

  /** One phi more on both sides. */
  lemma MatchesSnoc(L: Lifted, live: set<Value>, s: State, t: State, v: nat, e: nat, rest: seq<NewPhi>, kept: seq<NewPhi>, np: NewPhi)
    requires v < |L.phis| && Same(L, live, s, t) && IsNeededSet(L, live) && np in L.phis[v]
    requires Matches(L, live, NewPhiValues(s.env, v, rest, e), NewPhiValues(t.env, v, kept, e))
    ensures Matches(L, live, NewPhiValues(s.env, v, rest + [np], e),
                    NewPhiValues(t.env, v, kept + (if PhiOf(v, np.k) in live then [np] else []), e))
  {
    var a, b := NewPhiValues(s.env, v, rest, e), NewPhiValues(t.env, v, kept, e);
    SurvivorAgrees(L, live, s, t, v, e, np);
    NewValuesSnoc(s.env, v, rest, np, e);
    NewValuesSnoc(t.env, v, kept, np, e);
    assert kept + [] == kept;
    if e < |np.edges| && np.edges[e].Some? {
      MatchesOne(L, live, a, b, PhiOf(v, np.k), Eval(s.env, np.edges[e].value), Eval(t.env, np.edges[e].value));
    }
  }

  /** On entry the surviving new phis get the same values. */
  lemma {:induction false} PrunedNewValues(L: Lifted, live: set<Value>, s: State, t: State, v: nat, e: nat, ps: seq<NewPhi>)
    requires v < |L.phis| && Same(L, live, s, t) && IsNeededSet(L, live) && forall i :: 0 <= i < |ps| ==> ps[i] in L.phis[v]
    ensures Matches(L, live, NewPhiValues(s.env, v, ps, e), NewPhiValues(t.env, v, Kept(live, v, ps), e))
    decreases |ps|
  {
    if ps != [] {
      var rest, np := ps[..|ps| - 1], ps[|ps| - 1];
      PrunedNewValues(L, live, s, t, v, e, rest);
      MatchesSnoc(L, live, s, t, v, e, rest, Kept(live, v, rest), np);
      KeptSnoc(live, v, rest, np);
      assert ps == rest + [np];
    }
  }

  lemma SurvivorAgrees(L: Lifted, live: set<Value>, s: State, t: State, v: nat, e: nat, np: NewPhi)
    requires v < |L.phis| && Same(L, live, s, t) && IsNeededSet(L, live) && np in L.phis[v]
    ensures IsNew(L, PhiOf(v, np.k))
    ensures PhiOf(v, np.k) in live && e < |np.edges| && np.edges[e].Some? ==>
              Eval(s.env, np.edges[e].value) == Eval(t.env, np.edges[e].value)
  {
    var m :| 0 <= m < |L.phis[v]| && L.phis[v][m] == np;
    var w := PhiOf(v, np.k);
    assert IsNew(L, w);
    if w in live && e < |np.edges| && np.edges[e].Some? {
      assert HasOperand(L, w, np.edges[e].value);
      NoUseOfRemoved(L, live, w, np.edges[e].value);
    }
  }

  /** Assigning matching new phis and equal old phis keeps the agreement. */
  lemma SameAssign(L: Lifted, live: set<Value>, env: map<Value, int>, env': map<Value, int>, a: map<Value, int>, b: map<Value, int>, c: map<Value, int>, w: Value)
    requires Matches(L, live, a, b) && !Removed(L, live, w) && Eval(env, w) == Eval(env', w)
    ensures Eval(env + a + c, w) == Eval(env' + b + c, w)
  {
  }

  lemma PrunedEnter(L: Lifted, L': Lifted, live: set<Value>, v: nat, e: nat, s: State, t: State)
    requires IsPruned(L, L', live) && IsNeededSet(L, live) && |L.code| == |L.phis|
    requires v < |L.code| && Same(L, live, s, t)
    ensures Same(L, live, LiftedEnter(L, v, e, s), LiftedEnter(L', v, e, t))
  {
    PrunedPhiValues(L, live, s, t, v, e, |L.code[v]|);
    PrunedNewValues(L, live, s, t, v, e, L.phis[v]);
    var s', t' := LiftedEnter(L, v, e, s), LiftedEnter(L', v, e, t);
    forall w | !Removed(L, live, w) ensures Eval(s'.env, w) == Eval(t'.env, w) {
      SameAssign(L, live, s.env, t.env, NewPhiValues(s.env, v, L.phis[v], e), NewPhiValues(t.env, v, L'.phis[v], e),
                 PhiValues(s.env, v, L.code[v], e, |L.code[v]|), w);
    }
  }

  /** Removing dead phis changes no run. */
  lemma {:induction false} PruningPreservesMeaning(g: Flowgraph, L: Lifted, L': Lifted, live: set<Value>, orc: Oracle, s0: State, p: seq<nat>)
    requires IsPruned(L, L', live) && IsNeededSet(L, live)
    requires Runs(g, p) && |L.code| == |L.phis| == |g.preds|
    ensures Same(L, live, LiftedRun(g, L, orc, s0, p), LiftedRun(g, L', orc, s0, p))
    decreases |p|
  {
    var v := p[|p| - 1];
    if |p| == 1 {
      PrunedBlock(L, L', live, orc, v, |L.code[v]|, s0, s0);
    } else {
      var q := p[..|p| - 1];
      RunsPrefix(g, p);
      PruningPreservesMeaning(g, L, L', live, orc, s0, q);
      var s, t, e := LiftedRun(g, L, orc, s0, q), LiftedRun(g, L', orc, s0, q), PredIndex(g.preds[v], p[|p| - 2]);
      PrunedEnter(L, L', live, v, e, s, t);
      PrunedBlock(L, L', live, orc, v, |L.code[v]|, LiftedEnter(L, v, e, s), LiftedEnter(L', v, e, t));
    }
  }
}
