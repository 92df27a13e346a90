/** The renaming pass: rename, renamed and replaceAll of lift.go, proved against the
    specification Ren of module Lifting. */
module Renaming {
  import opened Paths
  import opened Flowgraphs
  import opened DomTrees
  import opened DomFrontiers
  import opened Lifting
  import opened LiftingProof
  import opened Referrers

  // ----- where the pass stands -----

  /** The operand v when only the loads in the set have been replaced. */
  ghost function PartSub(pl: Plan, loads: set<(nat, nat)>, v: Value): (w: Value)
    requires pl.Shaped()
  {
    if v.Reg? && (v.b, v.j) in loads then pl.Sub(v) else v
  }

  ghost function PartSubAll(pl: Plan, loads: set<(nat, nat)>, vs: seq<Value>): (ws: seq<Value>)
    requires pl.Shaped()
    ensures |ws| == |vs| && forall i :: 0 <= i < |vs| ==> ws[i] == PartSub(pl, loads, vs[i])
  {
    seq(|vs|, i requires 0 <= i < |vs| => PartSub(pl, loads, vs[i]))
  }

  ghost function PartInstr(pl: Plan, loads: set<(nat, nat)>, ins: Instr): (r: Instr)
    requires pl.Shaped()
  {
    match ins
    case Alloc(_) => ins
    case Load(a) => Load(PartSub(pl, loads, a))
    case Store(a, v) => Store(PartSub(pl, loads, a), PartSub(pl, loads, v))
    case Phi(edges) => Phi(PartSubAll(pl, loads, edges))
    case Op(args) => Op(PartSubAll(pl, loads, args))
  }

  /** The slot of instruction (b, j): empty if it is gone, else with the loads so far replaced. */
  ghost predicate SlotOk(pl: Plan, code: seq<seq<Option<Instr>>>, loads: set<(nat, nat)>, gone: set<(nat, nat)>, b: nat, j: nat)
    requires pl.Shaped()
  {
    && pl.At(b, j) && b < |code| && j < |code[b]|
    && code[b][j] == if (b, j) in gone then None else Some(PartInstr(pl, loads, pl.blocks[b][j]))
  }

  /** A new phi of block v: its edges from the blocks in done are set. */
  ghost predicate EdgesOk(pl: Plan, np: NewPhi, done: set<nat>, v: nat)
    requires pl.Shaped()
  {
    && v < |pl.g.preds| && np.k < |pl.zeros| && |np.edges| == |pl.g.preds[v]|
    && forall e :: 0 <= e < |pl.g.preds[v]| ==> EdgeOk(pl, np, done, v, e)
  }

  ghost predicate EdgeOk(pl: Plan, np: NewPhi, done: set<nat>, v: nat, e: nat)
    requires pl.Shaped() && v < |pl.g.preds| && e < |pl.g.preds[v]| == |np.edges| && np.k < |pl.zeros|
  {
    && pl.g.preds[v][e] < |pl.idom|
    && np.edges[e] == if pl.g.preds[v][e] in done then Some(pl.RenOut(pl.g.preds[v][e])[np.k]) else None
  }

  /** The loads replaced so far are loads of cells, outside recover. */
  ghost predicate LoadsOk(pl: Plan, loads: set<(nat, nat)>) {
    forall b: nat, j: nat :: (b, j) in loads ==> pl.LiftedLoad(b, j) && b != pl.recover
  }

  /** A replacement is never itself a load of a cell, so replacing one load leaves it alone. */
  lemma SubIsNoLoad(pl: Plan, b: nat, j: nat)
    requires pl.Valid() && pl.LiftedLoad(b, j) && b != pl.recover
    ensures var w := pl.Sub(Reg(b, j)); w.Reg? ==> !pl.LiftedLoad(w.b, w.j)
  {
    RenReady(pl, b, j, pl.Cell(pl.blocks[b][j].addr));
  }

  lemma ReplaceOne(pl: Plan, loads: set<(nat, nat)>, v: Value, u: nat, i: nat)
    requires pl.Valid() && LoadsOk(pl, loads) && pl.LiftedLoad(u, i) && (u, i) !in loads
    ensures Replace(PartSub(pl, loads, v), Reg(u, i), pl.Sub(Reg(u, i))) == PartSub(pl, loads + {(u, i)}, v)
  {
    if v.Reg? && (v.b, v.j) in loads {
      SubIsNoLoad(pl, v.b, v.j);
    }
  }

  lemma ReplaceInInstr(pl: Plan, loads: set<(nat, nat)>, ins: Instr, u: nat, i: nat)
    requires pl.Valid() && LoadsOk(pl, loads) && pl.LiftedLoad(u, i) && (u, i) !in loads
    ensures ReplaceInstr(PartInstr(pl, loads, ins), Reg(u, i), pl.Sub(Reg(u, i))) == PartInstr(pl, loads + {(u, i)}, ins)
  {
    var x, y, loads' := Reg(u, i), pl.Sub(Reg(u, i)), loads + {(u, i)};
    match ins
    case Alloc(_) =>
    case Load(a) => ReplaceOne(pl, loads, a, u, i);
    case Store(a, v) => ReplaceOne(pl, loads, a, u, i); ReplaceOne(pl, loads, v, u, i);
    case Phi(vs) => ReplaceInList(pl, loads, vs, u, i);
    case Op(vs) => ReplaceInList(pl, loads, vs, u, i);
  }

  lemma ReplaceInList(pl: Plan, loads: set<(nat, nat)>, vs: seq<Value>, u: nat, i: nat)
    requires pl.Valid() && LoadsOk(pl, loads) && pl.LiftedLoad(u, i) && (u, i) !in loads
    ensures ReplaceList(PartSubAll(pl, loads, vs), Reg(u, i), pl.Sub(Reg(u, i))) == PartSubAll(pl, loads + {(u, i)}, vs)
  {
    forall a | 0 <= a < |vs|
      ensures ReplaceList(PartSubAll(pl, loads, vs), Reg(u, i), pl.Sub(Reg(u, i)))[a] == PartSubAll(pl, loads + {(u, i)}, vs)[a]
    {
      ReplaceOne(pl, loads, vs[a], u, i);
    }
  }

  /** The edges of new phis hold no loads of cells, so replaceAll does not touch them. */
  lemma ReplaceKeepsPhi(pl: Plan, np: NewPhi, done: set<nat>, v: nat, u: nat, i: nat, y: Value)
    requires pl.Valid() && v < |pl.g.preds| && |pl.g.preds[v]| == |np.edges| && np.k < |pl.zeros|
    requires forall e :: 0 <= e < |pl.g.preds[v]| ==> EdgeOk(pl, np, done, v, e)
    requires pl.recover == NIL || pl.recover !in done
    requires pl.LiftedLoad(u, i)
    ensures ReplacePhi(np, Reg(u, i), y) == np
  {
    forall e | 0 <= e < |np.edges| ensures ReplacePhi(np, Reg(u, i), y).edges[e] == np.edges[e] {
      assert EdgeOk(pl, np, done, v, e);
      var p := pl.g.preds[v][e];
      if p in done {
        RenReady(pl, p, |pl.blocks[p]|, np.k);
      }
    }
  }

  /** So replacing a load leaves all of them as they were. */
  lemma PhisUntouched(pl: Plan, phis: seq<seq<NewPhi>>, phis': seq<seq<NewPhi>>, done: set<nat>, u: nat, i: nat, y: Value)
    requires pl.Valid() && (pl.recover == NIL || pl.recover !in done) && pl.LiftedLoad(u, i)
    requires forall v, m :: 0 <= v < |phis| && 0 <= m < |phis[v]| ==> EdgesOk(pl, phis[v][m], done, v)
    requires PhisReplaced(phis, phis', Reg(u, i), y)
    ensures phis' == phis
  {
    forall v, m | 0 <= v < |phis| && 0 <= m < |phis[v]| ensures phis'[v][m] == phis[v][m] {
      assert EdgesOk(pl, phis[v][m], done, v);
      ReplaceKeepsPhi(pl, phis[v][m], done, v, u, i, y);
    }
    forall v | 0 <= v < |phis| ensures phis'[v] == phis[v] {
    }
  }

  /** The value that replaces a load is another value, and no cell; the load itself reads a cell. */
  lemma LoadIsReplaced(pl: Plan, loads: set<(nat, nat)>, u: nat, i: nat)
    requires pl.Valid() && LoadsOk(pl, loads) && pl.LiftedLoad(u, i) && u != pl.recover
    ensures pl.Sub(Reg(u, i)) != Reg(u, i) && !pl.IsCell(Reg(u, i)) && !pl.IsCell(pl.Sub(Reg(u, i)))
    ensures PartInstr(pl, loads, pl.blocks[u][i]) == pl.blocks[u][i]
  {
    SubIsNoLoad(pl, u, i);
    RenReady(pl, u, i, pl.Cell(pl.blocks[u][i].addr));
    CellKept(pl, loads, pl.blocks[u][i].addr);
  }

  /** The renaming at the end of a block names no cell. */
  lemma RenIsNoCell(pl: Plan, u: nat, k: nat)
    requires pl.Valid() && u < |pl.idom| && u != pl.recover && k < |pl.zeros|
    ensures !pl.IsCell(pl.RenOut(u)[k])
  {
    RenReady(pl, u, |pl.blocks[u]|, k);
  }

  /** The slot c holds the alloc of a cell, with val nil, or a store of val to one. */
  ghost predicate DefOf(pl: Plan, c: Option<Instr>, val: Option<Value>) {
    && c.Some?
    && match val
       case None => c.value.Alloc?
       case Some(v) => c.value.Store? && c.value.val == v && pl.IsCell(c.value.addr) && !pl.IsCell(v)
  }

  lemma SlotIsDef(pl: Plan, loads: set<(nat, nat)>, u: nat, i: nat)
    requires pl.Valid() && pl.At(u, i) && u != pl.recover && LoadsOk(pl, loads)
    ensures pl.blocks[u][i].Store? ==> !pl.IsCell(PartSub(pl, loads, pl.blocks[u][i].val))
  {
    assert pl.UsesOk(u, i);
    if pl.blocks[u][i].Store? {
      CellKept(pl, loads, pl.blocks[u][i].val);
    }
  }

  /** Before the pass the lists are those of the instructions; no new phi has an operand. */
  lemma FirstLists(pl: Plan, code: seq<seq<Option<Instr>>>, phis: seq<seq<NewPhi>>, refs: Refs)
    requires IsReferrers(pl.blocks, refs) && |code| == |pl.blocks| && forall b :: 0 <= b < |code| ==> code[b] == Whole(pl.blocks[b])
    requires forall v, m, e :: 0 <= v < |phis| && 0 <= m < |phis[v]| && 0 <= e < |phis[v][m].edges| ==> phis[v][m].edges[e] == None
    ensures RefsOk(Cells(pl), code, phis, refs)
  {
    forall x ensures ListOk(Cells(pl), code, phis, refs, x) {
      forall u ensures UsesValue(code, phis, u, x) <==> UsedInBlocks(pl.blocks, u, x) {
      }
      if RefsOf(refs, x) != [] { assert RefsOf(refs, x)[0] in RefsOf(refs, x); }
    }
  }

  // ----- the renaming array -----

  /** The array holds the renaming R; nil stands for the zero constant. */
  ghost predicate Fits(pl: Plan, r: seq<Option<Value>>, R: seq<Value>) {
    && |r| == |R| == |pl.zeros|
    && forall k :: 0 <= k < |r| ==> R[k] == if r[k].Some? then r[k].value else Const(pl.zeros[k])
  }

  /** Every load of a cell whose definition dominates (u, i) has been replaced. */
  ghost predicate LoadsReady(pl: Plan, loads: set<(nat, nat)>, u: nat, i: nat) {
    forall b: nat, j: nat :: pl.LiftedLoad(b, j) && pl.Avail(b, j, u, i) ==> (b, j) in loads
  }

  /** renamed: the value of cell k, with a lazily built zero constant. */
  method Renamed(pl: Plan, renaming: array<Option<Value>>, k: nat, ghost R: seq<Value>) returns (v: Value)
    requires k < renaming.Length && Fits(pl, renaming[..], R)
    modifies renaming
    ensures Fits(pl, renaming[..], R) && v == R[k]
  {
    if renaming[k].None? {
      renaming[k] := Some(Const(pl.zeros[k]));
    }
    v := renaming[k].value;
  }

  class Lifter {
    const pl: Plan
    var code: seq<seq<Option<Instr>>>
    var phis: seq<seq<NewPhi>>
    var refs: Refs
    ghost var loads: set<(nat, nat)>
    ghost var gone: set<(nat, nat)>
    ghost var done: set<nat>

    /** Nothing renamed yet; every edge of a new phi is nil. */
    constructor (pl: Plan, phis: seq<seq<NewPhi>>, refs: Refs)
      requires pl.Valid() && |phis| == |pl.blocks| && IsReferrers(pl.blocks, refs)
      requires forall v, m :: 0 <= v < |phis| && 0 <= m < |phis[v]| ==>
                 phis[v][m].k < |pl.zeros| && phis[v][m].edges == seq(|pl.g.preds[v]|, _ => None)
      ensures this.pl == pl && this.phis == phis && loads == gone == {} && done == {} && Inv()
    {
      this.pl, this.phis, this.refs := pl, phis, refs;
      code := seq(|pl.blocks|, b requires 0 <= b < |pl.blocks| => Whole(pl.blocks[b]));
      loads, gone, done := {}, {}, {};
      new;
      forall b: nat, j: nat | pl.At(b, j) ensures SlotOk(pl, code, loads, gone, b, j) {
        NothingReplaced(pl, pl.blocks[b][j]);
      }
      forall v, m | 0 <= v < |phis| && 0 <= m < |phis[v]| ensures EdgesOk(pl, phis[v][m], done, v) {
        forall e | 0 <= e < |pl.g.preds[v]| ensures EdgeOk(pl, phis[v][m], done, v, e) {
          assert pl.g.preds[v][e] in pl.g.preds[v];
        }
      }
      FirstLists(pl, code, phis, refs);
    }

    ghost predicate CodeOk()
      requires pl.Shaped()
      reads this
    {
      && |code| == |pl.blocks| && (forall b :: 0 <= b < |code| ==> |code[b]| == |pl.blocks[b]|)
      && (forall b, j :: pl.At(b, j) ==> SlotOk(pl, code, loads, gone, b, j))
    }

    ghost predicate PhisOk()
      requires pl.Shaped()
      reads this
    {
      && |phis| == |pl.blocks| && (pl.recover == NIL || pl.recover !in done)
      && (forall v, m :: 0 <= v < |phis| && 0 <= m < |phis[v]| ==> EdgesOk(pl, phis[v][m], done, v))
    }

    ghost predicate Inv()
      reads this
    {
      pl.Valid() && CodeOk() && PhisOk() && LoadsOk(pl, loads) && ListsOk()
    }

    /** Every list of referrers is exact. */
    ghost predicate ListsOk()
      reads this
    {
      RefsOk(Cells(pl), code, phis, refs)
    }

    /** replaceAll: every use of x, in instructions and in new phis, becomes y. Only the listed
        referrers of x are visited; they move to the list of y. */
    method ReplaceAll(x: Value, y: Value)
      requires x != y && !x.Const? && !pl.IsCell(x) && !pl.IsCell(y) && ListsOk()
      modifies this`code, this`phis, this`refs
      ensures SlotsReplaced(old(code), code, x, y) && PhisReplaced(old(phis), phis, x, y) && ListsOk()
      ensures RefsOf(refs, x) == [] && (!y.Const? ==> RefsOf(refs, y) == RefsOf(old(refs), y) + RefsOf(old(refs), x))
    {
      var us := RefsOf(refs, x);
      for n := 0 to |us|
        invariant SlotsReplacedIn(old(code), code, us[..n], x, y) && PhisReplacedIn(old(phis), phis, us[..n], x, y)
        invariant Moved(old(refs), refs, us[..n], y)
      {
        ReplacedNext(old(code), code, us[..n], us[n], x, y);
        PhiReplacedNext(old(phis), phis, us[..n], us[n], x, y);
        MovedNext(old(refs), refs, us[..n], us[n], y);
        assert us[..n + 1] == us[..n] + [us[n]];
        code, phis := ReplaceInSlot(code, us[n], x, y), ReplaceInPhi(phis, us[n], x, y);
        refs := AddUser(refs, us[n], y);
      }
      assert us[..|us|] == us;
      assert ListOk(Cells(pl), old(code), old(phis), old(refs), x);
      ListReachesAll(Cells(pl), old(code), code, old(phis), phis, old(refs), x, y);
      MovedOk(Cells(pl), old(code), code, old(phis), phis, old(refs), refs, x, y);
      assert MovedAt(old(refs), refs, us, y, y);
      refs := refs[x := []];
    }

    method Delete(u: nat, i: nat)
      requires u < |code| && i < |code[u]|
      modifies this`code
      ensures code == old(code)[u := old(code)[u][i := None]]
    {
      code := code[u := code[u][i := None]];
    }

    /** A load of a cell: replace it by what the cell stands for, then delete it. */
    method RenameLoad(u: nat, i: nat, newval: Value)
      requires Inv() && pl.LiftedLoad(u, i) && u != pl.recover && (u, i) !in loads && (u, i) !in gone && newval == pl.Sub(Reg(u, i))
      modifies this`code, this`phis, this`refs, this`loads, this`gone
      ensures Inv() && loads == old(loads) + {(u, i)} && gone == old(gone) + {(u, i)} && phis == old(phis)
    {
      LoadIsReplaced(pl, loads, u, i);
      assert SlotOk(pl, code, loads, gone, u, i);
      ReplaceAll(Reg(u, i), newval);
      assert code[u][i] == Some(pl.blocks[u][i]);
      DeletedOk(Cells(pl), code, phis, refs, refs, u, i);
      Delete(u, i);
      loads := loads + {(u, i)};
      gone := gone + {(u, i)};
      forall b: nat, j: nat | pl.At(b, j) ensures SlotOk(pl, code, loads, gone, b, j) {
        assert SlotOk(pl, old(code), old(loads), old(gone), b, j);
        ReplaceInInstr(pl, old(loads), pl.blocks[b][j], u, i);
      }
      PhisUntouched(pl, old(phis), phis, done, u, i, newval);
    }

    /** An alloc of a cell, or a store to one, disappears. */
    method RenameDef(u: nat, i: nat, val: Option<Value>)
      requires Inv() && pl.At(u, i) && (u, i) !in gone && DefOf(pl, code[u][i], val)
      modifies this`code, this`refs, this`gone
      ensures Inv() && gone == old(gone) + {(u, i)}
    {
      if val.Some? && !val.value.Const? {
        var us := RemoveInstr(RefsOf(refs, val.value), Reg(u, i));
        refs := refs[val.value := us];
      }
      DeletedOk(Cells(pl), code, phis, old(refs), refs, u, i);
      Delete(u, i);
      gone := gone + {(u, i)};
      forall b: nat, j: nat | pl.At(b, j) ensures SlotOk(pl, code, loads, gone, b, j) {
        assert SlotOk(pl, old(code), loads, old(gone), b, j);
      }
    }

    /** A store of val to cell k, or its alloc with val nil: the cell is renamed, the instruction goes. */
    method RenameCell(u: nat, i: nat, k: nat, val: Option<Value>, renaming: array<Option<Value>>)
      requires Inv() && pl.At(u, i) && (u, i) !in gone && k < |pl.zeros| && Fits(pl, renaming[..], pl.Ren(u, i))
      requires DefOf(pl, code[u][i], val)
      requires pl.Ren(u, i + 1) == pl.Ren(u, i)[k := if val.Some? then val.value else Const(pl.zeros[k])]
      modifies this`code, this`refs, this`gone, renaming
      ensures Inv() && Fits(pl, renaming[..], pl.Ren(u, i + 1)) && gone == old(gone) + {(u, i)}
    {
      renaming[k] := val;
      FitsUpdate(pl, old(renaming[..]), pl.Ren(u, i), k, val);
      assert renaming[..] == old(renaming[..])[k := val];
      RenameDef(u, i, val);
    }

    /** The body of the instruction loop. */
    method RenameInstr(u: nat, i: nat, renaming: array<Option<Value>>)
      requires Inv() && pl.At(u, i) && u != pl.recover && (u, i) !in loads && (u, i) !in gone
      requires Fits(pl, renaming[..], pl.Ren(u, i)) && LoadsReady(pl, loads, u, i)
      modifies this`code, this`phis, this`refs, this`loads, this`gone, renaming
      ensures Inv() && Fits(pl, renaming[..], pl.Ren(u, i + 1))
      ensures loads == old(loads) + (if pl.LiftedLoad(u, i) then {(u, i)} else {})
      ensures gone == old(gone) + (if pl.Deleted(u, i) then {(u, i)} else {})
      ensures phis == old(phis)
    {
      assert SlotOk(pl, code, loads, gone, u, i);
      SlotFacts(pl, loads, u, i);
      SlotIsDef(pl, loads, u, i);
      match code[u][i].value
      case Alloc(_) =>
        if (u, i) in pl.index {
          RenameCell(u, i, pl.index[(u, i)], None, renaming);
        }
      case Store(addr, val) =>
        if pl.IsCell(addr) {
          RenameCell(u, i, pl.Cell(addr), Some(val), renaming);
        }
      case Load(addr) =>
        if pl.IsCell(addr) {
          var newval := Renamed(pl, renaming, pl.Cell(addr), pl.Ren(u, i));
          RenameLoad(u, i, newval);
        }
      case Phi(_) =>
      case Op(_) =>
    }

    /** One turn of the instruction loop. */
    method RenameNext(u: nat, i: nat, renaming: array<Option<Value>>, ghost loads0: set<(nat, nat)>, ghost gone0: set<(nat, nat)>)
      requires Inv() && pl.At(u, i) && u != pl.recover
      requires Fits(pl, renaming[..], pl.Ren(u, i)) && LoadsReady(pl, loads0, u, 0) && Untouched(pl, loads0, gone0, u)
      requires Through(pl, loads0, loads, gone0, gone, u, i)
      modifies this`code, this`phis, this`refs, this`loads, this`gone, renaming
      ensures Inv() && Fits(pl, renaming[..], pl.Ren(u, i + 1)) && phis == old(phis)
      ensures Through(pl, loads0, loads, gone0, gone, u, i + 1)
    {
      assert (u, i) !in loads0 && (u, i) !in gone0;
      ReadyThrough(pl, loads0, loads, gone0, gone, u, i);
      RenameInstr(u, i, renaming);
      ThroughNext(pl, loads0, old(loads), loads, gone0, old(gone), gone, u, i);
    }

    /** The instruction loop. */
    method RenameBlock(u: nat, renaming: array<Option<Value>>)
      requires Inv() && u < |pl.blocks| && u != pl.recover
      requires Fits(pl, renaming[..], pl.Ren(u, 0)) && LoadsReady(pl, loads, u, 0)
      requires Untouched(pl, loads, gone, u)
      modifies this`code, this`phis, this`refs, this`loads, this`gone, renaming
      ensures Inv() && Fits(pl, renaming[..], pl.RenOut(u))
      ensures phis == old(phis)
      ensures Through(pl, old(loads), loads, old(gone), gone, u, |pl.blocks[u]|)
    {
      var i, n := 0, |pl.blocks[u]|;
      while i < n
        invariant Inv() && 0 <= i <= n && phis == old(phis)
        invariant Fits(pl, renaming[..], pl.Ren(u, i))
        invariant Through(pl, old(loads), loads, old(gone), gone, u, i)
      {
        RenameNext(u, i, renaming, old(loads), old(gone));
        i := i + 1;
      }
    }

    /** predIndex, as a loop. */
    method FindPred(v: nat, u: nat) returns (i: nat)
      requires v < |pl.g.preds| && u in pl.g.preds[v]
      ensures i < |pl.g.preds[v]| && i == PredIndex(pl.g.preds[v], u)
    {
      i := 0;
      while pl.g.preds[v][i] != u
        invariant i < |pl.g.preds[v]| && u in pl.g.preds[v][i..]
        invariant PredIndex(pl.g.preds[v], u) == i + PredIndex(pl.g.preds[v][i..], u)
        decreases |pl.g.preds[v]| - i
      {
        assert pl.g.preds[v][i..][1..] == pl.g.preds[v][i + 1..];
        i := i + 1;
      }
    }

    /** For one successor v of u: set the edge from u of each new phi of v. */
    method SetEdges(u: nat, v: nat, renaming: array<Option<Value>>)
      requires pl.Valid() && u < |pl.idom| && u != pl.recover && v < |phis| == |pl.idom| && u in pl.g.preds[v]
      requires Fits(pl, renaming[..], pl.RenOut(u)) && ListsOk()
      requires forall m :: 0 <= m < |phis[v]| ==> EdgesBut(pl, phis[v][m], done, v, u)
      modifies this`phis, this`refs, renaming
      ensures Fits(pl, renaming[..], pl.RenOut(u)) && ListsOk() && |phis| == |old(phis)| && SameCells(old(phis)[v], phis[v])
      ensures forall w :: 0 <= w < |phis| && w != v ==> phis[w] == old(phis)[w]
      ensures forall m :: 0 <= m < |phis[v]| ==> EdgesOk(pl, phis[v][m], done + {u}, v)
    {
      var i := FindPred(v, u);
      var m := 0;
      while m < |phis[v]|
        invariant |phis| == |old(phis)| && 0 <= m <= |phis[v]| && SameCells(old(phis)[v], phis[v])
        invariant Fits(pl, renaming[..], pl.RenOut(u)) && ListsOk()
        invariant forall w :: 0 <= w < |phis| && w != v ==> phis[w] == old(phis)[w]
        invariant forall x :: m <= x < |phis[v]| ==> phis[v][x] == old(phis)[v][x]
        invariant forall x :: 0 <= x < m ==> EdgesOk(pl, phis[v][x], done + {u}, v)
      {
        var np := phis[v][m];
        assert EdgesBut(pl, np, done, v, u);
        var newval := Renamed(pl, renaming, np.k, pl.RenOut(u));
        EdgeSet(pl, np, done, v, u, i);
        RenIsNoCell(pl, u, np.k);
        ghost var was := refs;
        refs := AddUser(refs, PhiOf(v, np.k), newval);
        EdgeSetOk(Cells(pl), code, phis, was, refs, v, m, i, newval);
        var np' := NewPhi(np.k, np.edges[i := Some(newval)]);
        phis := phis[v := phis[v][m := np']];
        m := m + 1;
      }
    }

    /** One turn of the loop over the successors of u; the successors in ss are done. */
    method NextSuccessor(u: nat, v: nat, renaming: array<Option<Value>>, ghost ss: seq<nat>)
      requires pl.Valid() && u < |pl.idom| && u != pl.recover && v < |phis| == |pl.idom| && u in pl.g.preds[v] && ListsOk()
      requires Fits(pl, renaming[..], pl.RenOut(u)) && AllBut(pl, phis, done, u) && OkIn(pl, phis, done + {u}, ss)
      modifies this`phis, this`refs, renaming
      ensures Fits(pl, renaming[..], pl.RenOut(u)) && AllBut(pl, phis, done, u) && OkIn(pl, phis, done + {u}, ss + [v])
      ensures ListsOk() && AllSameCells(old(phis), phis)
    {
      SetEdges(u, v, renaming);
      forall w, m | 0 <= w < |phis| && 0 <= m < |phis[w]| ensures EdgesBut(pl, phis[w][m], done, w, u) {
        if w == v {
          ButFromOk(pl, phis[w][m], done, done + {u}, w, u);
        } else {
          assert EdgesBut(pl, old(phis)[w][m], done, w, u);
        }
      }
    }

    /** The loop over the successors of u. */
    method VisitSuccessors(u: nat, renaming: array<Option<Value>>)
      requires pl.Valid() && u < |pl.idom| && u != pl.recover && |phis| == |pl.idom| && ListsOk()
      requires Fits(pl, renaming[..], pl.RenOut(u)) && AllBut(pl, phis, done, u)
      modifies this`phis, this`refs, renaming
      ensures Fits(pl, renaming[..], pl.RenOut(u)) && AllBut(pl, phis, done, u) && OkIn(pl, phis, done + {u}, pl.g.succs[u])
      ensures ListsOk() && AllSameCells(old(phis), phis)
    {
      var s := pl.g.succs[u];
      var n := 0;
      while n < |s|
        invariant 0 <= n <= |s| && |phis| == |pl.idom| && ListsOk() && AllSameCells(old(phis), phis)
        invariant Fits(pl, renaming[..], pl.RenOut(u)) && AllBut(pl, phis, done, u) && OkIn(pl, phis, done + {u}, s[..n])
      {
        var v := s[n];
        assert v in s && s[..n + 1] == s[..n] + [v];
        ghost var was := phis;
        NextSuccessor(u, v, renaming, s[..n]);
        SameCellsOn(old(phis), was, phis);
        n := n + 1;
      }
      assert s[..n] == s;
    }

    /** The edges from u are set in every successor; each phi joins the list of its new operand. */
    method RenameEdges(u: nat, renaming: array<Option<Value>>)
      requires Inv() && u < |pl.idom| && u != pl.recover && u !in done && Fits(pl, renaming[..], pl.RenOut(u))
      modifies this`phis, this`refs, this`done, renaming
      ensures Inv() && Fits(pl, renaming[..], pl.RenOut(u)) && done == old(done) + {u} && AllSameCells(old(phis), phis)
    {
      BeforeEdges(pl, phis, done, u);
      VisitSuccessors(u, renaming);
      AfterEdges(pl, phis, done, u);
      done := done + {u};
    }

    /** Each new phi becomes the new name of its cell. */
    method NameByPhis(u: nat, renaming: array<Option<Value>>, ghost R: seq<Value>)
      requires Inv() && u < |pl.blocks| && Fits(pl, renaming[..], R) && PhisListed(pl, phis[u], u)
      modifies renaming
      ensures |R| == |pl.zeros| && Fits(pl, renaming[..], seq(|R|, k requires 0 <= k < |R| => if k in pl.phiAt[u] then PhiOf(u, k) else R[k]))
    {
      var m := 0;
      while m < |phis[u]|
        invariant 0 <= m <= |phis[u]| && renaming.Length == |R| == |pl.zeros|
        invariant forall k :: 0 <= k < |R| ==>
                    (if exists x :: 0 <= x < m && phis[u][x].k == k then renaming[k] == Some(PhiOf(u, k))
                     else R[k] == if renaming[k].Some? then renaming[k].value else Const(pl.zeros[k]))
      {
        assert EdgesOk(pl, phis[u][m], done, u);
        renaming[phis[u][m].k] := Some(PhiOf(u, phis[u][m].k));
        m := m + 1;
      }
    }

    /** The blocks in X, and no others, have been renamed since the given state. */
    ghost predicate Advanced(X: set<nat>, loads0: set<(nat, nat)>, gone0: set<(nat, nat)>, done0: set<nat>)
      reads this
    {
      && done == done0 + X
      && (forall b: nat, j: nat :: (b, j) in loads <==> (b, j) in loads0 || (b in X && pl.LiftedLoad(b, j)))
      && (forall b: nat, j: nat :: (b, j) in gone <==> (b, j) in gone0 || (b in X && pl.Deleted(b, j)))
    }

    /** The phis and the instructions of block u. */
    method RenameBody(u: nat, renaming: array<Option<Value>>)
      requires Inv() && u < |pl.idom| && u != pl.recover && PhisListed(pl, phis[u], u)
      requires Fits(pl, renaming[..], UpRen(pl, u)) && LoadsReady(pl, loads, u, 0) && Untouched(pl, loads, gone, u)
      modifies this`code, this`phis, this`refs, this`loads, this`gone, renaming
      ensures Inv() && Fits(pl, renaming[..], pl.RenOut(u)) && phis == old(phis)
      ensures forall b: nat, j: nat :: (b, j) in loads <==> (b, j) in old(loads) || (b in {u} && pl.LiftedLoad(b, j))
      ensures forall b: nat, j: nat :: (b, j) in gone <==> (b, j) in old(gone) || (b in {u} && pl.Deleted(b, j))
    {
      NameByPhis(u, renaming, UpRen(pl, u));
      assert Fits(pl, renaming[..], pl.Ren(u, 0));
      RenameBlock(u, renaming);
      ThroughAll(pl, old(loads), loads, old(gone), gone, u);
    }

    /** The part of rename before the recursion: block u itself. */
    method RenameOwn(u: nat, renaming: array<Option<Value>>)
      requires Inv() && u < |pl.idom| && u != pl.recover && u !in done && PhisListed(pl, phis[u], u)
      requires Fits(pl, renaming[..], UpRen(pl, u)) && LoadsReady(pl, loads, u, 0) && Untouched(pl, loads, gone, u)
      modifies this, renaming
      ensures Inv() && Fits(pl, renaming[..], pl.RenOut(u)) && Advanced({u}, old(loads), old(gone), old(done))
      ensures AllSameCells(old(phis), phis)
    {
      RenameBody(u, renaming);
      RenameEdges(u, renaming);
    }

    ghost predicate AllListed()
      requires pl.Shaped()
      reads this
    {
      |phis| == |pl.phiAt| && forall v :: 0 <= v < |phis| ==> PhisListed(pl, phis[v], v)
    }

    /** No block of X has been renamed. */
    ghost predicate Fresh(X: set<nat>)
      reads this
    {
      forall b :: b in X ==> b !in done && Untouched(pl, loads, gone, b)
    }

    /** rename: the dominator subtree of u, in preorder. The array is used up. */
    method Rename(u: nat, renaming: array<Option<Value>>)
      requires Inv() && AllListed() && u < |pl.idom| && u != pl.recover
      requires Fits(pl, renaming[..], UpRen(pl, u)) && LoadsReady(pl, loads, u, 0)
      requires Fresh(Tree(pl.idom, DomRank(pl.g), u))
      modifies this, renaming
      ensures Inv() && AllListed() && Advanced(Tree(pl.idom, DomRank(pl.g), u), old(loads), old(gone), old(done))
      decreases |pl.idom| - DomRank(pl.g)[u]
    {
      assert u in Tree(pl.idom, DomRank(pl.g), u);
      RenameOwn(u, renaming);
      ListedAgain(pl, old(phis), phis);
      ghost var rank := DomRank(pl.g);
      var cs := pl.children[u];
      var n := 0;
      while n < |cs|
        invariant 0 <= n <= |cs| && Inv() && AllListed()
        invariant Advanced({u} + Trees(pl.idom, rank, cs[..n]), old(loads), old(gone), old(done))
        invariant n < |cs| ==> Fits(pl, renaming[..], pl.RenOut(u))
      {
        RenameChild(u, n, renaming, old(loads), old(gone), old(done));
        n := n + 1;
      }
      assert cs[..n] == cs;
      TreeOfChildren(pl.idom, rank, u, cs);
    }

    /** One turn of the loop over the children: all but the last get a copy of the array. */
    method RenameChild(u: nat, n: nat, renaming: array<Option<Value>>,
                       ghost loads0: set<(nat, nat)>, ghost gone0: set<(nat, nat)>, ghost done0: set<nat>)
      requires Inv() && AllListed() && u < |pl.idom| && u != pl.recover && n < |pl.children[u]|
      requires Fits(pl, renaming[..], pl.RenOut(u)) && LoadsReady(pl, loads0, u, 0)
      requires Advanced({u} + Trees(pl.idom, DomRank(pl.g), pl.children[u][..n]), loads0, gone0, done0)
      requires forall b :: b in Tree(pl.idom, DomRank(pl.g), u) ==> b !in done0 && Untouched(pl, loads0, gone0, b)
      modifies this, renaming
      ensures Inv() && AllListed()
      ensures Advanced({u} + Trees(pl.idom, DomRank(pl.g), pl.children[u][..n + 1]), loads0, gone0, done0)
      ensures n + 1 < |pl.children[u]| ==> renaming[..] == old(renaming[..])
      decreases |pl.idom| - DomRank(pl.g)[u], 0
    {
      ghost var rank, cs := DomRank(pl.g), pl.children[u][..n];
      var c := pl.children[u][n];
      ChildFacts(pl, u, n, c);
      var r := renaming;
      if n < |pl.children[u]| - 1 {
        r := new Option<Value>[renaming.Length](i requires 0 <= i < renaming.Length reads renaming => renaming[i]);
        assert r[..] == renaming[..];
      }
      ChildReady(pl, loads0, loads, u, c);
      ghost var loads1, gone1, done1 := loads, gone, done;
      ChildFresh(pl, loads0, loads, gone0, gone, done0, done, u, cs, c);
      Rename(c, r);
      TreesAppend(pl.idom, rank, cs, c);
      assert pl.children[u][..n + 1] == cs + [c];
    }
  }

  lemma ListedAgain(pl: Plan, phis: seq<seq<NewPhi>>, phis': seq<seq<NewPhi>>)
    requires |phis| == |phis'| == |pl.phiAt|
    requires forall v :: 0 <= v < |phis| ==> PhisListed(pl, phis[v], v) && SameCells(phis[v], phis'[v])
    ensures forall v :: 0 <= v < |phis| ==> PhisListed(pl, phis'[v], v)
  {
    forall v | 0 <= v < |phis| ensures PhisListed(pl, phis'[v], v) {
      assert PhisListed(pl, phis[v], v) && SameCells(phis[v], phis'[v]);
    }
  }

  lemma ChildFacts(pl: Plan, u: nat, n: nat, c: nat)
    requires pl.Valid() && u < |pl.idom| && u != pl.recover && n < |pl.children[u]| && c == pl.children[u][n]
    ensures c < |pl.idom| && pl.idom[c] == u && c != pl.recover && DomRank(pl.g)[u] < DomRank(pl.g)[c] <= |pl.idom|
    ensures UpRen(pl, c) == pl.RenOut(u)
    ensures c !in pl.children[u][..n] && forall d :: d in pl.children[u][..n] ==> d < |pl.idom| && pl.idom[d] == u
  {
    assert c in pl.children[u];
    assert Distinct(pl.children[u]);
    forall d | d in pl.children[u][..n] ensures d < |pl.idom| && pl.idom[d] == u {
      assert d in pl.children[u];
    }
  }

  /** What is available on entry to a child was available in u, and has been replaced. */
  lemma ChildReady(pl: Plan, loads0: set<(nat, nat)>, loads: set<(nat, nat)>, u: nat, c: nat)
    requires pl.Valid() && u < |pl.idom| && u != pl.recover && c < |pl.idom| && c != pl.recover && pl.idom[c] == u
    requires LoadsReady(pl, loads0, u, 0)
    requires forall b: nat, j: nat :: ((b, j) in loads0 || (b == u && pl.LiftedLoad(b, j))) ==> (b, j) in loads
    ensures LoadsReady(pl, loads, c, 0)
  {
    forall b: nat, j: nat | pl.LiftedLoad(b, j) && pl.Avail(b, j, c, 0) ensures (b, j) in loads {
      assert IsIdom(pl.g.EdgeSet(), 0, u, c);
      assert Dominates(pl.g.EdgeSet(), 0, b, u);
      assert b != u ==> pl.Avail(b, j, u, 0);
    }
  }

  /** The subtree of the next child is still untouched. */
  lemma ChildFresh(pl: Plan, loads0: set<(nat, nat)>, loads: set<(nat, nat)>, gone0: set<(nat, nat)>, gone: set<(nat, nat)>,
                   done0: set<nat>, done: set<nat>, u: nat, cs: seq<nat>, c: nat)
    requires pl.Valid() && u < |pl.idom| && c < |pl.idom| && pl.idom[c] == u && c !in cs
    requires forall d :: d in cs ==> d < |pl.idom| && pl.idom[d] == u
    requires forall b :: b in Tree(pl.idom, DomRank(pl.g), u) ==> b !in done0 && Untouched(pl, loads0, gone0, b)
    requires done == done0 + ({u} + Trees(pl.idom, DomRank(pl.g), cs))
    requires forall b: nat, j: nat :: (b, j) in loads ==> (b, j) in loads0 || b in {u} + Trees(pl.idom, DomRank(pl.g), cs)
    requires forall b: nat, j: nat :: (b, j) in gone ==> (b, j) in gone0 || b in {u} + Trees(pl.idom, DomRank(pl.g), cs)
    ensures forall b :: b in Tree(pl.idom, DomRank(pl.g), c) ==> b !in done && Untouched(pl, loads, gone, b)
  {
    var rank := DomRank(pl.g);
    SubtreesApart(pl.idom, rank, u, cs, c);
    forall b | b in Tree(pl.idom, rank, c) ensures b !in done && Untouched(pl, loads, gone, b) {
      assert b !in done0 && Untouched(pl, loads0, gone0, b);
    }
  }

  /** The renaming that block u inherits. */
  ghost function UpRen(pl: Plan, u: nat): (R: seq<Value>)
    requires pl.Shaped() && u < |pl.idom|
    ensures |R| == |pl.zeros|
  {
    if pl.idom[u] == NIL then pl.Zeros() else pl.RenOut(pl.idom[u])
  }

  /** The new phis xs and ys stand for the same cells. */
  ghost predicate SameCells(xs: seq<NewPhi>, ys: seq<NewPhi>) {
    |xs| == |ys| && forall m :: 0 <= m < |xs| ==> xs[m].k == ys[m].k
  }

  /** The edges of a new phi of v are right; the one from u may still be nil. */
  ghost predicate EdgesBut(pl: Plan, np: NewPhi, done: set<nat>, v: nat, u: nat)
    requires pl.Shaped()
  {
    && v < |pl.g.preds| && |np.edges| == |pl.g.preds[v]| && np.k < |pl.zeros|
    && forall e :: 0 <= e < |pl.g.preds[v]| ==>
         if pl.g.preds[v][e] == u then u < |pl.idom| && np.edges[e] in {None, Some(pl.RenOut(u)[np.k])} else EdgeOk(pl, np, done, v, e)
  }

  /** All new phis are right, except perhaps for the edges from u. */
  ghost predicate AllBut(pl: Plan, phis: seq<seq<NewPhi>>, done: set<nat>, u: nat)
    requires pl.Shaped()
  {
    forall w, m :: 0 <= w < |phis| && 0 <= m < |phis[w]| ==> EdgesBut(pl, phis[w][m], done, w, u)
  }

  /** The new phis of the blocks ss are right. */
  ghost predicate OkIn(pl: Plan, phis: seq<seq<NewPhi>>, done: set<nat>, ss: seq<nat>)
    requires pl.Shaped()
  {
    forall w, m :: 0 <= w < |phis| && 0 <= m < |phis[w]| && w in ss ==> EdgesOk(pl, phis[w][m], done, w)
  }

  ghost predicate AllSameCells(a: seq<seq<NewPhi>>, b: seq<seq<NewPhi>>) {
    |a| == |b| && forall v :: 0 <= v < |b| ==> SameCells(a[v], b[v])
  }

  lemma SameCellsOn(a: seq<seq<NewPhi>>, b: seq<seq<NewPhi>>, c: seq<seq<NewPhi>>)
    requires AllSameCells(a, b) && AllSameCells(b, c)
    ensures AllSameCells(a, c)
  {
    forall v | 0 <= v < |c| ensures SameCells(a[v], c[v]) {
      assert SameCells(a[v], b[v]) && SameCells(b[v], c[v]);
    }
  }

  lemma BeforeEdges(pl: Plan, phis: seq<seq<NewPhi>>, done: set<nat>, u: nat)
    requires pl.Shaped() && u !in done && forall w, m :: 0 <= w < |phis| && 0 <= m < |phis[w]| ==> EdgesOk(pl, phis[w][m], done, w)
    ensures AllBut(pl, phis, done, u)
  {
    forall w, m | 0 <= w < |phis| && 0 <= m < |phis[w]| ensures EdgesBut(pl, phis[w][m], done, w, u) {
      ButFromOk(pl, phis[w][m], done, done, w, u);
    }
  }

  lemma AfterEdges(pl: Plan, phis: seq<seq<NewPhi>>, done: set<nat>, u: nat)
    requires pl.Shaped() && u < |pl.idom| && |phis| == |pl.idom| && AllBut(pl, phis, done, u) && OkIn(pl, phis, done + {u}, pl.g.succs[u])
    ensures forall w, m :: 0 <= w < |phis| && 0 <= m < |phis[w]| ==> EdgesOk(pl, phis[w][m], done + {u}, w)
  {
    forall w, m | 0 <= w < |phis| && 0 <= m < |phis[w]| ensures EdgesOk(pl, phis[w][m], done + {u}, w) {
      if w !in pl.g.succs[u] { NotASuccessor(pl, phis[w][m], done, w, u); }
    }
  }

  lemma EdgeSet(pl: Plan, np: NewPhi, done: set<nat>, v: nat, u: nat, i: nat)
    requires pl.Valid() && u < |pl.idom| && EdgesBut(pl, np, done, v, u) && i < |pl.g.preds[v]| && pl.g.preds[v][i] == u
    ensures EdgesOk(pl, NewPhi(np.k, np.edges[i := Some(pl.RenOut(u)[np.k])]), done + {u}, v)
  {
    var np' := NewPhi(np.k, np.edges[i := Some(pl.RenOut(u)[np.k])]);
    assert Distinct(pl.g.preds[v]);
    forall e | 0 <= e < |pl.g.preds[v]| ensures EdgeOk(pl, np', done + {u}, v, e) {
      assert e != i ==> pl.g.preds[v][e] != u && EdgeOk(pl, np, done, v, e);
    }
  }

  lemma ButFromOk(pl: Plan, np: NewPhi, done: set<nat>, done': set<nat>, v: nat, u: nat)
    requires pl.Shaped() && done <= done' <= done + {u} && EdgesOk(pl, np, done', v)
    ensures EdgesBut(pl, np, done, v, u)
  {
    forall e | 0 <= e < |pl.g.preds[v]|
      ensures if pl.g.preds[v][e] == u then u < |pl.idom| && np.edges[e] in {None, Some(pl.RenOut(u)[np.k])} else EdgeOk(pl, np, done, v, e)
    {
      assert EdgeOk(pl, np, done', v, e);
    }
  }

  lemma NotASuccessor(pl: Plan, np: NewPhi, done: set<nat>, v: nat, u: nat)
    requires pl.Shaped() && u < |pl.idom| && v < |pl.idom| && v !in pl.g.succs[u] && EdgesBut(pl, np, done, v, u)
    ensures EdgesOk(pl, np, done + {u}, v)
  {
    forall e | 0 <= e < |pl.g.preds[v]| ensures EdgeOk(pl, np, done + {u}, v, e) {
      assert pl.g.preds[v][e] in pl.g.preds[v] && pl.g.preds[v][e] != u;
    }
  }

  /** No instruction of block u has been renamed yet. */
  ghost predicate Untouched(pl: Plan, loads: set<(nat, nat)>, gone: set<(nat, nat)>, u: nat) {
    forall i: nat :: (u, i) !in loads && (u, i) !in gone
  }

  /** The first i instructions of block u have been renamed, and nothing else. */
  ghost predicate Through(pl: Plan, loads: set<(nat, nat)>, loads': set<(nat, nat)>, gone: set<(nat, nat)>, gone': set<(nat, nat)>, u: nat, i: nat) {
    && (forall b: nat, j: nat :: (b, j) in loads' <==> (b, j) in loads || (b == u && j < i && pl.LiftedLoad(b, j)))
    && (forall b: nat, j: nat :: (b, j) in gone' <==> (b, j) in gone || (b == u && j < i && pl.Deleted(b, j)))
  }

  lemma ThroughNext(pl: Plan, loads0: set<(nat, nat)>, loads: set<(nat, nat)>, loads': set<(nat, nat)>,
                    gone0: set<(nat, nat)>, gone: set<(nat, nat)>, gone': set<(nat, nat)>, u: nat, i: nat)
    requires Through(pl, loads0, loads, gone0, gone, u, i)
    requires loads' == loads + (if pl.LiftedLoad(u, i) then {(u, i)} else {})
    requires gone' == gone + (if pl.Deleted(u, i) then {(u, i)} else {})
    ensures Through(pl, loads0, loads', gone0, gone', u, i + 1)
  {
  }

  lemma ThroughAll(pl: Plan, loads: set<(nat, nat)>, loads': set<(nat, nat)>, gone: set<(nat, nat)>, gone': set<(nat, nat)>, u: nat)
    requires u < |pl.blocks| && Through(pl, loads, loads', gone, gone', u, |pl.blocks[u]|)
    ensures forall b: nat, j: nat :: (b, j) in loads' <==> (b, j) in loads || (b in {u} && pl.LiftedLoad(b, j))
    ensures forall b: nat, j: nat :: (b, j) in gone' <==> (b, j) in gone || (b in {u} && pl.Deleted(b, j))
  {
  }

  lemma ReadyThrough(pl: Plan, loads: set<(nat, nat)>, loads': set<(nat, nat)>, gone: set<(nat, nat)>, gone': set<(nat, nat)>, u: nat, i: nat)
    requires LoadsReady(pl, loads, u, 0) && Through(pl, loads, loads', gone, gone', u, i)
    ensures LoadsReady(pl, loads', u, i)
  {
    forall b: nat, j: nat | pl.LiftedLoad(b, j) && pl.Avail(b, j, u, i) ensures (b, j) in loads' {
      assert b != u ==> pl.Avail(b, j, u, 0);
    }
  }

  /** The new phis of block u are those of phiAt, each once. */
  ghost predicate PhisListed(pl: Plan, phis: seq<NewPhi>, u: nat)
    requires u < |pl.phiAt|
  {
    && (forall k :: k in pl.phiAt[u] <==> exists m :: 0 <= m < |phis| && phis[m].k == k)
    && DistinctPhis(phis)
  }

  /** Replacing loads neither hides nor creates a use of a cell. */
  lemma CellKept(pl: Plan, loads: set<(nat, nat)>, v: Value)
    requires pl.Valid() && LoadsOk(pl, loads)
    ensures pl.IsCell(v) ==> PartSub(pl, loads, v) == v
    ensures pl.IsCell(PartSub(pl, loads, v)) ==> pl.IsCell(v)
  {
    if v.Reg? && (v.b, v.j) in loads {
      RenReady(pl, v.b, v.j, pl.Cell(pl.blocks[v.b][v.j].addr));
    }
  }

  lemma FitsUpdate(pl: Plan, r: seq<Option<Value>>, R: seq<Value>, k: nat, val: Option<Value>)
    requires Fits(pl, r, R) && k < |r|
    ensures Fits(pl, r[k := val], R[k := if val.Some? then val.value else Const(pl.zeros[k])])
  {
  }

  /** What the pass reads from the slot of instruction (u, i), and how the renaming moves across it. */
  lemma SlotFacts(pl: Plan, loads: set<(nat, nat)>, u: nat, i: nat)
    requires pl.Valid() && pl.At(u, i) && u != pl.recover && LoadsOk(pl, loads) && LoadsReady(pl, loads, u, i)
    ensures pl.LiftedAlloc(u, i) <==> pl.blocks[u][i].Alloc? && (u, i) in pl.index
    ensures pl.blocks[u][i].Load? ==> (pl.IsCell(PartSub(pl, loads, pl.blocks[u][i].addr)) <==> pl.LiftedLoad(u, i))
    ensures pl.blocks[u][i].Store? ==> (pl.IsCell(PartSub(pl, loads, pl.blocks[u][i].addr)) <==> pl.LiftedStore(u, i))
    ensures pl.LiftedLoad(u, i) || pl.LiftedStore(u, i) ==> PartSub(pl, loads, pl.blocks[u][i].addr) == pl.blocks[u][i].addr
    ensures pl.LiftedStore(u, i) ==>
              pl.Ren(u, i + 1) == pl.Ren(u, i)[pl.Cell(pl.blocks[u][i].addr) := PartSub(pl, loads, pl.blocks[u][i].val)]
    ensures pl.LiftedAlloc(u, i) ==> pl.Ren(u, i + 1) == pl.Ren(u, i)[pl.index[(u, i)] := Const(pl.zeros[pl.index[(u, i)]])]
    ensures !pl.LiftedStore(u, i) && !pl.LiftedAlloc(u, i) ==> pl.Ren(u, i + 1) == pl.Ren(u, i)
  {
    if pl.blocks[u][i].Load? || pl.blocks[u][i].Store? {
      CellKept(pl, loads, pl.blocks[u][i].addr);
    }
    if pl.LiftedStore(u, i) {
      StoreValue(pl, loads, u, i);
    }
  }

  /** The value of a store has been replaced by the time the store is renamed. */
  lemma StoreValue(pl: Plan, loads: set<(nat, nat)>, u: nat, i: nat)
    requires pl.Valid() && u < |pl.idom| && u != pl.recover && pl.LiftedStore(u, i)
    requires LoadsOk(pl, loads) && LoadsReady(pl, loads, u, i)
    ensures PartSub(pl, loads, pl.blocks[u][i].val) == pl.Sub(pl.blocks[u][i].val)
    ensures pl.Ren(u, i + 1) == pl.Ren(u, i)[pl.Cell(pl.blocks[u][i].addr) := pl.Sub(pl.blocks[u][i].val)]
  {
    assert pl.UsesOk(u, i);
    StoredReady(pl, u, i, pl.blocks[u][i].val);
  }

  lemma NothingReplaced(pl: Plan, ins: Instr)
    requires pl.Shaped()
    ensures PartInstr(pl, {}, ins) == ins
  {
    match ins
    case Alloc(_) =>
    case Load(_) =>
    case Store(_, _) =>
    case Phi(edges) => assert PartSubAll(pl, {}, edges) == edges;
    case Op(args) => assert PartSubAll(pl, {}, args) == args;
  }

  // ----- the whole pass -----

  /** Once every load of a cell outside recover is replaced, an instruction has its final form. */
  lemma AllReplaced(pl: Plan, loads: set<(nat, nat)>, u: nat, i: nat)
    requires pl.Valid() && pl.At(u, i) && u != pl.recover
    requires forall b: nat, j: nat :: (b, j) in loads <==> b < |pl.idom| && b != pl.recover && pl.LiftedLoad(b, j)
    ensures PartInstr(pl, loads, pl.blocks[u][i]) == pl.SubInstr(pl.blocks[u][i])
  {
    assert pl.UsesOk(u, i);
    match pl.blocks[u][i]
    case Alloc(_) =>
    case Load(a) => OperandReplaced(pl, loads, a, u, i);
    case Store(a, v) => OperandReplaced(pl, loads, a, u, i); OperandReplaced(pl, loads, v, u, i);
    case Phi(edges) =>
      forall e | 0 <= e < |edges| ensures PartSub(pl, loads, edges[e]) == pl.Sub(edges[e]) {
        var p := pl.g.preds[u][e];
        assert p in pl.g.preds[u];
        NotRecover(pl.g, pl.recover, pl.idom, pl.children, p, u);
        OperandReplaced(pl, loads, edges[e], p, |pl.blocks[p]|);
      }
      assert PartSubAll(pl, loads, edges) == pl.SubAll(edges);
    case Op(args) =>
      forall a | 0 <= a < |args| ensures PartSub(pl, loads, args[a]) == pl.Sub(args[a]) {
        OperandReplaced(pl, loads, args[a], u, i);
      }
      assert PartSubAll(pl, loads, args) == pl.SubAll(args);
  }

  lemma OperandReplaced(pl: Plan, loads: set<(nat, nat)>, v: Value, u: nat, i: nat)
    requires pl.Valid() && u < |pl.idom| && u != pl.recover && (pl.IsCell(v) || pl.Usable(v, u, i))
    requires forall b: nat, j: nat :: (b, j) in loads <==> b < |pl.idom| && b != pl.recover && pl.LiftedLoad(b, j)
    ensures PartSub(pl, loads, v) == pl.Sub(v)
  {
    if v.Reg? && pl.LiftedLoad(v.b, v.j) {
      assert pl.IsCell(v) ==> pl.LiftedAlloc(v.b, v.j);
      if v.b != u { StrictRank(pl, v.b, u); }
    }
  }

  /** Lifting keeps every phi that was there, and adds no two for the same cell to a block. */
  ghost predicate PhisKept(pl: Plan, L: Lifted) {
    && |L.code| == |L.phis| == |pl.blocks|
    && (forall b :: 0 <= b < |L.phis| ==> |L.code[b]| == |pl.blocks[b]| && DistinctPhis(L.phis[b]))
    && (forall b, j :: 0 <= b < |L.code| && 0 <= j < |L.code[b]| ==> PhiKept(pl, L, b, j))
  }

  ghost predicate PhiKept(pl: Plan, L: Lifted, b: nat, j: nat)
    requires b < |L.code| && j < |L.code[b]|
  {
    pl.At(b, j) && (pl.blocks[b][j].Phi? <==> L.code[b][j].Some? && L.code[b][j].value.Phi?)
  }

  /** Renaming the whole function yields its lifted form. */
  method RenameFunction(pl: Plan, phis: seq<seq<NewPhi>>, refs: Refs) returns (L: Lifted, refs': Refs)
    requires pl.Valid() && |phis| == |pl.blocks| && IsReferrers(pl.blocks, refs)
    requires forall v, m :: 0 <= v < |phis| && 0 <= m < |phis[v]| ==>
               phis[v][m].k < |pl.zeros| && phis[v][m].edges == seq(|pl.g.preds[v]|, _ => None)
    requires forall v :: 0 <= v < |phis| ==> PhisListed(pl, phis[v], v)
    ensures IsLifted(pl, L) && PhisKept(pl, L)
    ensures RefsOk(Cells(pl), L.code, L.phis, refs')
  {
    var lifter := new Lifter(pl, phis, refs);
    var renaming := new Option<Value>[|pl.zeros|](_ => None);
    ForestOfTwo(pl.g, pl.recover, pl.idom, pl.children);
    assert LoadsReady(pl, {}, 0, 0) by {
      forall b: nat, j: nat ensures !pl.Avail(b, j, 0, 0) {
        EntryHasNoStrictDominator(pl.g, b);
      }
    }
    lifter.Rename(0, renaming);
    L, refs' := Lifted(lifter.code, lifter.phis), lifter.refs;
    AllLifted(pl, L, lifter.loads, lifter.gone, lifter.done);
  }

  lemma AllLifted(pl: Plan, L: Lifted, loads: set<(nat, nat)>, gone: set<(nat, nat)>, done: set<nat>)
    requires pl.Valid() && |L.code| == |L.phis| == |pl.blocks|
    requires forall b :: 0 <= b < |L.code| ==> |L.code[b]| == |pl.blocks[b]|
    requires forall b, j :: pl.At(b, j) ==> SlotOk(pl, L.code, loads, gone, b, j)
    requires forall v, m :: 0 <= v < |L.phis| && 0 <= m < |L.phis[v]| ==> EdgesOk(pl, L.phis[v][m], done, v)
    requires forall v :: 0 <= v < |L.phis| ==> PhisListed(pl, L.phis[v], v)
    requires forall b: nat :: b in done <==> b < |pl.idom| && b != pl.recover
    requires forall b: nat, j: nat :: (b, j) in loads <==> b in done && pl.LiftedLoad(b, j)
    requires forall b: nat, j: nat :: (b, j) in gone <==> b in done && pl.Deleted(b, j)
    ensures IsLifted(pl, L) && PhisKept(pl, L)
  {
    forall b, j | 0 <= b < |L.code| && 0 <= j < |L.code[b]| ensures PhiKept(pl, L, b, j) {
      assert SlotOk(pl, L.code, loads, gone, b, j);
    }
    forall b | 0 <= b < |L.phis| ensures DistinctPhis(L.phis[b]) {
      assert PhisListed(pl, L.phis[b], b);
    }
    forall u | 0 <= u < |L.code| && u != pl.recover ensures BlockLifted(pl, L, u) {
      forall i | 0 <= i < |L.code[u]|
        ensures L.code[u][i] == if pl.Deleted(u, i) then None else Some(pl.SubInstr(pl.blocks[u][i]))
      {
        assert SlotOk(pl, L.code, loads, gone, u, i);
        AllReplaced(pl, loads, u, i);
      }
      forall m | 0 <= m < |L.phis[u]| ensures EdgesLifted(pl, L.phis[u][m], u) {
        PhiComplete(pl, L.phis[u][m], done, u);
      }
      assert PhisListed(pl, L.phis[u], u);
    }
  }

  lemma PhiComplete(pl: Plan, np: NewPhi, done: set<nat>, u: nat)
    requires pl.Valid() && u < |pl.idom| && EdgesOk(pl, np, done, u)
    requires forall b: nat :: b in done <==> b < |pl.idom| && b != pl.recover
    ensures EdgesLifted(pl, np, u)
  {
    forall e | 0 <= e < |pl.g.preds[u]|
      ensures pl.g.preds[u][e] < |pl.idom| && np.edges[e] == Some(pl.RenOut(pl.g.preds[u][e])[np.k])
    {
      assert EdgeOk(pl, np, done, u, e);
      var p := pl.g.preds[u][e];
      assert p in pl.g.preds[u];
      NotRecover(pl.g, pl.recover, pl.idom, pl.children, p, u);
    }
  }
}
