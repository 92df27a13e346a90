/** The passes of finishBody in sequence: what the block optimizations leave is what the dominator
    tree is built for, and the tree and the referrer lists are what lifting needs. */
module Pipeline {
  import opened Paths
  import opened Flowgraphs
  import Cfgs
  import BlockOpt
  import LengauerTarjan
  import DomTrees
  import DomFrontiers
  import Lifting
  import Referrers
  import DeadPhis
  import LiftFunction

  /** The places of blocks in the list. */
  function Places(index: seq<int>, bs: seq<nat>): (r: seq<nat>)
    requires forall k :: 0 <= k < |bs| ==> bs[k] < |index| && index[bs[k]] >= 0
    ensures |r| == |bs| && forall k :: 0 <= k < |bs| ==> r[k] == index[bs[k]]
  {
    seq(|bs|, k requires 0 <= k < |bs| => index[bs[k]])
  }

  /** The blocks are exactly those listed, each at its place. */
  ghost predicate AtPlaces(blocks: seq<int>, index: seq<int>) {
    BlockOpt.Listed(blocks, index) && forall i :: 0 <= i < |blocks| ==> 0 <= blocks[i] < |index|
  }

  ghost predicate Optimized(g: Cfgs.Cfg, blocks: seq<int>, index: seq<int>, roots: set<nat>, entry: nat) {
    && Cfgs.WellFormed(g, BlockOpt.LiveOf(blocks), roots, entry) && Cfgs.AllReached(g, BlockOpt.LiveOf(blocks), roots)
    && AtPlaces(blocks, index) && blocks != [] && blocks[0] == entry && |index| == |g.instrs|
  }

  lemma PlaceOf(blocks: seq<int>, index: seq<int>, x: nat)
    requires AtPlaces(blocks, index) && x in BlockOpt.LiveOf(blocks)
    ensures x < |index| && 0 <= index[x] < |blocks| && blocks[index[x]] == x
  {
    var i :| 0 <= i < |blocks| && blocks[i] == x;
  }

  /** The edges of a listed block lead to listed blocks. */
  lemma EdgesListed(g: Cfgs.Cfg, blocks: seq<int>, index: seq<int>, roots: set<nat>, entry: nat, u: nat)
    requires Optimized(g, blocks, index, roots, entry) && u in BlockOpt.LiveOf(blocks)
    ensures u < |g.succs| == |g.preds| && Cfgs.Dual(g, BlockOpt.LiveOf(blocks), u)
    ensures forall k :: 0 <= k < |g.succs[u]| ==> g.succs[u][k] in g.succs[u] && g.succs[u][k] < |index| && 0 <= index[g.succs[u][k]] < |blocks|
    ensures forall k :: 0 <= k < |g.preds[u]| ==> g.preds[u][k] in g.preds[u] && g.preds[u][k] < |index| && 0 <= index[g.preds[u][k]] < |blocks|
  {
    assert Cfgs.Dual(g, BlockOpt.LiveOf(blocks), u);
    forall k | 0 <= k < |g.succs[u]| ensures g.succs[u][k] < |index| && 0 <= index[g.succs[u][k]] < |blocks| {
      assert g.succs[u][k] in g.succs[u];
      PlaceOf(blocks, index, g.succs[u][k]);
    }
    forall k | 0 <= k < |g.preds[u]| ensures g.preds[u][k] < |index| && 0 <= index[g.preds[u][k]] < |blocks| {
      assert g.preds[u][k] in g.preds[u];
      PlaceOf(blocks, index, g.preds[u][k]);
    }
  }

  /** F is the graph g on the places of its blocks. */
  ghost predicate OnPlaces(g: Cfgs.Cfg, blocks: seq<int>, index: seq<int>, F: Flowgraph) {
    && |F.succs| == |F.preds| == |blocks|
    && forall i :: 0 <= i < |blocks| ==> PlaceOk(g, blocks, index, F, i)
  }

  ghost predicate PlaceOk(g: Cfgs.Cfg, blocks: seq<int>, index: seq<int>, F: Flowgraph, i: nat) {
    && i < |blocks| && i < |F.succs| && i < |F.preds| && 0 <= blocks[i] < |g.succs| && blocks[i] < |g.preds|
    && SamePlaces(index, g.succs[blocks[i]], F.succs[i]) && SamePlaces(index, g.preds[blocks[i]], F.preds[i])
  }

  ghost predicate SamePlaces(index: seq<int>, bs: seq<nat>, r: seq<nat>) {
    |r| == |bs| && forall k :: 0 <= k < |bs| ==> bs[k] < |index| && r[k] == index[bs[k]]
  }

  lemma Carried(index: seq<int>, bs: seq<nat>, r: seq<nat>, x: nat)
    requires SamePlaces(index, bs, r) && x in bs
    ensures x < |index| && index[x] in r
  {
    var k :| 0 <= k < |bs| && bs[k] == x;
    assert r[k] == index[x];
  }

  /** An edge on places comes from an edge between the blocks there. */
  lemma EdgeBack(g: Cfgs.Cfg, blocks: seq<int>, index: seq<int>, roots: set<nat>, entry: nat, F: Flowgraph, i: nat, j: nat)
    requires Optimized(g, blocks, index, roots, entry) && OnPlaces(g, blocks, index, F) && i < |blocks|
    ensures j in F.succs[i] ==> j < |blocks| && blocks[j] in g.succs[blocks[i]]
    ensures j in F.preds[i] ==> j < |blocks| && blocks[j] in g.preds[blocks[i]]
  {
    assert PlaceOk(g, blocks, index, F, i);
    assert blocks[i] in BlockOpt.LiveOf(blocks);
    EdgesListed(g, blocks, index, roots, entry, blocks[i]);
    if j in F.succs[i] {
      var k :| 0 <= k < |F.succs[i]| && F.succs[i][k] == j;
      PlaceOf(blocks, index, g.succs[blocks[i]][k]);
    }
    if j in F.preds[i] {
      var k :| 0 <= k < |F.preds[i]| && F.preds[i][k] == j;
      PlaceOf(blocks, index, g.preds[blocks[i]][k]);
    }
  }

  lemma PlacesValid(g: Cfgs.Cfg, blocks: seq<int>, index: seq<int>, roots: set<nat>, entry: nat, F: Flowgraph)
    requires Optimized(g, blocks, index, roots, entry) && OnPlaces(g, blocks, index, F)
    ensures F.Valid()
  {
    forall i, j: nat | 0 <= i < |blocks| ensures j in F.succs[i] ==> j < |blocks| && i in F.preds[j] {
      EdgeBack(g, blocks, index, roots, entry, F, i, j);
      if j in F.succs[i] {
        assert blocks[i] in BlockOpt.LiveOf(blocks);
        EdgesListed(g, blocks, index, roots, entry, blocks[i]);
        assert PlaceOk(g, blocks, index, F, j);
        Carried(index, g.preds[blocks[j]], F.preds[j], blocks[i]);
      }
    }
    forall i, j: nat | 0 <= i < |blocks| ensures j in F.preds[i] ==> j < |blocks| && i in F.succs[j] {
      EdgeBack(g, blocks, index, roots, entry, F, i, j);
      if j in F.preds[i] {
        assert blocks[i] in BlockOpt.LiveOf(blocks);
        EdgesListed(g, blocks, index, roots, entry, blocks[i]);
        assert PlaceOk(g, blocks, index, F, j);
        Carried(index, g.succs[blocks[j]], F.succs[j], blocks[i]);
      }
    }
    forall i | 0 <= i < |blocks| ensures AllBelow(F.succs[i], |blocks|) && AllBelow(F.preds[i], |blocks|) {
      forall k | 0 <= k < |F.succs[i]| ensures F.succs[i][k] < |blocks| {
        EdgeBack(g, blocks, index, roots, entry, F, i, F.succs[i][k]);
      }
      forall k | 0 <= k < |F.preds[i]| ensures F.preds[i][k] < |blocks| {
        EdgeBack(g, blocks, index, roots, entry, F, i, F.preds[i][k]);
      }
    }
  }

  /** The blocks that the entry reaches on places, with the recover block, are all blocks. */
  lemma PlacesReached(g: Cfgs.Cfg, blocks: seq<int>, index: seq<int>, roots: set<nat>, entry: nat, recover: int, F: Flowgraph, v: nat)
    requires Optimized(g, blocks, index, roots, entry) && OnPlaces(g, blocks, index, F) && F.Valid()
    requires roots == (if recover >= 0 then {entry, recover as nat} else {entry}) && v < |blocks| && blocks[v] != recover
    ensures Reaches(F.EdgeSet(), 0, v)
  {
    var live, E := BlockOpt.LiveOf(blocks), F.EdgeSet();
    var S := set x | x in live && (x == recover || (x < |index| && 0 <= index[x] && Reaches(E, 0, index[x])));
    PlaceOf(blocks, index, entry);
    ReachesSelf(E, 0);
    assert index[entry] == 0;
    forall x: nat, y: nat | x in S && x in live && x < |g.succs| && y in g.succs[x] ensures y in S {
      EdgesListed(g, blocks, index, roots, entry, x);
      PlaceOf(blocks, index, x);
      PlaceOf(blocks, index, y);
      assert PlaceOk(g, blocks, index, F, index[x]);
      Carried(index, g.succs[x], F.succs[index[x]], y);
      assert (index[x] as nat, index[y] as nat) in E;
      ReachesEdge(E, index[x], index[y]);
      if x != recover { ReachesTransitive(E, 0, index[x], index[y]); }
    }
    assert Cfgs.Closed(g, live, roots, S);
    assert blocks[v] in live;
  }

  /** The place of the recover block, or NIL. */
  function RecoverPlace(index: seq<int>, recover: int): (r: int) {
    if 0 <= recover < |index| then index[recover] else NIL
  }

  /** An optimized function has the shape that the dominator tree is built for. */
  lemma OptimizedIsBuildable(g: Cfgs.Cfg, blocks: seq<int>, index: seq<int>, roots: set<nat>, entry: nat, recover: int, F: Flowgraph)
    requires Optimized(g, blocks, index, roots, entry) && OnPlaces(g, blocks, index, F)
    requires roots == (if recover >= 0 then {entry, recover as nat} else {entry}) && recover != entry && (recover >= 0 || recover == NIL)
    ensures LengauerTarjan.Buildable(F, RecoverPlace(index, recover)) && F.preds[0] == []
  {
    PlacesValid(g, blocks, index, roots, entry, F);
    PlaceOf(blocks, index, entry);
    assert PlaceOk(g, blocks, index, F, 0);
    if recover >= 0 {
      PlaceOf(blocks, index, recover);
      assert PlaceOk(g, blocks, index, F, index[recover]);
    }
    forall v | 0 <= v < |F.succs| && v != RecoverPlace(index, recover) ensures Reaches(F.EdgeSet(), 0, v) {
      assert blocks[v] in BlockOpt.LiveOf(blocks);
      PlaceOf(blocks, index, blocks[v]);
      PlacesReached(g, blocks, index, roots, entry, recover, F, v);
    }
  }

  /** optimizeBlocks followed by buildDomTree. */
  method OptimizeAndDominate(f: BlockOpt.Func) returns (F: Flowgraph, idom: seq<int>, children: seq<seq<nat>>)
    requires f.Ready() && (forall i :: 0 <= i < |f.blocks| ==> f.blocks[i] >= 0) && f.recover != f.entry && f.recover >= NIL
    modifies f
    ensures f.Valid() && Cfgs.SameHistories(old(f.Graph()), f.Graph(), f.Roots())
    ensures OnPlaces(f.Graph(), f.blocks, f.index, F) && LengauerTarjan.IsDomTree(F, RecoverPlace(f.index, f.recover), idom, children)
  {
    f.OptimizeBlocks();
    ghost var g := f.Graph();
    OptimizedFacts(g, f.blocks, f.index, f.Roots(), f.entry);
    var blocks, index, succs, preds := f.blocks, f.index, f.succs, f.preds;
    ghost var roots := f.Roots();
    var ss: seq<seq<nat>>, ps: seq<seq<nat>> := [], [];
    for i := 0 to |blocks|
      invariant |ss| == |ps| == i && f.Graph() == g && f.blocks == blocks && f.index == index
      invariant forall j :: 0 <= j < i ==> PlaceOk(g, blocks, index, Flowgraph(ss, ps), j)
    {
      assert blocks[i] in BlockOpt.LiveOf(blocks);
      EdgesListed(g, blocks, index, roots, f.entry, blocks[i]);
      ghost var before := Flowgraph(ss, ps);
      ss := ss + [Places(index, succs[blocks[i]])];
      ps := ps + [Places(index, preds[blocks[i]])];
      forall j | 0 <= j < i ensures PlaceOk(g, blocks, index, Flowgraph(ss, ps), j) {
        assert PlaceOk(g, blocks, index, before, j);
      }
    }
    F := Flowgraph(ss, ps);
    OptimizedIsBuildable(g, f.blocks, f.index, f.Roots(), f.entry, f.recover, F);
    idom, children := LengauerTarjan.BuildDomTree(F, RecoverPlace(f.index, f.recover));
  }

  lemma OptimizedFacts(g: Cfgs.Cfg, blocks: seq<int>, index: seq<int>, roots: set<nat>, entry: nat)
    requires Cfgs.WellFormed(g, BlockOpt.LiveOf(blocks), roots, entry) && Cfgs.AllReached(g, BlockOpt.LiveOf(blocks), roots)
    requires BlockOpt.Listed(blocks, index) && (forall i :: 0 <= i < |blocks| ==> blocks[i] >= 0) && blocks != [] && blocks[0] == entry && |index| == |g.instrs|
    ensures Optimized(g, blocks, index, roots, entry) && forall i :: 0 <= i < |blocks| ==> blocks[i] < |g.succs| == |g.preds|
  {
    assert forall i :: 0 <= i < |blocks| ==> blocks[i] in BlockOpt.LiveOf(blocks);
  }

  // ----- referrers, dominators and lifting -----

  function Body(g: Flowgraph, recover: int, idom: seq<int>, children: seq<seq<nat>>, blocks: seq<seq<Lifting.Instr>>): (f: Lifting.Plan) {
    Lifting.Plan(g, recover, idom, children, blocks, map[], [], seq(|blocks|, _ => {}))
  }

  /** The function is well formed: with its dominator tree it is an input of lift. */
  ghost predicate Liftable(g: Flowgraph, recover: int, blocks: seq<seq<Lifting.Instr>>) {
    LengauerTarjan.Buildable(g, recover) &&
    forall idom, children :: DomFrontiers.TreeOf(g, recover, idom, children) ==> LiftFunction.IsInput(Body(g, recover, idom, children, blocks))
  }

  /** buildReferrers, buildDomTree and lift: the lists that the first builds and the tree that the second
      builds meet what the third requires. */
  method BuildAndLift(g: Flowgraph, recover: int, blocks: seq<seq<Lifting.Instr>>, eligible: set<(nat, nat)>)
    returns (pl: Lifting.Plan, L: Lifting.Lifted, refs: Referrers.Refs)
    requires Liftable(g, recover, blocks)
    ensures pl.g == g && pl.recover == recover && pl.blocks == blocks && LiftFunction.IsLiftResult(pl, L)
    ensures DeadPhis.ListsOk(L, Referrers.Cells(pl), refs)
    ensures forall u: nat, i: nat :: (u, i) in pl.index <==>
              pl.At(u, i) && blocks[u][i].Alloc? && (u, i) in eligible && LiftFunction.OnlyAddresses(blocks, Lifting.Reg(u, i))
  {
    var built := Referrers.BuildReferrers(blocks);
    var idom, children := LengauerTarjan.BuildDomTree(g, recover);
    DomTrees.DomTreeRanked(g, recover, idom, children);
    pl, L, refs := LiftFunction.Lift(Body(g, recover, idom, children, blocks), eligible, built);
  }
}
