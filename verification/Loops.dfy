/** findLoops: the natural loop of every back edge. */
module Loops {
  import opened Paths
  import opened Flowgraphs
  import opened LengauerTarjan
  import opened DomTrees

  /** x reaches b by a walk that does not touch but. */
  ghost predicate ReachesAvoiding(E: Edges, x: nat, b: nat, but: nat) {
    exists p :: WalkFromTo(E, p, x, b) && but !in p
  }

  /** All predecessors of x, except but, are in the list. */
  ghost predicate PredsIn(g: Flowgraph, list: seq<nat>, but: nat, x: nat) {
    x < |g.preds| && forall q :: q in g.preds[x] && q != but ==> q in list
  }

  ghost predicate ListOk(g: Flowgraph, list: seq<nat>, but: nat) {
    g.Valid() && Distinct(list) && AllBelow(list, |g.succs|) && but !in list
  }

  /** What a call for b adds to the list: blocks that reach b without but, with all their predecessors. */
  ghost predicate Added(g: Flowgraph, list: seq<nat>, list': seq<nat>, but: nat, b: nat) {
    && ListOk(g, list', but) && list <= list'
    && (forall x: nat {:trigger PredsIn(g, list', but, x)} :: x in list' && x !in list ==> PredsIn(g, list', but, x))
    && (forall x: nat {:trigger ReachesAvoiding(g.EdgeSet(), x, b, but)} :: x in list' && x !in list ==> ReachesAvoiding(g.EdgeSet(), x, b, but))
  }

  lemma StepAvoiding(g: Flowgraph, x: nat, q: nat, b: nat, but: nat)
    requires g.Valid() && b < |g.preds| && q in g.preds[b] && ReachesAvoiding(g.EdgeSet(), x, q, but) && b != but
    ensures ReachesAvoiding(g.EdgeSet(), x, b, but)
  {
    var p :| WalkFromTo(g.EdgeSet(), p, x, q) && but !in p;
    var r := p + [b];
    assert (q, b) in g.EdgeSet();
    forall i | 0 < i < |r| ensures Step(g.EdgeSet(), r, i) {
      assert i < |p| ==> Step(g.EdgeSet(), p, i);
    }
    assert WalkFromTo(g.EdgeSet(), r, x, b);
  }

  lemma SelfAvoiding(E: Edges, x: nat, but: nat)
    requires x != but
    ensures ReachesAvoiding(E, x, x, but)
  {
    assert WalkFromTo(E, [x], x, x);
  }

  lemma PrefixMembers(a: seq<nat>, b: seq<nat>)
    requires a <= b
    ensures forall y :: y in a ==> y in b
  {
    forall y | y in a ensures y in b {
      var i :| 0 <= i < |a| && a[i] == y;
      assert b[i] == y;
    }
  }

  /** A predecessor q and what a call for it adds. */
  lemma AddedPred(g: Flowgraph, l0: seq<nat>, l1: seq<nat>, l2: seq<nat>, but: nat, b: nat, q: nat)
    requires b < |g.preds| && b != but && Added(g, l0, l1, but, b) && q in g.preds[b] && q != but && q !in l1
    requires Added(g, l1 + [q], l2, but, q) && PredsIn(g, l2, but, q)
    ensures Added(g, l0, l2, but, b)
  {
    assert l1 <= l1 + [q] <= l2;
    forall x: nat | x in l2 && x !in l0 ensures PredsIn(g, l2, but, x) && ReachesAvoiding(g.EdgeSet(), x, b, but) {
      if x in l1 {
        assert PredsIn(g, l1, but, x) && ReachesAvoiding(g.EdgeSet(), x, b, but);
        PrefixMembers(l1, l2);
      } else if x == q {
        SelfAvoiding(g.EdgeSet(), q, but);
        StepAvoiding(g, q, q, b, but);
      } else {
        assert x !in l1 + [q];
        assert PredsIn(g, l2, but, x) && ReachesAvoiding(g.EdgeSet(), x, q, but);
        StepAvoiding(g, x, q, b, but);
      }
    }
  }

  method AllPredsBut(g: Flowgraph, b: nat, but: nat, list: seq<nat>) returns (list': seq<nat>)
    requires ListOk(g, list, but) && b < |g.preds| && b != but
    ensures Added(g, list, list', but, b) && PredsIn(g, list', but, b)
    decreases |g.succs| - |list|
  {
    list' := list;
    for i := 0 to |g.preds[b]|
      invariant Added(g, list, list', but, b) && forall q :: q in g.preds[b][..i] && q != but ==> q in list'
    {
      var q := g.preds[b][i];
      assert q in g.preds[b] && g.preds[b][..i + 1] == g.preds[b][..i] + [q];
      if q != but {
        var seen := false;
        for k := 0 to |list'|
          invariant seen <==> q in list'[..k]
        {
          if list'[k] == q { seen := true; }
        }
        assert list'[..|list'|] == list';
        if !seen {
          ghost var l1 := list';
          DistinctFit(list' + [q], |g.succs|);
          list' := AllPredsBut(g, q, but, list' + [q]);
          AddedPred(g, list, l1, list', but, b, q);
          PrefixMembers(l1 + [q], list');
        }
      }
    }
    assert g.preds[b][..|g.preds[b]|] == g.preds[b];
  }

  // ----- the loop of a back edge -----

  /** The header h, and everything that reaches n without passing through h. */
  ghost predicate IsLoop(E: Edges, n: nat, h: nat, L: set<nat>) {
    forall x: nat :: x in L <==> x == h || ReachesAvoiding(E, x, n, h)
  }

  /** The list is closed under predecessors, so it has everything that reaches n without h. */
  lemma {:induction false} ListComplete(g: Flowgraph, list: seq<nat>, n: nat, h: nat, p: seq<nat>)
    requires Added(g, [], list, h, n) && PredsIn(g, list, h, n) && Walk(g.EdgeSet(), p) && p[|p| - 1] == n && h !in p
    ensures p[0] == n || p[0] in list
    decreases |p|
  {
    if |p| > 1 {
      WalkSlice(g.EdgeSet(), p, 1, |p|);
      ListComplete(g, list, n, h, p[1..|p|]);
      assert Step(g.EdgeSet(), p, 1);
      assert PredsIn(g, list, h, p[1]);
      assert p[0] in g.preds[p[1]];
    }
  }

  lemma LoopExact(g: Flowgraph, list: seq<nat>, n: nat, h: nat)
    requires Added(g, [], list, h, n) && PredsIn(g, list, h, n) && n != h
    ensures IsLoop(g.EdgeSet(), n, h, {h, n} + Elements(list))
  {
    forall x: nat ensures x in {h, n} + Elements(list) <==> x == h || ReachesAvoiding(g.EdgeSet(), x, n, h) {
      SelfAvoiding(g.EdgeSet(), n, h);
      if ReachesAvoiding(g.EdgeSet(), x, n, h) {
        var p :| WalkFromTo(g.EdgeSet(), p, x, n) && h !in p;
        ListComplete(g, list, n, h, p);
      }
      if x in list { assert ReachesAvoiding(g.EdgeSet(), x, n, h); }
    }
  }

  /** The loop of a self edge is the block alone. */
  lemma SelfLoop(E: Edges, h: nat)
    ensures IsLoop(E, h, h, {h})
  {
  }

  /** The header dominates every member. */
  lemma HeaderDominates(E: Edges, n: nat, h: nat, L: set<nat>, x: nat)
    requires IsLoop(E, n, h, L) && Dominates(E, 0, h, n) && x in L
    ensures Dominates(E, 0, h, x)
  {
    forall p | WalkFromTo(E, p, 0, x) ensures h in p {
      if x != h {
        var q :| WalkFromTo(E, q, x, n) && h !in q;
        WalkConcat(E, p, q);
        assert h in p + q[1..];
      }
    }
  }

  /** n leads back to h, which dominates it. */
  ghost predicate IsBackEdge(g: Flowgraph, n: nat, h: nat) {
    h < |g.preds| && n in g.preds[h] && Dominates(g.EdgeSet(), 0, h, n)
  }

  ghost predicate LoopOk(g: Flowgraph, e: (nat, nat), L: set<nat>) {
    IsBackEdge(g, e.0, e.1) && IsLoop(g.EdgeSet(), e.0, e.1, L) && forall x: nat :: x in L ==> Dominates(g.EdgeSet(), 0, e.1, x)
  }

  /** The loop of one back edge. */
  method LoopOf(g: Flowgraph, n: nat, h: nat) returns (L: set<nat>)
    requires g.Valid() && IsBackEdge(g, n, h)
    ensures LoopOk(g, (n, h), L)
  {
    if n == h {
      L := {n};
      SelfLoop(g.EdgeSet(), h);
    } else {
      L := {h, n};
      var list := AllPredsBut(g, n, h, []);
      for k := 0 to |list|
        invariant L == {h, n} + Elements(list[..k])
      {
        assert list[..k + 1][..k] == list[..k];
        L := L + {list[k]};
      }
      assert list[..|list|] == list;
      LoopExact(g, list, n, h);
    }
    forall x: nat | x in L ensures Dominates(g.EdgeSet(), 0, h, x) {
      HeaderDominates(g.EdgeSet(), n, h, L, x);
    }
  }

  /** How often the edge e occurs in the list. */
  ghost function Times(back: seq<(nat, nat)>, e: (nat, nat)): (k: nat)
    ensures e in back <==> k > 0
  {
    multiset(back)[e]
  }

  /** Each back edge to a header in hs is listed as often as it occurs among the predecessors; no other edge is listed. */
  ghost predicate Listed(g: Flowgraph, back: seq<(nat, nat)>, hs: seq<nat>) {
    forall n: nat, h: nat {:trigger Times(back, (n, h))} ::
      Times(back, (n, h)) == if h in hs && IsBackEdge(g, n, h) then multiset(g.preds[h])[n] else 0
  }

  /** The same, with the first j predecessors of h besides. */
  ghost predicate ListedTo(g: Flowgraph, before: seq<(nat, nat)>, back: seq<(nat, nat)>, h: nat, j: nat)
    requires h < |g.preds| && j <= |g.preds[h]|
  {
    forall e {:trigger Times(back, e)} ::
      Times(back, e) == Times(before, e) + if e.1 == h && IsBackEdge(g, e.0, h) then multiset(g.preds[h][..j])[e.0] else 0
  }

  lemma ListedNext(g: Flowgraph, before: seq<(nat, nat)>, back: seq<(nat, nat)>, h: nat, j: nat)
    requires h < |g.preds| && j < |g.preds[h]| && ListedTo(g, before, back, h, j)
    ensures var n := g.preds[h][j]; ListedTo(g, before, if IsBackEdge(g, n, h) then back + [(n, h)] else back, h, j + 1)
  {
    var n := g.preds[h][j];
    var back' := if IsBackEdge(g, n, h) then back + [(n, h)] else back;
    assert g.preds[h][..j + 1] == g.preds[h][..j] + [n];
    forall e ensures Times(back', e) ==
               Times(before, e) + if e.1 == h && IsBackEdge(g, e.0, h) then multiset(g.preds[h][..j + 1])[e.0] else 0
    {
      assert Times(back, e) == Times(before, e) + if e.1 == h && IsBackEdge(g, e.0, h) then multiset(g.preds[h][..j])[e.0] else 0;
    }
  }

  lemma ListedHeader(g: Flowgraph, before: seq<(nat, nat)>, back: seq<(nat, nat)>, hs: seq<nat>, h: nat)
    requires h < |g.preds| && h !in hs && Listed(g, before, hs) && ListedTo(g, before, back, h, |g.preds[h]|)
    ensures Listed(g, back, hs + [h])
  {
    assert g.preds[h][..|g.preds[h]|] == g.preds[h];
    forall n: nat, x: nat
      ensures Times(back, (n, x)) == if x in hs + [h] && IsBackEdge(g, n, x) then multiset(g.preds[x])[n] else 0
    {
      assert Times(before, (n, x)) == if x in hs && IsBackEdge(g, n, x) then multiset(g.preds[x])[n] else 0;
    }
  }

  /** findLoops gives one loop for each back edge, and back names the edges: a back edge as often as
      it occurs among the predecessors of its header, so once unless a branch goes there twice. */
  method FindLoops(g: Flowgraph, recover: int, ghost idom: seq<int>, children: seq<seq<nat>>, tree: seq<nat>) returns (loops: seq<set<nat>>, ghost back: seq<(nat, nat)>)
    requires Buildable(g, recover) && IsDomTree(g, recover, idom, children)
    requires AllBelow(tree, |g.succs|) && Distinct(tree) && forall v: nat :: v < |g.succs| ==> v in tree
    ensures |loops| == |back| && forall k :: 0 <= k < |back| ==> LoopOk(g, back[k], loops[k])
    ensures forall n: nat, h: nat {:trigger Times(back, (n, h))} ::
              Times(back, (n, h)) == if IsBackEdge(g, n, h) then multiset(g.preds[h])[n] else 0
  {
    var pre, post := NumberFunction(g, recover, idom, children);
    loops, back := [], [];
    for i := 0 to |tree|
      invariant |loops| == |back| && forall k :: 0 <= k < |back| ==> LoopOk(g, back[k], loops[k])
      invariant Listed(g, back, tree[..i])
    {
      var h := tree[i];
      assert tree[..i + 1] == tree[..i] + [h] && h !in tree[..i];
      ghost var before := back;
      for j := 0 to |g.preds[h]|
        invariant |loops| == |back| && forall k :: 0 <= k < |back| ==> LoopOk(g, back[k], loops[k])
        invariant ListedTo(g, before, back, h, j)
      {
        var n := g.preds[h][j];
        assert n in g.preds[h];
        BackFits(g, recover, n, h, pre, post);
        ListedNext(g, before, back, h, j);
        if DominatesQuery(pre, post, h, n) {
          var L := LoopOf(g, n, h);
          loops, back := loops + [L], back + [(n, h)];
        }
      }
      ListedHeader(g, before, back, tree[..i], h);
    }
    assert tree[..|tree|] == tree;
  }

  lemma BackFits(g: Flowgraph, recover: int, n: nat, h: nat, pre: seq<int>, post: seq<int>)
    requires Buildable(g, recover) && h < |g.preds| && n in g.preds[h] && |pre| == |post| == |g.succs|
    requires forall b: nat, c: nat :: b < |g.succs| && c < |g.succs| && c != recover ==>
      (DominatesQuery(pre, post, b, c) <==> Dominates(g.EdgeSet(), 0, b, c))
    ensures n < |pre| && (DominatesQuery(pre, post, h, n) <==> IsBackEdge(g, n, h))
  {
    assert h in g.succs[n];
  }
}
