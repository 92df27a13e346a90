/** Dominance queries: the pre/post numbering of the dominator tree and the Kildall-style
    sanity check. */
module DomTrees {
  import opened Paths
  import opened Flowgraphs
  import opened LengauerTarjan

  // ----- forests given by an idom array -----

  /** idom leads towards blocks of smaller rank, so every chain of idoms ends. */
  ghost predicate Ranked(idom: seq<int>, rank: seq<nat>) {
    && |idom| == |rank|
    && forall v {:trigger idom[v]} :: 0 <= v < |idom| && idom[v] != NIL ==> 0 <= idom[v] < |idom| && rank[idom[v]] < rank[v] <= |idom|
  }

  /** a is b, or an ancestor of b in the forest. */
  ghost predicate Above(idom: seq<int>, rank: seq<nat>, a: nat, b: nat)
    requires Ranked(idom, rank) && b < |idom|
    decreases rank[b]
  {
    a == b || (idom[b] != NIL && Above(idom, rank, a, idom[b]))
  }

  lemma {:induction false} AboveTransitive(idom: seq<int>, rank: seq<nat>, a: nat, b: nat, c: nat)
    requires Ranked(idom, rank) && b < |idom| && c < |idom|
    requires Above(idom, rank, a, b) && Above(idom, rank, b, c)
    ensures Above(idom, rank, a, c)
    decreases rank[c]
  {
    if b != c { AboveTransitive(idom, rank, a, b, idom[c]); }
  }

  lemma {:induction false} AboveRank(idom: seq<int>, rank: seq<nat>, a: nat, b: nat)
    requires Ranked(idom, rank) && b < |idom| && Above(idom, rank, a, b)
    ensures a < |idom| && rank[a] <= rank[b] && (a != b ==> rank[a] < rank[b])
    decreases rank[b]
  {
    if a != b { AboveRank(idom, rank, a, idom[b]); }
  }

  lemma {:induction false} AboveChain(idom: seq<int>, rank: seq<nat>, a: nat, b: nat, c: nat)
    requires Ranked(idom, rank) && c < |idom|
    requires Above(idom, rank, a, c) && Above(idom, rank, b, c)
    ensures a < |idom| && b < |idom|
    ensures Above(idom, rank, a, b) || Above(idom, rank, b, a)
    decreases rank[c]
  {
    AboveRank(idom, rank, a, c);
    AboveRank(idom, rank, b, c);
    if a != c && b != c { AboveChain(idom, rank, a, b, idom[c]); }
  }

  /** Below an inner block, the way down goes through one of its children. */
  lemma {:induction false} AboveChild(idom: seq<int>, rank: seq<nat>, v: nat, x: nat) returns (c: nat)
    requires Ranked(idom, rank) && x < |idom| && Above(idom, rank, v, x) && v != x
    ensures c < |idom| && idom[c] == v && Above(idom, rank, c, x)
    decreases rank[x]
  {
    if idom[x] == v {
      c := x;
    } else {
      c := AboveChild(idom, rank, v, idom[x]);
    }
  }

  // ----- the forest of a flowgraph is its dominance relation -----

  ghost function Doms(g: Flowgraph, v: nat): (D: set<nat>) {
    set d | d in Below(|g.succs|) && Dominates(g.EdgeSet(), 0, d, v)
  }

  lemma DomsGrow(g: Flowgraph, d: nat, v: nat)
    requires v < |g.succs| && Reaches(g.EdgeSet(), 0, v) && IsIdom(g.EdgeSet(), 0, d, v) && d < |g.succs|
    ensures |Doms(g, d)| < |Doms(g, v)| <= |g.succs|
  {
    assert Doms(g, d) <= Doms(g, v) by {
      forall x | x in Doms(g, d) ensures x in Doms(g, v) {
        DominatesTransitive(g.EdgeSet(), 0, x, d, v);
      }
    }
    assert v !in Doms(g, d) by {
      if v in Doms(g, d) { DominatesAntisymmetric(g.EdgeSet(), 0, d, v); }
    }
    DominatesSelf(g.EdgeSet(), 0, v);
    assert Doms(g, v) == Doms(g, d) + (Doms(g, v) - Doms(g, d));
    assert v in Doms(g, v) - Doms(g, d);
    assert Below(|g.succs|) == Doms(g, v) + (Below(|g.succs|) - Doms(g, v));
  }

  /** The number of dominators ranks the dominator forest. */
  ghost function DomRank(g: Flowgraph): (rank: seq<nat>) {
    seq(|g.succs|, v requires 0 <= v < |g.succs| => |Doms(g, v)|)
  }

  lemma DomTreeRanked(g: Flowgraph, recover: int, idom: seq<int>, children: seq<seq<nat>>)
    requires Buildable(g, recover) && IsDomTree(g, recover, idom, children)
    ensures Ranked(idom, DomRank(g))
  {
    forall v | 0 <= v < |idom| && idom[v] != NIL
      ensures DomRank(g)[idom[v]] < DomRank(g)[v] <= |idom|
    {
      assert Reaches(g.EdgeSet(), 0, v);
      DomsGrow(g, idom[v], v);
    }
  }

  lemma {:induction false} AboveIsDominance(g: Flowgraph, recover: int, idom: seq<int>, children: seq<seq<nat>>, a: nat, b: nat)
    requires Buildable(g, recover) && IsDomTree(g, recover, idom, children) && Ranked(idom, DomRank(g))
    requires a < |idom| && b < |idom| && b != recover
    ensures Above(idom, DomRank(g), a, b) <==> Dominates(g.EdgeSet(), 0, a, b)
    decreases DomRank(g)[b]
  {
    var E := g.EdgeSet();
    DominatesSelf(E, 0, b);
    if b == 0 {
      assert WalkFromTo(E, [0], 0, 0);
      assert Dominates(E, 0, a, 0) ==> a in [0];
    } else {
      var d := idom[b];
      assert d != recover by {
        assert Reaches(E, 0, b);
        if d == recover { RecoverDominatesNothing(g, recover, b); }
      }
      AboveIsDominance(g, recover, idom, children, a, d);
      if Dominates(E, 0, a, d) { DominatesTransitive(E, 0, a, d, b); }
    }
  }

  lemma RecoverDominatesNothing(g: Flowgraph, recover: int, b: nat)
    requires Buildable(g, recover) && recover != NIL && Reaches(g.EdgeSet(), 0, b) && b != recover
    ensures !Dominates(g.EdgeSet(), 0, recover, b)
  {
    var p :| WalkFromTo(g.EdgeSet(), p, 0, b);
    forall i | 0 <= i < |p| ensures p[i] != recover {
      assert i > 0 ==> Step(g.EdgeSet(), p, i);
    }
  }

  // ----- pre- and postorder numbers -----

  /** The test of Dominates on the numbers of x and y agrees with the forest. */
  ghost predicate Agree(idom: seq<int>, rank: seq<nat>, pre: seq<int>, post: seq<int>, x: nat, y: nat)
    requires Ranked(idom, rank) && |pre| == |post| == |idom| && x < |idom| && y < |idom|
  {
    Above(idom, rank, x, y) <==> pre[x] <= pre[y] && post[y] <= post[x]
  }

  /** x has its numbers from [p0, p1) and [q0, q1). */
  ghost predicate Within(pre: seq<int>, post: seq<int>, x: nat, p0: int, p1: int, q0: int, q1: int) {
    x < |pre| == |post| && p0 <= pre[x] < p1 && q0 <= post[x] < q1
  }

  /** The blocks of the set X are numbered within the two ranges, and their numbers agree with the forest. */
  ghost predicate Numbers(idom: seq<int>, rank: seq<nat>, pre: seq<int>, post: seq<int>, X: set<nat>,
                          p0: int, p1: int, q0: int, q1: int)
    requires Ranked(idom, rank) && |pre| == |post| == |idom| && forall x :: x in X ==> x < |idom|
  {
    && (forall x :: x in X ==> Within(pre, post, x, p0, p1, q0, q1))
    && (forall x, y :: x in X && y in X ==> Agree(idom, rank, pre, post, x, y))
  }

  /** The blocks of the subtree rooted at v. */
  ghost function Tree(idom: seq<int>, rank: seq<nat>, v: nat): (X: set<nat>)
    requires Ranked(idom, rank)
    ensures forall x: nat :: x in X <==> x < |idom| && Above(idom, rank, v, x)
  {
    set x | x in Below(|idom|) && Above(idom, rank, v, x)
  }

  /** The blocks of the subtrees rooted at cs. */
  ghost function Trees(idom: seq<int>, rank: seq<nat>, cs: seq<nat>): (X: set<nat>)
    requires Ranked(idom, rank)
    ensures forall x :: x in X ==> x < |idom|
  {
    if cs == [] then {} else Trees(idom, rank, cs[..|cs| - 1]) + Tree(idom, rank, cs[|cs| - 1])
  }

  lemma {:induction false} TreesHas(idom: seq<int>, rank: seq<nat>, cs: seq<nat>, c: nat, x: nat)
    requires Ranked(idom, rank) && c in cs && x < |idom| && Above(idom, rank, c, x)
    ensures x in Trees(idom, rank, cs)
  {
    if cs[|cs| - 1] != c {
      TreesHas(idom, rank, cs[..|cs| - 1], c, x);
    }
  }

  lemma {:induction false} TreesFrom(idom: seq<int>, rank: seq<nat>, cs: seq<nat>, x: nat) returns (c: nat)
    requires Ranked(idom, rank) && x in Trees(idom, rank, cs)
    ensures c in cs && Above(idom, rank, c, x)
  {
    c := cs[|cs| - 1];
    if x !in Tree(idom, rank, c) {
      c := TreesFrom(idom, rank, cs[..|cs| - 1], x);
    }
  }

  lemma TreesAppend(idom: seq<int>, rank: seq<nat>, cs: seq<nat>, c: nat)
    requires Ranked(idom, rank)
    ensures Trees(idom, rank, cs + [c]) == Trees(idom, rank, cs) + Tree(idom, rank, c)
  {
    assert (cs + [c])[..|cs|] == cs;
  }

  /** The subtrees of two siblings are apart. */
  lemma SiblingsApart(idom: seq<int>, rank: seq<nat>, c: nat, d: nat, x: nat, y: nat)
    requires Ranked(idom, rank) && c < |idom| && d < |idom| && x < |idom| && y < |idom|
    requires c != d && idom[c] == idom[d]
    requires Above(idom, rank, c, x) && Above(idom, rank, d, y)
    ensures !Above(idom, rank, x, y)
  {
    if Above(idom, rank, x, y) {
      AboveTransitive(idom, rank, c, x, y);
      AboveChain(idom, rank, c, d, y);
      if Above(idom, rank, c, d) {
        AboveRank(idom, rank, c, idom[d]);
      } else {
        AboveRank(idom, rank, d, idom[c]);
      }
    }
  }

  lemma JoinNumbers(idom: seq<int>, rank: seq<nat>, pre: seq<int>, post: seq<int>, v: nat, cs: seq<nat>, c: nat,
                    p0: int, p1: int, p2: int, q0: int, q1: int, q2: int)
    requires Ranked(idom, rank) && |pre| == |post| == |idom| && c < |idom| && idom[c] == v && c !in cs
    requires forall x :: x in cs ==> x < |idom| && idom[x] == v
    requires Numbers(idom, rank, pre, post, Trees(idom, rank, cs), p0, p1, q0, q1)
    requires Numbers(idom, rank, pre, post, Tree(idom, rank, c), p1, p2, q1, q2)
    requires p0 <= p1 <= p2 && q0 <= q1 <= q2
    ensures Numbers(idom, rank, pre, post, Trees(idom, rank, cs + [c]), p0, p2, q0, q2)
  {
    var X, Y, Z := Trees(idom, rank, cs), Tree(idom, rank, c), Trees(idom, rank, cs + [c]);
    TreesAppend(idom, rank, cs, c);
    forall x | x in Z ensures Within(pre, post, x, p0, p2, q0, q2) {
      if x in X { assert Within(pre, post, x, p0, p1, q0, q1); } else { assert Within(pre, post, x, p1, p2, q1, q2); }
    }
    forall x, y | x in Z && y in Z ensures Agree(idom, rank, pre, post, x, y) {
      if x in X && y in X {
      } else if x in Y && y in Y {
      } else if x in X {
        var d := TreesFrom(idom, rank, cs, x);
        SiblingsApart(idom, rank, d, c, x, y);
        assert Within(pre, post, x, p0, p1, q0, q1) && Within(pre, post, y, p1, p2, q1, q2);
      } else {
        var d := TreesFrom(idom, rank, cs, y);
        SiblingsApart(idom, rank, c, d, x, y);
        assert Within(pre, post, y, p0, p1, q0, q1) && Within(pre, post, x, p1, p2, q1, q2);
      }
    }
  }

  lemma RootNumbers(idom: seq<int>, rank: seq<nat>, pre: seq<int>, post: seq<int>, v: nat, cs: seq<nat>,
                    p0: int, p1: int, q0: int, q1: int)
    requires Ranked(idom, rank) && |pre| == |post| == |idom| && v < |idom|
    requires forall c: nat :: c in cs <==> c < |idom| && idom[c] == v
    requires Numbers(idom, rank, pre, post, Trees(idom, rank, cs), p0 + 1, p1, q0, q1)
    requires pre[v] == p0 && post[v] == q1 && p0 < p1 && q0 <= q1
    ensures Numbers(idom, rank, pre, post, Tree(idom, rank, v), p0, p1, q0, q1 + 1)
  {
    var X, Z := Trees(idom, rank, cs), Tree(idom, rank, v);
    forall x | x in Z && x != v ensures x in X && Within(pre, post, x, p0 + 1, p1, q0, q1) {
      var c := AboveChild(idom, rank, v, x);
      TreesHas(idom, rank, cs, c, x);
    }
    forall x | x in Z ensures Within(pre, post, x, p0, p1, q0, q1 + 1) {
      if x != v { assert Within(pre, post, x, p0 + 1, p1, q0, q1); }
    }
    forall x, y | x in Z && y in Z ensures Agree(idom, rank, pre, post, x, y) {
      if x != v && y == v {
        if Above(idom, rank, x, v) { AboveRank(idom, rank, x, v); AboveRank(idom, rank, v, x); }
        assert Within(pre, post, x, p0 + 1, p1, q0, q1);
      } else if x == v && y != v {
        assert Within(pre, post, y, p0 + 1, p1, q0, q1);
      }
    }
  }

  lemma NumbersFrame(idom: seq<int>, rank: seq<nat>, pre: seq<int>, post: seq<int>, pre': seq<int>, post': seq<int>, X: set<nat>,
                     p0: int, p1: int, q0: int, q1: int)
    requires Ranked(idom, rank) && |pre| == |post| == |pre'| == |post'| == |idom| && forall x :: x in X ==> x < |idom|
    requires Numbers(idom, rank, pre, post, X, p0, p1, q0, q1)
    requires forall x :: x in X ==> pre'[x] == pre[x] && post'[x] == post[x]
    ensures Numbers(idom, rank, pre', post', X, p0, p1, q0, q1)
  {
    forall x | x in X ensures Within(pre', post', x, p0, p1, q0, q1) {
      assert Within(pre, post, x, p0, p1, q0, q1);
    }
    forall x, y | x in X && y in X ensures Agree(idom, rank, pre', post', x, y) {
      assert Agree(idom, rank, pre, post, x, y);
    }
  }

  class DomNumbering {
    const children: seq<seq<nat>>
    var pre: seq<int>
    var post: seq<int>

    constructor (children: seq<seq<nat>>)
      ensures this.children == children && |pre| == |post| == |children|
    {
      this.children := children;
      pre := seq(|children|, _ => 0);
      post := seq(|children|, _ => 0);
    }

    ghost predicate Valid(idom: seq<int>, rank: seq<nat>)
      reads this
    {
      && Ranked(idom, rank) && |children| == |pre| == |post| == |idom|
      && (forall x :: 0 <= x < |children| ==> Distinct(children[x]))
      && (forall x, c: nat {:trigger c in children[x]} :: 0 <= x < |children| ==> (c in children[x] <==> c < |idom| && idom[c] == x))
    }

    method NumberDomTree(v: nat, pre0: int, post0: int, ghost idom: seq<int>, ghost rank: seq<nat>) returns (pre1: int, post1: int)
      requires Valid(idom, rank) && v < |idom|
      modifies this`pre, this`post
      ensures Valid(idom, rank) && pre0 < pre1 && post0 < post1
      ensures Numbers(idom, rank, pre, post, Tree(idom, rank, v), pre0, pre1, post0, post1)
      ensures forall x :: 0 <= x < |idom| && x !in Tree(idom, rank, v) ==> pre[x] == old(pre)[x] && post[x] == old(post)[x]
      decreases |idom| - rank[v]
    {
      pre := pre[v := pre0];
      pre1, post1 := pre0 + 1, post0;
      var k := 0;
      while k < |children[v]|
        invariant k <= |children[v]| && Valid(idom, rank) && pre0 < pre1 && post0 <= post1 && pre[v] == pre0
        invariant Numbers(idom, rank, pre, post, Trees(idom, rank, children[v][..k]), pre0 + 1, pre1, post0, post1)
        invariant forall x :: 0 <= x < |idom| && x !in Tree(idom, rank, v) ==> pre[x] == old(pre)[x] && post[x] == old(post)[x]
      {
        var c := children[v][k];
        assert c in children[v];
        pre1, post1 := NumberChild(v, k, c, pre0 + 1, pre1, post0, post1, idom, rank);
        k := k + 1;
      }
      assert children[v][..k] == children[v];
      ghost var post' := post;
      post := post[v := post1];
      NotBelowItself(idom, rank, v, children[v]);
      NumbersFrame(idom, rank, pre, post', pre, post, Trees(idom, rank, children[v]), pre0 + 1, pre1, post0, post1);
      RootNumbers(idom, rank, pre, post, v, children[v], pre0, pre1, post0, post1);
      post1 := post1 + 1;
    }

    /** One turn of the loop over the children of v. */
    method NumberChild(v: nat, k: nat, c: nat, ghost p0: int, p1: int, ghost q0: int, q1: int,
                       ghost idom: seq<int>, ghost rank: seq<nat>)
      returns (p2: int, q2: int)
      requires Valid(idom, rank) && v < |idom| && k < |children[v]| && c == children[v][k] && c in children[v]
      requires p0 <= p1 && q0 <= q1
      requires Numbers(idom, rank, pre, post, Trees(idom, rank, children[v][..k]), p0, p1, q0, q1)
      modifies this`pre, this`post
      ensures Valid(idom, rank) && p1 <= p2 && q1 <= q2 && pre[v] == old(pre)[v]
      ensures Numbers(idom, rank, pre, post, Trees(idom, rank, children[v][..k + 1]), p0, p2, q0, q2)
      ensures forall x :: 0 <= x < |idom| && x !in Tree(idom, rank, v) ==> pre[x] == old(pre)[x] && post[x] == old(post)[x]
      decreases |idom| - rank[v], 0
    {
      ghost var cs := children[v][..k];
      assert rank[v] < rank[c] <= |idom|;
      p2, q2 := NumberDomTree(c, p1, q1, idom, rank);
      assert c !in cs by { assert Distinct(children[v]); }
      assert forall d :: d in cs ==> d in children[v];
      SubtreesApart(idom, rank, v, cs, c);
      NumbersFrame(idom, rank, old(pre), old(post), pre, post, Trees(idom, rank, cs), p0, p1, q0, q1);
      JoinNumbers(idom, rank, pre, post, v, cs, c, p0, p1, p2, q0, q1, q2);
      assert cs + [c] == children[v][..k + 1];
    }
  }

  lemma NotBelowItself(idom: seq<int>, rank: seq<nat>, v: nat, cs: seq<nat>)
    requires Ranked(idom, rank) && v < |idom| && forall c :: c in cs ==> c < |idom| && idom[c] == v
    ensures v !in Trees(idom, rank, cs)
  {
    if v in Trees(idom, rank, cs) {
      var c := TreesFrom(idom, rank, cs, v);
      AboveRank(idom, rank, c, v);
    }
  }

  lemma SubtreesApart(idom: seq<int>, rank: seq<nat>, v: nat, cs: seq<nat>, c: nat)
    requires Ranked(idom, rank) && v < |idom| && c < |idom| && idom[c] == v && c !in cs
    requires forall d :: d in cs ==> d < |idom| && idom[d] == v
    ensures Trees(idom, rank, cs) !! Tree(idom, rank, c) && v !in Tree(idom, rank, c)
    ensures Tree(idom, rank, c) <= Tree(idom, rank, v)
  {
    forall x | x in Trees(idom, rank, cs) ensures x !in Tree(idom, rank, c) {
      var d := TreesFrom(idom, rank, cs, x);
      if Above(idom, rank, c, x) { SiblingsApart(idom, rank, d, c, x, x); }
    }
    if Above(idom, rank, c, v) { AboveRank(idom, rank, c, v); }
    forall x | x in Tree(idom, rank, c) ensures x in Tree(idom, rank, v) {
      assert Above(idom, rank, v, c);
      AboveTransitive(idom, rank, v, c, x);
    }
  }

  /** numberDomTree for the whole function: the numbers answer every dominance query. */
  method NumberFunction(g: Flowgraph, recover: int, ghost idom: seq<int>, children: seq<seq<nat>>) returns (pre: seq<int>, post: seq<int>)
    requires Buildable(g, recover) && IsDomTree(g, recover, idom, children)
    ensures |pre| == |post| == |g.succs|
    ensures forall b: nat, c: nat :: b < |g.succs| && c < |g.succs| && c != recover ==>
              (DominatesQuery(pre, post, b, c) <==> Dominates(g.EdgeSet(), 0, b, c))
    ensures recover != NIL ==> forall b: nat :: b < |g.succs| ==> (DominatesQuery(pre, post, b, recover) <==> b == recover)
  {
    ghost var rank := DomRank(g);
    DomTreeRanked(g, recover, idom, children);
    var d := new DomNumbering(children);
    var p, q := d.NumberDomTree(0, 0, 0, idom, rank);
    ghost var p2, q2 := p, q;
    ghost var pre1, post1 := d.pre, d.post;
    if recover != NIL {
      ForestOfTwo(g, recover, idom, children);
      p2, q2 := d.NumberDomTree(recover, p, q, idom, rank);
      NumbersFrame(idom, rank, pre1, post1, d.pre, d.post, Tree(idom, rank, 0), 0, p, 0, q);
    }
    pre, post := d.pre, d.post;
    QueriesCorrect(g, recover, idom, children, pre, post, p, p2, q, q2);
  }

  predicate DominatesQuery(pre: seq<int>, post: seq<int>, b: nat, c: nat)
    requires |pre| == |post| && b < |pre| && c < |pre|
  {
    pre[b] <= pre[c] && post[c] <= post[b]
  }

  /** Every block is in the entry's tree, except recover, which is a tree of its own. */
  lemma ForestOfTwo(g: Flowgraph, recover: int, idom: seq<int>, children: seq<seq<nat>>)
    requires Buildable(g, recover) && IsDomTree(g, recover, idom, children) && Ranked(idom, DomRank(g))
    ensures forall x :: 0 <= x < |idom| && x != recover ==> x in Tree(idom, DomRank(g), 0)
    ensures recover != NIL ==> recover !in Tree(idom, DomRank(g), 0) && Tree(idom, DomRank(g), recover) == {recover}
  {
    var rank := DomRank(g);
    forall x | 0 <= x < |idom| && x != recover ensures x in Tree(idom, rank, 0) {
      AboveIsDominance(g, recover, idom, children, 0, x);
    }
    if recover != NIL {
      forall x | x in Tree(idom, rank, recover) ensures x == recover {
        if x != recover {
          AboveIsDominance(g, recover, idom, children, recover, x);
          assert Reaches(g.EdgeSet(), 0, x);
          RecoverDominatesNothing(g, recover, x);
        }
      }
    }
  }

  lemma QueriesCorrect(g: Flowgraph, recover: int, idom: seq<int>, children: seq<seq<nat>>, pre: seq<int>, post: seq<int>,
                       p: int, p2: int, q: int, q2: int)
    requires Buildable(g, recover) && IsDomTree(g, recover, idom, children) && Ranked(idom, DomRank(g))
    requires |pre| == |post| == |idom| && 0 < p <= p2 && 0 < q <= q2
    requires Numbers(idom, DomRank(g), pre, post, Tree(idom, DomRank(g), 0), 0, p, 0, q)
    requires recover != NIL ==> Numbers(idom, DomRank(g), pre, post, Tree(idom, DomRank(g), recover), p, p2, q, q2)
    ensures forall b: nat, c: nat :: b < |g.succs| && c < |g.succs| && c != recover ==>
              (DominatesQuery(pre, post, b, c) <==> Dominates(g.EdgeSet(), 0, b, c))
    ensures recover != NIL ==> forall b: nat :: b < |g.succs| ==> (DominatesQuery(pre, post, b, recover) <==> b == recover)
  {
    var rank := DomRank(g);
    ForestOfTwo(g, recover, idom, children);
    forall b: nat, c: nat | b < |g.succs| && c < |g.succs| && c != recover
      ensures DominatesQuery(pre, post, b, c) <==> Dominates(g.EdgeSet(), 0, b, c)
    {
      AboveIsDominance(g, recover, idom, children, b, c);
      if b == recover {
        assert Reaches(g.EdgeSet(), 0, c);
        RecoverDominatesNothing(g, recover, c);
        assert Within(pre, post, c, 0, p, 0, q) && Within(pre, post, b, p, p2, q, q2);
      } else {
        assert Agree(idom, rank, pre, post, b, c);
      }
    }
    if recover != NIL {
      forall b: nat | b < |g.succs| ensures DominatesQuery(pre, post, b, recover) <==> b == recover {
        assert b != recover ==> Within(pre, post, b, 0, p, 0, q);
        assert Within(pre, post, recover, p, p2, q, q2);
      }
    }
  }

  // ----- the Kildall-style check -----

  /** The intersection over the predecessors ps, starting from all. */
  ghost function Meet(D: seq<set<nat>>, ps: seq<nat>, all: set<nat>): (x: set<nat>)
    requires AllBelow(ps, |D|)
  {
    if ps == [] then all else Meet(D, ps[..|ps| - 1], all) * D[ps[|ps| - 1]]
  }

  lemma {:induction false} MeetElements(D: seq<set<nat>>, ps: seq<nat>, all: set<nat>)
    requires AllBelow(ps, |D|)
    ensures forall i :: i in Meet(D, ps, all) <==> i in all && forall k :: 0 <= k < |ps| ==> i in D[ps[k]]
  {
    if ps != [] {
      MeetElements(D, ps[..|ps| - 1], all);
    }
  }

  /** D over-approximates the dominators of every block but recover, and never grows. */
  ghost predicate Safe(g: Flowgraph, recover: int, D: seq<set<nat>>) {
    && |D| == |g.succs| > 0
    && D[0] == {0}
    && (forall j :: 0 <= j < |D| && j != recover ==> Doms(g, j) <= D[j] <= Below(|g.succs|))
  }

  /** The transfer function only shrinks D[j]. */
  ghost predicate Shrinks(g: Flowgraph, D: seq<set<nat>>, j: nat)
    requires g.Valid() && |D| == |g.succs| && j < |D|
  {
    Meet(D, g.preds[j], Below(|D|)) + {j} <= D[j]
  }

  ghost predicate FixedAt(g: Flowgraph, D: seq<set<nat>>, j: nat)
    requires g.Valid() && |D| == |g.succs| && j < |D|
  {
    D[j] == Meet(D, g.preds[j], Below(|D|)) + {j}
  }

  ghost function Sizes(D: seq<set<nat>>): (s: nat) {
    if D == [] then 0 else Sizes(D[..|D| - 1]) + |D[|D| - 1]|
  }

  lemma {:induction false} SizesUpdate(D: seq<set<nat>>, j: nat, x: set<nat>)
    requires j < |D| && x < D[j]
    ensures Sizes(D[j := x]) < Sizes(D)
  {
    if j == |D| - 1 {
      assert D[j := x][..|D| - 1] == D[..|D| - 1];
      ProperSubsetSize(x, D[j]);
    } else {
      SizesUpdate(D[..|D| - 1], j, x);
      assert D[j := x][..|D| - 1] == D[..|D| - 1][j := x];
    }
  }

  lemma ProperSubsetSize(a: set<nat>, b: set<nat>)
    requires a < b
    ensures |a| < |b|
  {
    assert b == a + (b - a);
  }

  lemma TransferIsSafe(g: Flowgraph, recover: int, D: seq<set<nat>>, j: nat, x: set<nat>)
    requires Buildable(g, recover) && Safe(g, recover, D) && 0 < j < |D| && j != recover
    requires x == Meet(D, g.preds[j], Below(|D|)) + {j}
    ensures Safe(g, recover, D[j := x])
  {
    MeetElements(D, g.preds[j], Below(|D|));
    forall i | i in Doms(g, j) ensures i in x {
      if i != j {
        forall k | 0 <= k < |g.preds[j]| ensures i in D[g.preds[j][k]] {
          var u := g.preds[j][k];
          assert u in g.preds[j];
          assert (u, j) in g.EdgeSet();
          assert u != recover;
          StrictDominatorOfEdge(g.EdgeSet(), 0, i, u, j);
          assert i in Doms(g, u);
        }
      }
    }
  }

  lemma {:induction false} MeetMonotone(D: seq<set<nat>>, j: nat, x: set<nat>, ps: seq<nat>, all: set<nat>)
    requires j < |D| && x <= D[j] && AllBelow(ps, |D|)
    ensures Meet(D[j := x], ps, all) <= Meet(D, ps, all)
  {
    if ps != [] {
      MeetMonotone(D, j, x, ps[..|ps| - 1], all);
    }
  }

  /** At a fixed point every element of D[j] lies on every walk from the entry to j. */
  lemma {:induction false} FixedPointSound(g: Flowgraph, recover: int, D: seq<set<nat>>, i: nat, p: seq<nat>)
    requires Buildable(g, recover) && Safe(g, recover, D)
    requires forall j :: 0 < j < |D| && j != recover ==> FixedAt(g, D, j)
    requires Walk(g.EdgeSet(), p) && p[0] == 0 && p[|p| - 1] < |D| && p[|p| - 1] != recover
    requires i in D[p[|p| - 1]]
    ensures i in p
    decreases |p|
  {
    var j := p[|p| - 1];
    if i != j && j != 0 {
      assert Step(g.EdgeSet(), p, |p| - 1);
      var q := p[0..|p| - 1];
      var u := p[|p| - 2];
      WalkSlice(g.EdgeSet(), p, 0, |p| - 1);
      assert u in g.preds[j] && u != recover && FixedAt(g, D, j);
      MeetElements(D, g.preds[j], Below(|D|));
      FixedPointSound(g, recover, D, i, q);
    }
  }

  /** sanityCheckDomTree's analysis: it terminates, with D[j] the dominators of j. */
  method Kildall(g: Flowgraph, recover: int) returns (D: seq<set<nat>>)
    requires Buildable(g, recover)
    ensures |D| == |g.succs|
    ensures forall i: nat, j: nat :: i < |D| && j < |D| && j != recover ==> (i in D[j] <==> Dominates(g.EdgeSet(), 0, i, j))
  {
    var n := |g.succs|;
    var blocks := seq(n, i => i);
    var all: set<nat> := set i | i in blocks;
    D := seq(n, i => if i == 0 || i == recover then {0} else all);
    EntryOnly(g);
    forall i: nat ensures i in all <==> i < n {
      assert i < n ==> blocks[i] == i;
    }
    assert all == Below(n);
    assert Safe(g, recover, D);
    forall j | 0 < j < n && j != recover ensures Shrinks(g, D, j) {
      MeetElements(D, g.preds[j], Below(n));
    }
    var changed := true;
    while changed
      invariant Safe(g, recover, D)
      invariant forall j :: 0 < j < n && j != recover ==> Shrinks(g, D, j)
      invariant !changed ==> forall j :: 0 < j < n && j != recover ==> FixedAt(g, D, j)
      decreases Sizes(D), changed
    {
      D, changed := Round(g, recover, D, all);
    }
    forall i: nat, j: nat | i < n && j < n && j != recover ensures i in D[j] <==> Dominates(g.EdgeSet(), 0, i, j) {
      FixedPointExact(g, recover, D, i, j);
    }
  }

  lemma FixedPointExact(g: Flowgraph, recover: int, D: seq<set<nat>>, i: nat, j: nat)
    requires Buildable(g, recover) && Safe(g, recover, D) && i < |D| && j < |D| && j != recover
    requires forall j :: 0 < j < |D| && j != recover ==> FixedAt(g, D, j)
    ensures i in D[j] <==> Dominates(g.EdgeSet(), 0, i, j)
  {
    assert i in Doms(g, j) <==> Dominates(g.EdgeSet(), 0, i, j);
    if i in D[j] {
      forall p | WalkFromTo(g.EdgeSet(), p, 0, j) ensures i in p {
        FixedPointSound(g, recover, D, i, p);
      }
    }
  }

  lemma EntryOnly(g: Flowgraph)
    requires g.Valid()
    ensures Doms(g, 0) == {0}
  {
    assert WalkFromTo(g.EdgeSet(), [0], 0, 0);
    forall d | d in Doms(g, 0) ensures d == 0 {
      assert d in [0];
    }
    DominatesSelf(g.EdgeSet(), 0, 0);
  }

  /** One pass over the blocks. */
  method Round(g: Flowgraph, recover: int, D0: seq<set<nat>>, all: set<nat>) returns (D: seq<set<nat>>, changed: bool)
    requires Buildable(g, recover) && Safe(g, recover, D0) && all == Below(|D0|)
    requires forall j :: 0 < j < |D0| && j != recover ==> Shrinks(g, D0, j)
    ensures Safe(g, recover, D) && forall j :: 0 < j < |D| && j != recover ==> Shrinks(g, D, j)
    ensures if changed then Sizes(D) < Sizes(D0) else D == D0
    ensures !changed ==> forall j :: 0 < j < |D| && j != recover ==> FixedAt(g, D, j)
  {
    D, changed := D0, false;
    var i := 0;
    while i < |D0|
      invariant i <= |D0| == |D| && Safe(g, recover, D)
      invariant forall j :: 0 < j < |D| && j != recover ==> Shrinks(g, D, j)
      invariant if changed then Sizes(D) < Sizes(D0) else D == D0
      invariant !changed ==> forall j :: 0 < j < i && j != recover ==> FixedAt(g, D, j)
    {
      if i != 0 && i != recover {
        var x := Intersect(g, D, i, all);
        if D[i] != x {
          TransferIsSafe(g, recover, D, i, x);
          assert Shrinks(g, D, i);
          SizesUpdate(D, i, x);
          var D' := D[i := x];
          forall j | 0 < j < |D| && j != recover ensures Shrinks(g, D', j) {
            assert Shrinks(g, D, j);
            MeetMonotone(D, i, x, g.preds[j], Below(|D|));
          }
          D := D';
          changed := true;
        }
      }
      i := i + 1;
    }
  }

  /** The intersection across predecessors, with the block itself added. */
  method Intersect(g: Flowgraph, D: seq<set<nat>>, i: nat, all: set<nat>) returns (x: set<nat>)
    requires g.Valid() && |D| == |g.succs| && i < |D|
    ensures x == Meet(D, g.preds[i], all) + {i}
  {
    x := all;
    var k := 0;
    while k < |g.preds[i]|
      invariant k <= |g.preds[i]|
      invariant x == Meet(D, g.preds[i][..k], all)
    {
      assert g.preds[i][k] in g.preds[i];
      assert g.preds[i][..k + 1][..k] == g.preds[i][..k];
      x := x * D[g.preds[i][k]];
      k := k + 1;
    }
    assert g.preds[i][..k] == g.preds[i];
    x := x + {i};
  }
}
