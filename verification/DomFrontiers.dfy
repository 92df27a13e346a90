/** Dominance frontiers (domFrontier.build), and the insertion of phi nodes at iterated
    dominance frontiers (the second half of liftAlloc), after Cytron et al. (1991). */
module DomFrontiers {
  import opened Paths
  import opened Flowgraphs
  import opened LengauerTarjan
  import opened DomTrees

  /** v is in the dominance frontier of u: u dominates a predecessor of v but not strictly v. */
  ghost predicate InFrontier(g: Flowgraph, u: nat, v: nat) {
    && v < |g.preds|
    && !StrictlyDominates(g.EdgeSet(), 0, u, v)
    && exists p :: p in g.preds[v] && Dominates(g.EdgeSet(), 0, u, p)
  }

  /** The facts about a dominator tree that the frontier computation relies on. */
  ghost predicate TreeOf(g: Flowgraph, recover: int, idom: seq<int>, children: seq<seq<nat>>) {
    Buildable(g, recover) && IsDomTree(g, recover, idom, children) && Ranked(idom, DomRank(g))
  }

  lemma NotRecover(g: Flowgraph, recover: int, idom: seq<int>, children: seq<seq<nat>>, u: nat, v: nat)
    requires TreeOf(g, recover, idom, children) && u < |g.succs| && v in g.succs[u]
    ensures u != recover && v != recover && v < |g.succs| && u in g.preds[v] && (u, v) in g.EdgeSet()
    ensures Reaches(g.EdgeSet(), 0, u) && Reaches(g.EdgeSet(), 0, v)
  {
  }

  /** The immediate dominator of v is u exactly when u, a predecessor of v, strictly dominates v. */
  lemma LocalFrontier(g: Flowgraph, recover: int, idom: seq<int>, children: seq<seq<nat>>, u: nat, v: nat)
    requires TreeOf(g, recover, idom, children) && u < |g.succs| && v in g.succs[u]
    ensures idom[v] == u <==> StrictlyDominates(g.EdgeSet(), 0, u, v)
    ensures idom[v] != u ==> InFrontier(g, u, v)
  {
    var E := g.EdgeSet();
    NotRecover(g, recover, idom, children, u, v);
    if StrictlyDominates(E, 0, u, v) && v != 0 {
      assert Dominates(E, 0, u, idom[v]);
      StrictDominatorOfEdge(E, 0, idom[v], u, v);
      DominatesAntisymmetric(E, 0, idom[v], u);
    }
    if v == 0 { EntryHasNoStrictDominator(g, u); }
    DominatesSelf(E, 0, u);
  }

  lemma EntryHasNoStrictDominator(g: Flowgraph, u: nat)
    ensures !StrictlyDominates(g.EdgeSet(), 0, u, 0)
  {
    assert WalkFromTo(g.EdgeSet(), [0], 0, 0);
    assert Dominates(g.EdgeSet(), 0, u, 0) ==> u in [0];
  }

  /** The frontier of a child passes up to its parent u, except for the blocks that u immediately dominates. */
  lemma FrontierUp(g: Flowgraph, recover: int, idom: seq<int>, children: seq<seq<nat>>, u: nat, w: nat, v: nat)
    requires TreeOf(g, recover, idom, children) && w < |g.succs| && u < |g.succs| && idom[w] == u && InFrontier(g, w, v)
    ensures idom[v] != u ==> InFrontier(g, u, v)
  {
    var E := g.EdgeSet();
    assert Reaches(E, 0, w);
    var p :| p in g.preds[v] && Dominates(E, 0, w, p);
    NotRecover(g, recover, idom, children, p, v);
    DominatesTransitive(E, 0, u, w, p);
    if idom[v] != u && StrictlyDominates(E, 0, u, v) {
      var d := idom[v];
      if v == 0 { EntryHasNoStrictDominator(g, u); }
      StrictDominatorOfEdge(E, 0, d, p, v);
      DominatorsChain(E, 0, w, d, p);
      assert Dominates(E, 0, u, d);
      if Dominates(E, 0, w, d) {
        DominatesTransitive(E, 0, w, d, v);
      } else if d != w {
        assert Dominates(E, 0, d, u);
        ReachesDominator(g, d, v);
        DominatesAntisymmetric(E, 0, u, d);
      }
    }
  }

  /** A dominator of a reachable block is reachable. */
  lemma ReachesDominator(g: Flowgraph, d: nat, v: nat)
    requires Reaches(g.EdgeSet(), 0, v) && Dominates(g.EdgeSet(), 0, d, v)
    ensures Reaches(g.EdgeSet(), 0, d)
  {
    var p :| WalkFromTo(g.EdgeSet(), p, 0, v);
    var i :| 0 <= i < |p| && p[i] == d;
    WalkSlice(g.EdgeSet(), p, 0, i + 1);
  }

  /** Conversely, a frontier block of u is one of u's successors or in the frontier of a child. */
  lemma FrontierDown(g: Flowgraph, recover: int, idom: seq<int>, children: seq<seq<nat>>, u: nat, v: nat) returns (w: nat)
    requires TreeOf(g, recover, idom, children) && u < |g.succs| && InFrontier(g, u, v)
    ensures idom[v] != u
    ensures v in g.succs[u] || (w < |idom| && idom[w] == u && InFrontier(g, w, v))
  {
    var E := g.EdgeSet();
    w := u;
    var p :| p in g.preds[v] && Dominates(E, 0, u, p);
    NotRecover(g, recover, idom, children, p, v);
    if p != u {
      AboveIsDominance(g, recover, idom, children, u, p);
      w := AboveChild(idom, DomRank(g), u, p);
      AboveIsDominance(g, recover, idom, children, w, p);
      if StrictlyDominates(E, 0, w, v) {
        DominatesTransitive(E, 0, u, w, v);
        assert u == v;
        ReachesDominator(g, w, v);
        DominatesAntisymmetric(E, 0, w, v);
      }
    }
  }

  class DomFrontier {
    const g: Flowgraph
    const idom: seq<int>
    const children: seq<seq<nat>>
    var df: seq<seq<nat>>

    constructor (g: Flowgraph, idom: seq<int>, children: seq<seq<nat>>)
      ensures this.g == g && this.idom == idom && this.children == children && df == seq(|g.succs|, _ => [])
    {
      this.g, this.idom, this.children := g, idom, children;
      df := seq(|g.succs|, _ => []);
    }

    method Add(u: nat, v: nat)
      requires u < |df|
      modifies this`df
      ensures df == old(df)[u := old(df)[u] + [v]]
    {
      df := df[u := df[u] + [v]];
    }

    /** df[u] is the frontier of u, possibly with repetitions. */
    ghost predicate Exact(u: nat)
      reads this
    {
      u < |df| && forall v :: v in df[u] <==> InFrontier(g, u, v)
    }

    /** The frontier of u so far: from the successors ss and the children ws. */
    ghost predicate Partial(u: nat, ss: seq<nat>, ws: seq<nat>)
      reads this
    {
      u < |df| && forall v: nat :: v in df[u] <==> v < |idom| && idom[v] != u && (v in ss || exists w :: w in ws && InFrontier(g, w, v))
    }

    method Build(u: nat, ghost recover: int)
      requires TreeOf(g, recover, idom, children) && |df| == |g.succs| && u < |df|
      requires forall x :: x in Tree(idom, DomRank(g), u) ==> df[x] == []
      modifies this`df
      ensures |df| == |old(df)|
      ensures forall x :: x in Tree(idom, DomRank(g), u) ==> Exact(x)
      ensures forall x :: 0 <= x < |df| && x !in Tree(idom, DomRank(g), u) ==> df[x] == old(df)[x]
      decreases |idom| - DomRank(g)[u]
    {
      ghost var rank := DomRank(g);
      var k := 0;
      while k < |children[u]|
        invariant k <= |children[u]| && |df| == |old(df)|
        invariant forall x :: x in Trees(idom, rank, children[u][..k]) ==> Exact(x)
        invariant forall x :: 0 <= x < |df| && x !in Trees(idom, rank, children[u][..k]) ==> df[x] == old(df)[x]
      {
        BuildChild(u, k, recover);
        k := k + 1;
      }
      assert children[u][..k] == children[u];
      NotBelowItself(idom, rank, u, children[u]);
      BelowRoot(g, recover, idom, children, u);
      BuildLocal(u, recover);
      BuildUp(u, recover);
      forall v ensures v in df[u] <==> InFrontier(g, u, v) {
        FrontierSplit(g, recover, idom, children, u, v);
      }
    }

    /** One turn of the first loop: the subtree of the k-th child. */
    method BuildChild(u: nat, k: nat, ghost recover: int)
      requires TreeOf(g, recover, idom, children) && |df| == |g.succs| && u < |df| && k < |children[u]|
      requires forall x :: x in Tree(idom, DomRank(g), u) && x !in Trees(idom, DomRank(g), children[u][..k]) ==> df[x] == []
      requires forall x :: x in Trees(idom, DomRank(g), children[u][..k]) ==> Exact(x)
      modifies this`df
      ensures |df| == |old(df)|
      ensures Trees(idom, DomRank(g), children[u][..k]) <= Trees(idom, DomRank(g), children[u][..k + 1])
      ensures forall x :: x in Trees(idom, DomRank(g), children[u][..k + 1]) ==> Exact(x)
      ensures forall x :: 0 <= x < |df| && x !in Trees(idom, DomRank(g), children[u][..k + 1]) ==> df[x] == old(df)[x]
      decreases |idom| - DomRank(g)[u], 0
    {
      ghost var rank, cs := DomRank(g), children[u][..k];
      var c := children[u][k];
      assert c in children[u];
      assert forall d :: d in cs ==> d in children[u];
      assert c !in cs by { assert Distinct(children[u]); }
      SubtreesApart(idom, rank, u, cs, c);
      Build(c, recover);
      assert children[u][..k + 1] == cs + [c];
      TreesAppend(idom, rank, cs, c);
    }

    /** The second loop: u's own successors. */
    method BuildLocal(u: nat, ghost recover: int)
      requires TreeOf(g, recover, idom, children) && |df| == |g.succs| && u < |df| && df[u] == []
      modifies this`df
      ensures |df| == |old(df)| && df == old(df)[u := df[u]] && Partial(u, g.succs[u], [])
    {
      var k := 0;
      while k < |g.succs[u]|
        invariant k <= |g.succs[u]| && |df| == |old(df)| && df == old(df)[u := df[u]]
        invariant Partial(u, g.succs[u][..k], [])
      {
        var v := g.succs[u][k];
        assert g.succs[u][..k + 1] == g.succs[u][..k] + [v];
        if idom[v] != u {
          Add(u, v);
        }
        k := k + 1;
      }
      assert g.succs[u][..k] == g.succs[u];
    }

    /** The third loop: the frontiers of the children. */
    method BuildUp(u: nat, ghost recover: int)
      requires TreeOf(g, recover, idom, children) && |df| == |g.succs| && u < |df| && Partial(u, g.succs[u], [])
      requires forall c :: c in children[u] ==> c != u && Exact(c)
      modifies this`df
      ensures |df| == |old(df)| && df == old(df)[u := df[u]] && Partial(u, g.succs[u], children[u])
    {
      var k := 0;
      while k < |children[u]|
        invariant k <= |children[u]| && |df| == |old(df)| && df == old(df)[u := df[u]]
        invariant Partial(u, g.succs[u], children[u][..k])
      {
        var w := children[u][k];
        assert w in children[u];
        assert children[u][..k + 1] == children[u][..k] + [w];
        UnionFrontier(u, w, children[u][..k]);
        k := k + 1;
      }
      assert children[u][..k] == children[u];
    }

    method UnionFrontier(u: nat, w: nat, ghost ws: seq<nat>)
      requires |df| == |g.succs| == |idom| == |g.preds| && u < |df| && w < |df| && u != w && Exact(w) && Partial(u, g.succs[u], ws)
      modifies this`df
      ensures |df| == |old(df)| && df == old(df)[u := df[u]] && Partial(u, g.succs[u], ws + [w])
    {
      var k := 0;
      while k < |df[w]|
        invariant |df| == |old(df)| && k <= |df[w]| && df == old(df)[u := df[u]]
        invariant forall v: nat :: v in df[u] <==> v in old(df)[u] || (v in df[w][..k] && v < |idom| && idom[v] != u)
      {
        var vb := df[w][k];
        assert vb in df[w];
        assert df[w][..k + 1] == df[w][..k] + [vb];
        if idom[vb] != u {
          Add(u, vb);
        }
        k := k + 1;
      }
      assert df[w][..k] == df[w];
      forall v: nat ensures (exists x :: x in ws + [w] && InFrontier(g, x, v)) <==> (exists x :: x in ws && InFrontier(g, x, v)) || InFrontier(g, w, v) {
        assert w in ws + [w];
        assert forall x :: x in ws ==> x in ws + [w];
      }
    }
  }

  lemma BelowRoot(g: Flowgraph, recover: int, idom: seq<int>, children: seq<seq<nat>>, u: nat)
    requires TreeOf(g, recover, idom, children) && u < |idom|
    ensures Tree(idom, DomRank(g), u) == {u} + Trees(idom, DomRank(g), children[u])
    ensures forall c :: c in children[u] ==> c != u && c in Trees(idom, DomRank(g), children[u])
  {
    TreeOfChildren(idom, DomRank(g), u, children[u]);
  }

  /** A subtree is its root and the subtrees of its children. */
  lemma TreeOfChildren(idom: seq<int>, rank: seq<nat>, u: nat, cs: seq<nat>)
    requires Ranked(idom, rank) && u < |idom| && forall c: nat :: c in cs <==> c < |idom| && idom[c] == u
    ensures Tree(idom, rank, u) == {u} + Trees(idom, rank, cs)
    ensures forall c :: c in cs ==> c != u && c in Trees(idom, rank, cs)
  {
    forall x | x in Tree(idom, rank, u) && x != u ensures x in Trees(idom, rank, cs) {
      var c := AboveChild(idom, rank, u, x);
      TreesHas(idom, rank, cs, c, x);
    }
    forall x | x in Trees(idom, rank, cs) ensures x in Tree(idom, rank, u) {
      var c := TreesFrom(idom, rank, cs, x);
      AboveTransitive(idom, rank, u, c, x);
    }
    forall c | c in cs ensures c != u && c in Trees(idom, rank, cs) {
      TreesHas(idom, rank, cs, c, c);
    }
  }

  lemma FrontierSplit(g: Flowgraph, recover: int, idom: seq<int>, children: seq<seq<nat>>, u: nat, v: nat)
    requires TreeOf(g, recover, idom, children) && u < |idom|
    ensures InFrontier(g, u, v) <==>
            v < |idom| && idom[v] != u && (v in g.succs[u] || exists w :: w in children[u] && InFrontier(g, w, v))
  {
    if v < |idom| && idom[v] != u && v in g.succs[u] {
      LocalFrontier(g, recover, idom, children, u, v);
    }
    if v < |idom| && idom[v] != u && exists w :: w in children[u] && InFrontier(g, w, v) {
      var w :| w in children[u] && InFrontier(g, w, v);
      FrontierUp(g, recover, idom, children, u, w, v);
    }
    if InFrontier(g, u, v) {
      var w := FrontierDown(g, recover, idom, children, u, v);
      assert v !in g.succs[u] ==> w in children[u];
    }
  }

  /** buildDomFrontier: the frontier of every block, the recover block included. */
  method BuildDomFrontier(g: Flowgraph, recover: int, idom: seq<int>, children: seq<seq<nat>>) returns (df: seq<seq<nat>>)
    requires Buildable(g, recover) && IsDomTree(g, recover, idom, children)
    ensures |df| == |g.succs|
    ensures forall u: nat, v: nat :: u < |df| ==> (v in df[u] <==> InFrontier(g, u, v))
  {
    DomTreeRanked(g, recover, idom, children);
    ForestOfTwo(g, recover, idom, children);
    var d := new DomFrontier(g, idom, children);
    d.Build(0, recover);
    if recover != NIL {
      d.Build(recover, recover);
    }
    df := d.df;
    forall u: nat, v: nat | u < |df| ensures v in df[u] <==> InFrontier(g, u, v) {
      assert u in Tree(idom, DomRank(g), 0) || u == recover;
      assert d.Exact(u);
    }
  }

  // ----- phi insertion -----

  /** The frontier relation as a graph. */
  ghost function FrontierEdges(g: Flowgraph): (E: Edges)
    ensures forall u: nat, v: nat :: (u, v) in E <==> u < |g.succs| && v < |g.succs| && InFrontier(g, u, v)
  {
    set u, v | u in Below(|g.succs|) && v in Below(|g.succs|) && InFrontier(g, u, v) :: (u, v)
  }

  /** v is in the iterated frontier of defs: it is reached from a member of defs by one or
      more frontier steps. */
  ghost predicate InIterated(E: Edges, defs: set<nat>, v: nat) {
    exists d: nat, w: nat :: d in defs && Reaches(E, d, w) && (w, v) in E
  }

  /** The iterated frontier is closed: it holds the frontier of every definition and of itself. */
  lemma IteratedIsClosed(E: Edges, defs: set<nat>, u: nat, v: nat)
    requires u in defs || InIterated(E, defs, u)
    requires (u, v) in E
    ensures InIterated(E, defs, v)
  {
    if u in defs {
      ReachesSelf(E, u);
    } else {
      var d: nat, w: nat :| d in defs && Reaches(E, d, w) && (w, u) in E;
      ReachesEdge(E, w, u);
      ReachesTransitive(E, d, w, u);
    }
  }

  /** ... and it is the least such set. */
  lemma IteratedIsLeast(E: Edges, defs: set<nat>, S: set<nat>, v: nat)
    requires forall u, x :: (u in defs || u in S) && (u, x) in E ==> x in S
    requires InIterated(E, defs, v)
    ensures v in S
  {
    var d: nat, w: nat :| d in defs && Reaches(E, d, w) && (w, v) in E;
    var p :| WalkFromTo(E, p, d, w);
    StaysInside(E, defs, S, p);
  }

  lemma {:induction false} StaysInside(E: Edges, defs: set<nat>, S: set<nat>, p: seq<nat>)
    requires forall u, x :: (u in defs || u in S) && (u, x) in E ==> x in S
    requires Walk(E, p) && (p[0] in defs || p[0] in S)
    ensures p[|p| - 1] in defs || p[|p| - 1] in S
    decreases |p|
  {
    if |p| > 1 {
      assert Step(E, p, 1);
      WalkSlice(E, p, 1, |p|);
      StaysInside(E, defs, S, p[1..|p|]);
    }
  }

  /** blockSet.take: removes the least element, or returns -1 if there is none. */
  method Take(s: set<nat>, n: nat) returns (i: int, s': set<nat>)
    requires forall b :: b in s ==> b < n
    ensures if s == {} then i == -1 && s' == {}
            else i in s && s' == s - {i} && forall b :: b in s' ==> i < b
  {
    i, s' := 0, s;
    while i < n
      invariant 0 <= i <= n && s' == s && forall b :: b in s ==> i <= b
    {
      if i in s {
        s' := s - {i};
        return;
      }
      i := i + 1;
    }
    i := -1;
  }

  /** The frontier of u is in has. */
  ghost predicate Covered(E: Edges, has: set<nat>, u: nat) {
    forall v: nat {:trigger (u, v) in E} :: (u, v) in E ==> v in has
  }

  /** I holds the frontier of every member of defs and of I. */
  ghost predicate ClosedUnder(E: Edges, defs: set<nat>, I: set<nat>) {
    forall u: nat, v: nat {:trigger (u, v) in E} :: (u, v) in E && (u in defs || u in I) ==> v in I
  }

  /** Blocks seen but not in todo have their frontiers in has; has stays within I. */
  ghost predicate Progress(n: nat, E: Edges, defs: set<nat>, I: set<nat>, has: set<nat>, work: set<nat>, todo: set<nat>) {
    && todo <= work && work == defs + has && has <= I && (forall x :: x in work ==> x < n)
    && (forall u {:trigger Covered(E, has, u)} :: u in work && u !in todo ==> Covered(E, has, u))
  }

  /** newPhis is newPhis0 with one phi more in each block of has. */
  ghost predicate Placed<T>(newPhis0: seq<seq<T>>, newPhis: seq<seq<T>>, phi: nat -> T, has: set<nat>) {
    && |newPhis| == |newPhis0|
    && forall v :: 0 <= v < |newPhis| ==> newPhis[v] == newPhis0[v] + (if v in has then [phi(v)] else [])
  }

  /** Placing a phi in a new block v of the frontier of u. */
  lemma ProgressPlace(n: nat, E: Edges, defs: set<nat>, I: set<nat>, has: set<nat>, work: set<nat>, todo: set<nat>, u: nat, v: nat)
    requires Progress(n, E, defs, I, has, work, todo) && u in todo && (u, v) in E && v < n && v !in has && ClosedUnder(E, defs, I)
    ensures Progress(n, E, defs, I, has + {v}, work + {v}, if v in work then todo else todo + {v})
  {
    forall x | x in work + {v} && x !in (if v in work then todo else todo + {v}) ensures Covered(E, has + {v}, x) {
      assert Covered(E, has, x);
    }
  }

  /** The innermost step of the loop: a phi in block v, unless it has one already. */
  method PlaceOne<T>(ghost n: nat, ghost E: Edges, ghost defs: set<nat>, ghost I: set<nat>, ghost u: nat, v: nat, ghost newPhis0: seq<seq<T>>, newPhis1: seq<seq<T>>,
                  phi: nat -> T, hasAlready0: set<nat>, work0: set<nat>, W0: set<nat>)
    returns (newPhis: seq<seq<T>>, hasAlready: set<nat>, work: set<nat>, W: set<nat>)
    requires Placed(newPhis0, newPhis1, phi, hasAlready0) && Progress(n, E, defs, I, hasAlready0, work0, W0 + {u}) && u !in W0
    requires (u, v) in E && v < n == |newPhis0| && ClosedUnder(E, defs, I)
    ensures Placed(newPhis0, newPhis, phi, hasAlready) && Progress(n, E, defs, I, hasAlready, work, W + {u}) && u !in W
    ensures hasAlready0 <= hasAlready && v in hasAlready
    ensures (work == work0 && W == W0) || Count(n, work0) < Count(n, work) <= n
  {
    newPhis, hasAlready, work, W := newPhis1, hasAlready0, work0, W0;
    if v !in hasAlready {
      ProgressPlace(n, E, defs, I, hasAlready, work, W + {u}, u, v);
      hasAlready := hasAlready + {v};
      newPhis := newPhis[v := newPhis[v] + [phi(v)]];
      if v !in work {
        CountGrows(n, work, v);
        assert W + {u} + {v} == W + {v} + {u};
        work := work + {v};
        W := W + {v};
      } else {
        assert work + {v} == work;
      }
    }
  }

  /** How many numbers below n are in s. */
  ghost function Count(n: nat, s: set<nat>): (c: nat)
    ensures c <= n
  {
    if n == 0 then 0 else Count(n - 1, s) + (if n - 1 in s then 1 else 0)
  }

  lemma {:induction false} CountGrows(n: nat, s: set<nat>, v: nat)
    requires v !in s
    ensures Count(n, s + {v}) == Count(n, s) + (if v < n then 1 else 0)
  {
    if n > 0 { CountGrows(n - 1, s, v); }
  }

  /** The body of the phi-insertion loop, for one block u taken from the worklist. */
  method VisitFrontier<T>(df: seq<seq<nat>>, ghost n: nat, ghost E: Edges, ghost defs: set<nat>, ghost I: set<nat>, u: nat, ghost newPhis0: seq<seq<T>>,
                       newPhis1: seq<seq<T>>, phi: nat -> T, hasAlready0: set<nat>, work0: set<nat>, W0: set<nat>)
    returns (newPhis: seq<seq<T>>, hasAlready: set<nat>, work: set<nat>, W: set<nat>)
    requires u < |df| == |newPhis0| && FrontiersAre(df, E) && ClosedUnder(E, defs, I) && n == |df|
    requires Placed(newPhis0, newPhis1, phi, hasAlready0) && Progress(n, E, defs, I, hasAlready0, work0, W0 + {u}) && u !in W0
    ensures Placed(newPhis0, newPhis, phi, hasAlready) && Progress(n, E, defs, I, hasAlready, work, W)
    ensures (work == work0 && W == W0) || Count(n, work0) < Count(n, work) <= n
  {
    newPhis, hasAlready, work, W := newPhis1, hasAlready0, work0, W0;
    var k := 0;
    while k < |df[u]|
      invariant k <= |df[u]|
      invariant Placed(newPhis0, newPhis, phi, hasAlready) && Progress(n, E, defs, I, hasAlready, work, W + {u}) && u !in W
      invariant forall x :: 0 <= x < k ==> df[u][x] in hasAlready
      invariant (work == work0 && W == W0) || Count(n, work0) < Count(n, work) <= n
    {
      var v := df[u][k];
      assert FrontierIs(df, E, u, v);
      newPhis, hasAlready, work, W := PlaceOne(n, E, defs, I, u, v, newPhis0, newPhis, phi, hasAlready, work, W);
      k := k + 1;
    }
    FrontierCovered(df, E, hasAlready, u);
    ProgressDone(n, E, defs, I, hasAlready, work, W, u);
  }

  lemma FrontierCovered(df: seq<seq<nat>>, E: Edges, has: set<nat>, u: nat)
    requires u < |df| && FrontiersAre(df, E) && forall x :: 0 <= x < |df[u]| ==> df[u][x] in has
    ensures Covered(E, has, u)
  {
    forall v: nat | (u, v) in E ensures v in has {
      assert FrontierIs(df, E, u, v);
    }
  }

  lemma ProgressTake(n: nat, E: Edges, defs: set<nat>, I: set<nat>, has: set<nat>, work: set<nat>, W0: set<nat>, W: set<nat>, i: nat)
    requires Progress(n, E, defs, I, has, work, W0) && i in W0 && W == W0 - {i}
    ensures Progress(n, E, defs, I, has, work, W + {i}) && i !in W && i < n && Count(n, W) < Count(n, W0)
  {
    assert W + {i} == W0;
    CountGrows(n, W, i);
  }

  lemma ProgressDone(n: nat, E: Edges, defs: set<nat>, I: set<nat>, has: set<nat>, work: set<nat>, W: set<nat>, u: nat)
    requires Progress(n, E, defs, I, has, work, W + {u}) && Covered(E, has, u)
    ensures Progress(n, E, defs, I, has, work, W)
  {
  }

  /** df lists the relation E. */
  ghost predicate FrontiersAre(df: seq<seq<nat>>, E: Edges) {
    forall u, v :: 0 <= u < |df| && 0 <= v ==> FrontierIs(df, E, u, v)
  }

  ghost predicate FrontierIs(df: seq<seq<nat>>, E: Edges, u: nat, v: nat)
    requires u < |df|
  {
    (v in df[u] <==> (u, v) in E) && (v in df[u] ==> v < |df|)
  }

  /** The phi-insertion loop of liftAlloc: one phi in each block of the iterated dominance
      frontier of the defining blocks, and none elsewhere. */
  method PlacePhis<T>(df: seq<seq<nat>>, defs: set<nat>, ghost E: Edges, newPhis0: seq<seq<T>>, phi: nat -> T)
    returns (newPhis: seq<seq<T>>)
    requires (forall x :: x in defs ==> x < |df|) && FrontiersAre(df, E) && |newPhis0| == |df|
    requires forall u, v :: (u, v) in E ==> u < |df| && v < |df|
    ensures |newPhis| == |newPhis0|
    ensures forall v :: 0 <= v < |newPhis| ==> newPhis[v] == newPhis0[v] + (if InIterated(E, defs, v) then [phi(v)] else [])
  {
    ghost var I := Iterated(|df|, E, defs);
    var hasAlready;
    newPhis, hasAlready := PlaceAll(df, defs, |df|, E, I, newPhis0, phi);
    Finished(|df|, E, defs, I, hasAlready, defs + hasAlready);
  }

  /** The loop itself; I is any set that holds the frontiers of defs and its own. */
  method PlaceAll<T>(df: seq<seq<nat>>, defs: set<nat>, ghost n: nat, ghost E: Edges, ghost I: set<nat>, newPhis0: seq<seq<T>>, phi: nat -> T)
    returns (newPhis: seq<seq<T>>, hasAlready: set<nat>)
    requires (forall x :: x in defs ==> x < n) && n == |df| && FrontiersAre(df, E) && |newPhis0| == |df| && ClosedUnder(E, defs, I)
    ensures Placed(newPhis0, newPhis, phi, hasAlready)
    ensures Progress(n, E, defs, I, hasAlready, defs + hasAlready, {})
  {
    var work, W;
    newPhis := newPhis0;
    hasAlready, work, W := {}, defs, defs;
    while true
      invariant Placed(newPhis0, newPhis, phi, hasAlready)
      invariant Progress(n, E, defs, I, hasAlready, work, W)
      decreases n - Count(n, work), Count(n, W)
    {
      ghost var W0 := W;
      var i;
      i, W := Take(W, |df|);
      if i == -1 {
        assert W0 == {};
        break;
      }
      ProgressTake(n, E, defs, I, hasAlready, work, W0, W, i);
      newPhis, hasAlready, work, W := VisitFrontier(df, n, E, defs, I, i, newPhis0, newPhis, phi, hasAlready, work, W);
    }
  }

  /** The iterated frontier as a set. */
  lemma Iterated(n: nat, E: Edges, defs: set<nat>) returns (I: set<nat>)
    requires forall u, v :: (u, v) in E ==> v < n
    ensures ClosedUnder(E, defs, I)
    ensures forall v :: v in I ==> InIterated(E, defs, v)
  {
    I := set v | v in Below(n) && InIterated(E, defs, v);
    forall u: nat, v: nat | (u, v) in E && (u in defs || u in I) ensures v in I {
      IteratedIsClosed(E, defs, u, v);
    }
  }

  lemma Finished(n: nat, E: Edges, defs: set<nat>, I: set<nat>, has: set<nat>, work: set<nat>)
    requires Progress(n, E, defs, I, has, work, {}) && forall v :: v in I ==> InIterated(E, defs, v)
    ensures forall v: nat :: v in has <==> InIterated(E, defs, v)
  {
    forall v: nat | InIterated(E, defs, v) ensures v in has {
      forall u, x | (u in defs || u in has) && (u, x) in E ensures x in has {
        assert Covered(E, has, u);
      }
      IteratedIsLeast(E, defs, has, v);
    }
  }

  lemma EdgesOfFrontiers(g: Flowgraph, df: seq<seq<nat>>)
    requires g.Valid() && |df| == |g.succs|
    requires forall u: nat, v: nat :: u < |df| ==> (v in df[u] <==> InFrontier(g, u, v))
    ensures FrontiersAre(df, FrontierEdges(g))
    ensures forall u, v :: (u, v) in FrontierEdges(g) ==> u < |df| && v < |df|
  {
    forall u, v | 0 <= u < |df| && 0 <= v ensures FrontierIs(df, FrontierEdges(g), u, v) {
    }
  }
}
