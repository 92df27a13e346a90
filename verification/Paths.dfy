/** Walks in a directed graph and dominance, defined by walks only.
    Vertices are numbers; a graph is its set of edges. */
module Paths {
  type Edges = set<(nat, nat)>

  /** The i-th move of the walk p follows an edge. */
  ghost predicate Step(E: Edges, p: seq<nat>, i: nat) {
    0 < i < |p| && (p[i - 1], p[i]) in E
  }

  ghost predicate Walk(E: Edges, p: seq<nat>) {
    |p| > 0 && forall i :: 0 < i < |p| ==> Step(E, p, i)
  }

  ghost predicate WalkFromTo(E: Edges, p: seq<nat>, u: nat, v: nat) {
    Walk(E, p) && p[0] == u && p[|p| - 1] == v
  }

  ghost predicate Reaches(E: Edges, u: nat, v: nat) {
    exists p :: WalkFromTo(E, p, u, v)
  }

  /** d lies on every walk from root to v. */
  ghost predicate Dominates(E: Edges, root: nat, d: nat, v: nat) {
    forall p :: WalkFromTo(E, p, root, v) ==> d in p
  }

  ghost predicate StrictlyDominates(E: Edges, root: nat, d: nat, v: nat) {
    d != v && Dominates(E, root, d, v)
  }

  /** The immediate dominator: the strict dominator that all strict dominators dominate. */
  ghost predicate IsIdom(E: Edges, root: nat, d: nat, v: nat) {
    && StrictlyDominates(E, root, d, v)
    && forall x :: StrictlyDominates(E, root, x, v) ==> Dominates(E, root, x, d)
  }

  lemma WalkConcat(E: Edges, p: seq<nat>, q: seq<nat>)
    requires Walk(E, p) && Walk(E, q) && p[|p| - 1] == q[0]
    ensures WalkFromTo(E, p + q[1..], p[0], q[|q| - 1])
    ensures forall x :: x in p + q[1..] <==> x in p || x in q
  {
    var r := p + q[1..];
    forall i | 0 < i < |r| ensures Step(E, r, i) {
      if i < |p| {
        assert Step(E, p, i);
      } else {
        assert Step(E, q, i - |p| + 1);
      }
    }
    assert q == [q[0]] + q[1..];
    assert q[0] in p;
  }

  lemma WalkSlice(E: Edges, p: seq<nat>, i: nat, j: nat)
    requires Walk(E, p) && i < j <= |p|
    ensures WalkFromTo(E, p[i..j], p[i], p[j - 1])
  {
    var r := p[i..j];
    forall k | 0 < k < |r| ensures Step(E, r, k) {
      assert Step(E, p, i + k);
    }
  }

  lemma EdgeWalk(E: Edges, u: nat, v: nat)
    requires (u, v) in E
    ensures WalkFromTo(E, [u, v], u, v)
  {
  }

  lemma ReachesTransitive(E: Edges, u: nat, v: nat, w: nat)
    requires Reaches(E, u, v) && Reaches(E, v, w)
    ensures Reaches(E, u, w)
  {
    var p :| WalkFromTo(E, p, u, v);
    var q :| WalkFromTo(E, q, v, w);
    WalkConcat(E, p, q);
  }

  lemma ReachesEdge(E: Edges, u: nat, v: nat)
    requires (u, v) in E
    ensures Reaches(E, u, v)
  {
    EdgeWalk(E, u, v);
  }

  lemma ReachesSelf(E: Edges, u: nat)
    ensures Reaches(E, u, u)
  {
    assert WalkFromTo(E, [u], u, u);
  }

  lemma DominatesSelf(E: Edges, root: nat, v: nat)
    ensures Dominates(E, root, v, v)
  {
  }

  lemma DominatesTransitive(E: Edges, root: nat, a: nat, b: nat, c: nat)
    requires Dominates(E, root, a, b) && Dominates(E, root, b, c)
    ensures Dominates(E, root, a, c)
  {
    forall p | WalkFromTo(E, p, root, c) ensures a in p {
      var i :| 0 <= i < |p| && p[i] == b;
      WalkSlice(E, p, 0, i + 1);
      assert a in p[0..i + 1];
    }
  }

  /** Two blocks that dominate each other are the same block. */
  lemma DominatesAntisymmetric(E: Edges, root: nat, a: nat, b: nat)
    requires Reaches(E, root, b)
    requires Dominates(E, root, a, b) && Dominates(E, root, b, a)
    ensures a == b
  {
    var p :| WalkFromTo(E, p, root, b);
    FirstOccurrence(E, root, p, a, b);
  }

  lemma {:induction false} FirstOccurrence(E: Edges, root: nat, p: seq<nat>, a: nat, b: nat)
    requires Walk(E, p) && p[0] == root && a in p
    requires Dominates(E, root, a, b) && Dominates(E, root, b, a)
    ensures a == b
    decreases |p|
  {
    var i :| 0 <= i < |p| && p[i] == a;
    WalkSlice(E, p, 0, i + 1);
    var j :| 0 <= j < |p[0..i + 1]| && p[0..i + 1][j] == b;
    if j < i {
      WalkSlice(E, p, 0, j + 1);
      FirstOccurrence(E, root, p[0..j + 1], a, b);
    }
  }

  /** A strict dominator of v dominates every predecessor of v that the root reaches. */
  lemma StrictDominatorOfEdge(E: Edges, root: nat, d: nat, u: nat, v: nat)
    requires (u, v) in E && StrictlyDominates(E, root, d, v)
    ensures Dominates(E, root, d, u)
  {
    forall p | WalkFromTo(E, p, root, u) ensures d in p {
      EdgeWalk(E, u, v);
      WalkConcat(E, p, [u, v]);
      assert d in p + [u, v][1..];
    }
  }

  /** Dominators of a common block are ordered by dominance. */
  lemma DominatorsChain(E: Edges, root: nat, a: nat, b: nat, c: nat)
    requires Reaches(E, root, c)
    requires Dominates(E, root, a, c) && Dominates(E, root, b, c)
    ensures Dominates(E, root, a, b) || Dominates(E, root, b, a)
  {
    if !Dominates(E, root, a, b) && !Dominates(E, root, b, a) {
      var pb :| WalkFromTo(E, pb, root, b) && a !in pb;
      var pa :| WalkFromTo(E, pa, root, a) && b !in pa;
      var p :| WalkFromTo(E, p, root, c);
      var i := LastOfTwo(p, a, b);
      WalkSlice(E, p, i, |p|);
      if p[i] == a {
        WalkConcat(E, pa, p[i..|p|]);
      } else {
        WalkConcat(E, pb, p[i..|p|]);
      }
    }
  }

  lemma {:induction false} LastOfTwo(p: seq<nat>, a: nat, b: nat) returns (i: nat)
    requires a in p || b in p
    ensures i < |p| && (p[i] == a || p[i] == b)
    ensures forall j :: i < j < |p| ==> p[j] != a && p[j] != b
  {
    i := |p| - 1;
    while p[i] != a && p[i] != b
      invariant i < |p|
      invariant forall j :: i < j < |p| ==> p[j] != a && p[j] != b
      decreases i
    {
      if i == 0 { assert false; }
      i := i - 1;
    }
  }
}
