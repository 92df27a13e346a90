/** Depth-first spanning forests and semidominators, after Lengauer and Tarjan (1979).
    Vertices are preorder numbers, so a < b means that the search met a before b. */
module Semidominators {
  import opened Paths

  /** par[k] is the tree parent of k; a root is its own parent. */
  datatype Forest = Forest(par: seq<nat>, E: Edges) {
    ghost predicate Valid() {
      && (forall k :: 0 <= k < |par| ==> VertexOk(k))
      && (forall u, v :: (u, v) in E ==> EdgeOk(u, v))
    }

    /** Preorder: a tree edge is an edge, and the parent of a vertex is an ancestor of the
        vertex numbered just before it. */
    ghost predicate VertexOk(k: nat) {
      k < |par| && par[k] <= k && (par[k] < k ==> (par[k], k) in E && Anc(par, par[k], k - 1))
    }

    /** Depth first: an edge to a later vertex leads to a descendant. */
    ghost predicate EdgeOk(u: nat, v: nat) {
      u < |par| && v < |par| && (u < v ==> Anc(par, u, v))
    }
  }

  /** a is an ancestor of b, or b itself. */
  ghost predicate Anc(par: seq<nat>, a: nat, b: nat)
    decreases b
  {
    a == b || (b < |par| && par[b] < b && Anc(par, a, par[b]))
  }

  lemma {:induction false} AncOrder(par: seq<nat>, a: nat, b: nat)
    requires Anc(par, a, b)
    ensures a <= b
    decreases b
  {
    if a != b { AncOrder(par, a, par[b]); }
  }

  lemma {:induction false} AncTransitive(par: seq<nat>, a: nat, b: nat, c: nat)
    requires Anc(par, a, b) && Anc(par, b, c)
    ensures Anc(par, a, c)
    decreases c
  {
    if b != c { AncTransitive(par, a, b, par[c]); AncOrder(par, b, par[c]); AncOrder(par, a, b); }
  }

  /** The ancestors of a vertex are ordered by ancestry. */
  lemma {:induction false} AncChain(par: seq<nat>, a: nat, b: nat, c: nat)
    requires Anc(par, a, c) && Anc(par, b, c) && a <= b
    ensures Anc(par, a, b)
    decreases c
  {
    AncOrder(par, a, c);
    AncOrder(par, b, c);
    if b != c && a != c { AncChain(par, a, b, par[c]); }
  }

  lemma {:induction false} AncPrefix(par: seq<nat>, par': seq<nat>, a: nat, b: nat)
    requires par <= par' && b < |par|
    ensures Anc(par, a, b) == Anc(par', a, b)
    decreases b
  {
    if par[b] < b { AncPrefix(par, par', a, par[b]); }
  }

  /** The descendants of a vertex are numbered contiguously. */
  lemma {:induction false} AncConvex(F: Forest, a: nat, b: nat, c: nat)
    requires F.Valid() && c < |F.par|
    requires Anc(F.par, a, c) && a <= b <= c
    ensures Anc(F.par, a, b)
    decreases c
  {
    if b < c {
      assert F.VertexOk(c);
      AncTransitive(F.par, a, F.par[c], c - 1);
      AncConvex(F, a, b, c - 1);
    }
  }

  /** The tree path from a down to b. */
  lemma {:induction false} TreePath(F: Forest, a: nat, b: nat) returns (p: seq<nat>)
    requires F.Valid() && b < |F.par| && Anc(F.par, a, b)
    ensures WalkFromTo(F.E, p, a, b)
    ensures forall x :: x in p ==> Anc(F.par, a, x) && Anc(F.par, x, b) && a <= x <= b
    decreases b
  {
    if a == b {
      p := [a];
    } else {
      var q := TreePath(F, a, F.par[b]);
      assert F.VertexOk(b);
      EdgeWalk(F.E, F.par[b], b);
      WalkConcat(F.E, q, [F.par[b], b]);
      p := q + [F.par[b], b][1..];
      AncOrder(F.par, a, b);
      forall x | x in p ensures Anc(F.par, a, x) && Anc(F.par, x, b) && a <= x <= b {
        if x != b { assert x in q; }
      }
    }
  }

  lemma {:induction false} LeastOn(p: seq<nat>, i: nat, j: nat) returns (m: nat)
    requires i <= j < |p|
    ensures i <= m <= j && forall k :: i <= k <= j ==> p[m] <= p[k]
    decreases j
  {
    if i == j {
      m := i;
    } else {
      m := LeastOn(p, i, j - 1);
      if p[j] < p[m] { m := j; }
    }
  }

  /** Every vertex of a walk that stays at or above x descends from x once it has met x. */
  lemma {:induction false} StaysBelow(F: Forest, p: seq<nat>, i: nat, j: nat)
    requires F.Valid() && Walk(F.E, p) && i <= j < |p| && p[i] < |F.par|
    requires forall k :: i <= k <= j ==> p[i] <= p[k]
    ensures p[j] < |F.par| && Anc(F.par, p[i], p[j])
    decreases j
  {
    if i < j {
      StaysBelow(F, p, i, j - 1);
      assert Step(F.E, p, j);
      if p[j - 1] < p[j] {
        AncTransitive(F.par, p[i], p[j - 1], p[j]);
      } else {
        AncConvex(F, p[i], p[j], p[j - 1]);
      }
    }
  }

  /** The path lemma: a walk to a later vertex meets a common ancestor of its ends. */
  lemma CommonAncestor(F: Forest, p: seq<nat>, i: nat, j: nat) returns (m: nat)
    requires F.Valid() && Walk(F.E, p) && i <= j < |p| && p[i] <= p[j]
    requires forall x :: x in p ==> x < |F.par|
    ensures i <= m <= j && Anc(F.par, p[m], p[i]) && Anc(F.par, p[m], p[j])
  {
    m := LeastOn(p, i, j);
    assert p[m] in p && p[j] in p;
    StaysBelow(F, p, m, j);
    AncConvex(F, p[m], p[i], p[j]);
  }

  // ----- semidominators -----

  /** A walk from v to w whose inner vertices are all numbered after w. */
  ghost predicate SemiWalk(F: Forest, p: seq<nat>, v: nat, w: nat) {
    && |p| >= 2
    && WalkFromTo(F.E, p, v, w)
    && forall i :: 0 < i < |p| - 1 ==> p[i] > w
  }

  ghost predicate IsSemi(F: Forest, s: nat, w: nat) {
    && (exists p :: SemiWalk(F, p, s, w))
    && forall v, p :: SemiWalk(F, p, v, w) ==> s <= v
  }

  lemma SemiUnique(F: Forest, s: nat, s': nat, w: nat)
    requires IsSemi(F, s, w) && IsSemi(F, s', w)
    ensures s == s'
  {
    var p :| SemiWalk(F, p, s, w);
    var p' :| SemiWalk(F, p', s', w);
  }

  lemma InRange(F: Forest, p: seq<nat>)
    requires F.Valid() && Walk(F.E, p) && |p| >= 2
    ensures forall x :: x in p ==> x < |F.par|
  {
    forall i | 0 <= i < |p| ensures p[i] < |F.par| {
      if i == 0 {
        assert Step(F.E, p, 1);
      } else {
        assert Step(F.E, p, i);
      }
    }
  }

  /** The semidominator of a non-root vertex is a proper ancestor. */
  lemma SemiIsAncestor(F: Forest, s: nat, w: nat)
    requires F.Valid() && w < |F.par| && F.par[w] < w && IsSemi(F, s, w)
    ensures s <= F.par[w] && Anc(F.par, s, w)
  {
    assert F.VertexOk(w);
    EdgeWalk(F.E, F.par[w], w);
    assert SemiWalk(F, [F.par[w], w], F.par[w], w);
    var p :| SemiWalk(F, p, s, w);
    InRange(F, p);
    var m := CommonAncestor(F, p, 0, |p| - 1);
    AncOrder(F.par, p[m], p[0]);
  }

  /** On a walk that leaves p[x], let p[j] be the first later vertex that is an ancestor of t:
      every vertex in between is numbered after p[j]. */
  lemma FirstAncestor(F: Forest, p: seq<nat>, x: nat, j: nat, t: nat)
    requires F.Valid() && Walk(F.E, p) && x < j < |p|
    requires Anc(F.par, p[j], t)
    requires forall i :: x < i < j ==> !Anc(F.par, p[i], t)
    ensures SemiWalk(F, p[x..j + 1], p[x], p[j])
  {
    InRange(F, p);
    WalkSlice(F.E, p, x, j + 1);
    forall i | x < i < j ensures p[i] > p[j] {
      if p[i] <= p[j] {
        var m := CommonAncestor(F, p, i, j);
        AncTransitive(F.par, p[m], p[j], t);
        if m == j { AncOrder(F.par, p[j], p[i]); }
      }
    }
  }

  lemma {:induction false} FirstAncestorExists(F: Forest, p: seq<nat>, x: nat, t: nat) returns (j: nat)
    requires x < |p| - 1 && Anc(F.par, p[|p| - 1], t)
    ensures x < j < |p| && Anc(F.par, p[j], t)
    ensures forall i :: x < i < j ==> !Anc(F.par, p[i], t)
  {
    j := x + 1;
    while !Anc(F.par, p[j], t)
      invariant x < j < |p|
      invariant forall i :: x < i < j ==> !Anc(F.par, p[i], t)
      decreases |p| - j
    {
      j := j + 1;
    }
  }

  /** Semidominators computed from predecessors (Theorem 4 of Lengauer and Tarjan): a candidate
      is a smaller predecessor of w, or the semidominator of a vertex u after w that is an
      ancestor of a predecessor of w. */
  ghost predicate Candidate(F: Forest, c: nat, w: nat) {
    || (c < w && (c, w) in F.E)
    || exists u, v :: w < u < |F.par| && (v, w) in F.E && Anc(F.par, u, v) && F.par[u] < u && IsSemi(F, c, u)
  }

  lemma CandidateIsSemiWalk(F: Forest, c: nat, w: nat) returns (p: seq<nat>)
    requires F.Valid() && Candidate(F, c, w)
    ensures SemiWalk(F, p, c, w)
  {
    if c < w && (c, w) in F.E {
      EdgeWalk(F.E, c, w);
      p := [c, w];
    } else {
      var u, v :| w < u < |F.par| && (v, w) in F.E && Anc(F.par, u, v) && F.par[u] < u && IsSemi(F, c, u);
      var q :| SemiWalk(F, q, c, u);
      var t := TreePath(F, u, v);
      EdgeWalk(F.E, v, w);
      WalkConcat(F.E, t, [v, w]);
      var r := t + [v, w][1..];
      WalkConcat(F.E, q, r);
      p := q + r[1..];
      forall i | 0 < i < |p| - 1 ensures p[i] > w {
        if i < |q| - 1 {
        } else if i == |q| - 1 {
          assert q[i] == u;
        } else {
          assert p[i] == r[i - |q| + 1] == t[i - |q| + 1];
          assert t[i - |q| + 1] in t;
        }
      }
    }
  }

  lemma SemiHasCandidate(F: Forest, v: nat, w: nat, p: seq<nat>) returns (c: nat)
    requires F.Valid() && SemiWalk(F, p, v, w) && v < w
    requires forall u :: w < u < |F.par| && F.par[u] < u ==> exists s :: IsSemi(F, s, u)
    requires forall u :: w < u < |F.par| && F.par[u] == u ==> forall e :: e in F.E ==> e.1 != u
    ensures Candidate(F, c, w) && c <= v
  {
    InRange(F, p);
    var l := |p| - 2;
    assert Step(F.E, p, l + 1);
    if l == 0 {
      c := v;
    } else {
      WalkSlice(F.E, p, 0, l + 1);
      var q := p[0..l + 1];
      var j := FirstAncestorExists(F, q, 0, p[l]);
      FirstAncestor(F, q, 0, j, p[l]);
      assert Step(F.E, p, j);
      var u := p[j];
      assert F.VertexOk(u);
      assert F.par[u] != u;
      c :| IsSemi(F, c, u);
    }
  }

  // ----- dominance in terms of semidominators -----

  /** sd[k] is the semidominator of k, for every non-root k >= lo. */
  ghost predicate SemisFrom(F: Forest, sd: seq<nat>, lo: nat) {
    |sd| == |F.par| && forall k :: lo <= k < |sd| && F.par[k] < k ==> IsSemi(F, sd[k], k)
  }

  /** No vertex of the tree path below d down to w has a semidominator above d. */
  ghost predicate NoBypass(F: Forest, sd: seq<nat>, d: nat, w: nat)
    requires |sd| == |F.par|
  {
    forall y :: d < y < |sd| && Anc(F.par, d, y) && Anc(F.par, y, w) ==> d <= sd[y]
  }

  lemma RootedIsNonRoot(F: Forest, k: nat)
    requires F.Valid() && 0 < k < |F.par| && Anc(F.par, 0, k)
    ensures F.par[k] < k
  {
  }

  /** A dominator of a vertex of the entry's tree is an ancestor of it. */
  lemma DominatorIsAncestor(F: Forest, d: nat, w: nat)
    requires F.Valid() && w < |F.par| && Anc(F.par, 0, w)
    requires Dominates(F.E, 0, d, w)
    ensures Anc(F.par, d, w)
  {
    var p := TreePath(F, 0, w);
    assert d in p;
  }

  /** A walk around d: some vertex below d on the tree path to w has a semidominator above d. */
  lemma Bypass(F: Forest, sd: seq<nat>, d: nat, w: nat, p: seq<nat>) returns (y: nat)
    requires F.Valid() && w < |F.par| && Anc(F.par, 0, w) && SemisFrom(F, sd, 1)
    requires Anc(F.par, d, w) && d < w
    requires WalkFromTo(F.E, p, 0, w) && d !in p
    ensures d < y < |sd| && Anc(F.par, d, y) && Anc(F.par, y, w) && sd[y] < d
  {
    InRange(F, p);
    var x := LastBelow(p, d);
    var j := FirstAncestorExists(F, p, x, w);
    y := p[j];
    assert y != d && y >= d;
    FirstAncestor(F, p, x, j, w);
    AncChain(F.par, d, y, w);
    assert Anc(F.par, 0, y) by { AncChain(F.par, 0, y, w); }
    RootedIsNonRoot(F, y);
  }

  lemma {:induction false} LastBelow(p: seq<nat>, d: nat) returns (x: nat)
    requires |p| > 0 && p[0] < d && p[|p| - 1] >= d
    ensures x < |p| - 1 && p[x] < d && forall i :: x < i < |p| ==> p[i] >= d
  {
    x := |p| - 2;
    while p[x] >= d
      invariant 0 <= x < |p| - 1
      invariant forall i :: x < i < |p| ==> p[i] >= d
      decreases x
    {
      x := x - 1;
    }
  }

  /** The converse: a semidominator above d on the path below d gives a walk around d. */
  lemma BypassWalk(F: Forest, sd: seq<nat>, d: nat, w: nat, y: nat) returns (p: seq<nat>)
    requires F.Valid() && w < |F.par| && Anc(F.par, 0, w) && SemisFrom(F, sd, 1)
    requires d < y < |sd| && Anc(F.par, d, y) && Anc(F.par, y, w) && sd[y] < d
    ensures WalkFromTo(F.E, p, 0, w) && d !in p
  {
    AncChain(F.par, 0, y, w);
    RootedIsNonRoot(F, y);
    var s := sd[y];
    SemiIsAncestor(F, s, y);
    AncChain(F.par, 0, s, y);
    var t := TreePath(F, 0, s);
    var q :| SemiWalk(F, q, s, y);
    WalkConcat(F.E, t, q);
    var tq := t + q[1..];
    var r := TreePath(F, y, w);
    WalkConcat(F.E, tq, r);
    p := tq + r[1..];
  }

  /** Dominance by semidominators: a proper ancestor d of w dominates w exactly when no vertex
      between them has a semidominator above d. */
  lemma DominatesIffNoBypass(F: Forest, sd: seq<nat>, d: nat, w: nat)
    requires F.Valid() && w < |F.par| && Anc(F.par, 0, w) && SemisFrom(F, sd, 1)
    requires Anc(F.par, d, w) && d < w
    ensures Dominates(F.E, 0, d, w) <==> NoBypass(F, sd, d, w)
  {
    if !Dominates(F.E, 0, d, w) {
      var p :| WalkFromTo(F.E, p, 0, w) && d !in p;
      var y := Bypass(F, sd, d, w, p);
    }
    if !NoBypass(F, sd, d, w) {
      var y :| d < y < |sd| && Anc(F.par, d, y) && Anc(F.par, y, w) && sd[y] < d;
      var p := BypassWalk(F, sd, d, w, y);
    }
  }

  /** u has the least semidominator on the tree path below sd[w] down to w. */
  ghost predicate LeastBelow(F: Forest, sd: seq<nat>, u: nat, w: nat)
    requires |sd| == |F.par| && w < |sd|
  {
    && sd[w] < u < |sd| && Anc(F.par, sd[w], u) && Anc(F.par, u, w)
    && forall y :: sd[w] < y < |sd| && Anc(F.par, y, w) ==> sd[u] <= sd[y]
  }

  /** Theorem 2 of Lengauer and Tarjan. */
  lemma IdomIsSemi(F: Forest, sd: seq<nat>, w: nat, u: nat)
    requires F.Valid() && 0 < w < |F.par| && Anc(F.par, 0, w) && SemisFrom(F, sd, 1)
    requires LeastBelow(F, sd, u, w) && sd[u] >= sd[w]
    ensures IsIdom(F.E, 0, sd[w], w)
  {
    var s := sd[w];
    RootedIsNonRoot(F, w);
    SemiIsAncestor(F, s, w);
    DominatesIffNoBypass(F, sd, s, w);
    forall x: nat | StrictlyDominates(F.E, 0, x, w) ensures Dominates(F.E, 0, x, s) {
      StrictDominatorAboveSemi(F, sd, x, w);
      if x != s {
        AncTransitive(F.par, x, s, w);
        DominatesIffNoBypass(F, sd, x, w);
        AncChain(F.par, 0, s, w);
        DominatesIffNoBypass(F, sd, x, s);
        forall y | x < y < |sd| && Anc(F.par, x, y) && Anc(F.par, y, s) ensures x <= sd[y] {
          AncTransitive(F.par, y, s, w);
        }
      }
    }
  }

  /** Every strict dominator of w is an ancestor of the semidominator of w. */
  lemma StrictDominatorAboveSemi(F: Forest, sd: seq<nat>, x: nat, w: nat)
    requires F.Valid() && 0 < w < |F.par| && Anc(F.par, 0, w) && SemisFrom(F, sd, 1)
    requires StrictlyDominates(F.E, 0, x, w)
    ensures x <= sd[w] && Anc(F.par, x, sd[w])
  {
    DominatorIsAncestor(F, x, w);
    AncOrder(F.par, x, w);
    DominatesIffNoBypass(F, sd, x, w);
    RootedIsNonRoot(F, w);
    SemiIsAncestor(F, sd[w], w);
    AncChain(F.par, x, sd[w], w);
  }

  /** Theorem 3 of Lengauer and Tarjan, for a vertex whose least semidominator is above its own:
      it has the same strict dominators as the vertex that attains it. */
  lemma SameStrictDominators(F: Forest, sd: seq<nat>, w: nat, u: nat, x: nat)
    requires F.Valid() && 0 < w < |F.par| && Anc(F.par, 0, w) && SemisFrom(F, sd, 1)
    requires LeastBelow(F, sd, u, w) && sd[u] < sd[w]
    ensures u < w
    ensures StrictlyDominates(F.E, 0, x, u) <==> StrictlyDominates(F.E, 0, x, w)
  {
    AncOrder(F.par, u, w);
    AncChain(F.par, 0, u, w);
    if StrictlyDominates(F.E, 0, x, u) {
      StrictDominatorAboveSemi(F, sd, x, u);
    }
    if StrictlyDominates(F.E, 0, x, w) {
      StrictDominatorAboveSemi(F, sd, x, w);
    }
    RootedIsNonRoot(F, w);
    SemiIsAncestor(F, sd[w], w);
    if x <= sd[w] && Anc(F.par, x, u) && Anc(F.par, x, w) {
      DominatesIffNoBypass(F, sd, x, u);
      DominatesIffNoBypass(F, sd, x, w);
      PathsAgree(F, sd, w, u, x);
    } else {
      if StrictlyDominates(F.E, 0, x, u) {
        DominatorIsAncestor(F, x, u);
        AncTransitive(F.par, x, u, w);
      }
      if StrictlyDominates(F.E, 0, x, w) {
        DominatorIsAncestor(F, x, w);
        AncChain(F.par, x, u, w);
      }
    }
  }

  lemma PathsAgree(F: Forest, sd: seq<nat>, w: nat, u: nat, x: nat)
    requires F.Valid() && w < |F.par| && |sd| == |F.par|
    requires LeastBelow(F, sd, u, w) && sd[u] < sd[w] && Anc(F.par, sd[w], w)
    requires x <= sd[w] && Anc(F.par, x, u) && Anc(F.par, x, w)
    ensures NoBypass(F, sd, x, u) <==> NoBypass(F, sd, x, w)
  {
    if NoBypass(F, sd, x, u) {
      assert x <= sd[u];
      forall y | x < y < |sd| && Anc(F.par, x, y) && Anc(F.par, y, w) ensures x <= sd[y] {
        if y <= sd[w] {
          AncChain(F.par, y, sd[w], w);
          AncTransitive(F.par, y, sd[w], u);
        }
      }
    }
    if NoBypass(F, sd, x, w) {
      forall y | x < y < |sd| && Anc(F.par, x, y) && Anc(F.par, y, u) ensures x <= sd[y] {
        AncTransitive(F.par, y, u, w);
      }
    }
  }

  /** Vertices with the same strict dominators have the same immediate dominator. */
  lemma SameIdom(F: Forest, sd: seq<nat>, w: nat, u: nat, d: nat)
    requires F.Valid() && 0 < w < |F.par| && Anc(F.par, 0, w) && SemisFrom(F, sd, 1)
    requires LeastBelow(F, sd, u, w) && sd[u] < sd[w]
    requires IsIdom(F.E, 0, d, u)
    ensures IsIdom(F.E, 0, d, w)
  {
    SameStrictDominators(F, sd, w, u, d);
    forall x: nat | StrictlyDominates(F.E, 0, x, w) ensures Dominates(F.E, 0, x, d) {
      SameStrictDominators(F, sd, w, u, x);
    }
  }

  /** Semidominators exist. */
  lemma {:induction false} SemiExists(F: Forest, w: nat, v: nat, p: seq<nat>) returns (s: nat)
    requires SemiWalk(F, p, v, w)
    ensures IsSemi(F, s, w)
    decreases v
  {
    if v': nat, p': seq<nat> :| SemiWalk(F, p', v', w) && v' < v {
      s := SemiExists(F, w, v', p');
    } else {
      s := v;
    }
  }

  ghost function Semi(F: Forest, w: nat): (s: nat)
    requires F.Valid() && w < |F.par| && F.par[w] < w
    ensures IsSemi(F, s, w)
  {
    assert exists s :: IsSemi(F, s, w) by {
      assert F.VertexOk(w);
      EdgeWalk(F.E, F.par[w], w);
      var s := SemiExists(F, w, F.par[w], [F.par[w], w]);
    }
    var s :| IsSemi(F, s, w);
    s
  }

  /** All semidominators, with 0 for the roots, which have none. */
  ghost function Semis(F: Forest): (sd: seq<nat>)
    requires F.Valid()
    ensures SemisFrom(F, sd, 0)
  {
    seq(|F.par|, k requires 0 <= k < |F.par| => if F.par[k] < k then Semi(F, k) else 0)
  }

  /** A vertex whose semidominator is the entry has the entry as immediate dominator. */
  lemma IdomIsEntry(F: Forest, sd: seq<nat>, w: nat)
    requires F.Valid() && 0 < w < |F.par| && Anc(F.par, 0, w) && SemisFrom(F, sd, 1) && sd[w] == 0
    ensures IsIdom(F.E, 0, 0, w)
  {
    forall x: nat | StrictlyDominates(F.E, 0, x, w) ensures Dominates(F.E, 0, x, 0) {
      StrictDominatorAboveSemi(F, sd, x, w);
    }
  }

  /** A vertex whose semidominator is its parent has it as immediate dominator. */
  lemma IdomIsParent(F: Forest, sd: seq<nat>, w: nat)
    requires F.Valid() && 0 < w < |F.par| && Anc(F.par, 0, w) && SemisFrom(F, sd, 1) && sd[w] == F.par[w]
    ensures IsIdom(F.E, 0, sd[w], w)
  {
    RootedIsNonRoot(F, w);
    forall y | sd[w] < y < |sd| && Anc(F.par, y, w) ensures y == w {
      if y != w { AncOrder(F.par, y, F.par[w]); }
    }
    assert Anc(F.par, sd[w], w);
    assert LeastBelow(F, sd, w, w);
    IdomIsSemi(F, sd, w, w);
  }
}
