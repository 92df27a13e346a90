/** The dominator tree construction of buildDomTree: Lengauer and Tarjan's algorithm with the
    one-slot buckets of Georgiadis et al. Blocks are indices; NIL is the nil block. */
module LengauerTarjan {
  import opened Paths
  import opened Flowgraphs
  import opened Semidominators

  // ----- step 1: the depth-first search -----

  /** The first i entries of order number visited blocks, and pre is its inverse. */
  ghost predicate Numbered(n: nat, i: nat, order: seq<int>, pre: seq<int>, sdom: seq<int>) {
    && |order| == |pre| == |sdom| == n && i <= n
    && (forall k :: 0 <= k < i ==> 0 <= order[k] < n && pre[order[k]] == k && sdom[order[k]] == order[k])
    && (forall v :: 0 <= v < n && sdom[v] != NIL ==> 0 <= pre[v] < i && order[pre[v]] == v)
  }

  /** par gives, by number, the tree parents that the parent array gives by block. */
  ghost predicate ParentsOk(g: Flowgraph, i: nat, order: seq<int>, parent: seq<int>, par: seq<nat>)
    requires |order| == |parent| == |g.succs| && i <= |order|
    requires forall k :: 0 <= k < i ==> 0 <= order[k] < |order|
  {
    |par| == i && forall k :: 0 <= k < i ==> ParentOk(g, order, parent, par, k)
  }

  ghost predicate ParentOk(g: Flowgraph, order: seq<int>, parent: seq<int>, par: seq<nat>, k: nat)
    requires |order| == |parent| == |g.succs| && k < |par| <= |order|
    requires forall k :: 0 <= k < |par| ==> 0 <= order[k] < |order|
  {
    && par[k] <= k
    && (par[k] == k ==> parent[order[k]] == NIL)
    && (par[k] < k ==> parent[order[k]] == order[par[k]] && order[k] in g.succs[order[par[k]]] && Anc(par, par[k], k - 1))
  }

  /** All successors of the block numbered k are visited; the later ones descend from it. */
  ghost predicate Scanned(g: Flowgraph, order: seq<int>, pre: seq<int>, sdom: seq<int>, par: seq<nat>, k: nat) {
    && k < |order| && 0 <= order[k] < |g.succs| <= |sdom| == |pre|
    && forall w :: w in g.succs[order[k]] ==> w < |sdom| && sdom[w] != NIL && 0 <= pre[w] && (pre[w] > k ==> Anc(par, k, pre[w]))
  }

  /** Blocks numbered lo..hi-1 descend from the block numbered i, and those after i are scanned. */
  ghost predicate Subtree(g: Flowgraph, order: seq<int>, pre: seq<int>, sdom: seq<int>, par: seq<nat>,
                          i: nat, lo: nat, hi: nat)
  {
    && (forall k :: lo <= k < hi ==> Anc(par, i, k))
    && (forall k :: lo <= k < hi && i < k ==> Scanned(g, order, pre, sdom, par, k))
  }

  /** What was numbered before number i stays as it was. */
  ghost predicate Extends(n: nat, i: nat, order: seq<int>, order': seq<int>, pre: seq<int>, pre': seq<int>,
                          sdom: seq<int>, sdom': seq<int>, par: seq<nat>, par': seq<nat>)
  {
    && |order| == |order'| == |pre| == |pre'| == |sdom| == |sdom'| == n && i == |par| <= |par'| && i <= n
    && order[..i] == order'[..i] && par == par'[..i]
    && forall x :: 0 <= x < n && sdom[x] != NIL ==> sdom'[x] != NIL && pre'[x] == pre[x]
  }

  lemma ScannedExtends(g: Flowgraph, c: nat, order: seq<int>, order': seq<int>, pre: seq<int>, pre': seq<int>,
                       sdom: seq<int>, sdom': seq<int>, par: seq<nat>, par': seq<nat>, k: nat)
    requires Extends(|g.succs|, c, order, order', pre, pre', sdom, sdom', par, par')
    requires Numbered(|g.succs|, c, order, pre, sdom) && k < c
    requires Scanned(g, order, pre, sdom, par, k)
    ensures Scanned(g, order', pre', sdom', par', k)
  {
    assert order[k] == order[..c][k] == order'[k];
    forall w | w in g.succs[order[k]] && pre[w] > k ensures Anc(par', k, pre[w]) {
      AncPrefix(par, par', k, pre[w]);
    }
  }

  lemma SubtreeExtends(g: Flowgraph, i: nat, c: nat, order: seq<int>, order': seq<int>, pre: seq<int>, pre': seq<int>,
                       sdom: seq<int>, sdom': seq<int>, par: seq<nat>, par': seq<nat>)
    requires Extends(|g.succs|, c, order, order', pre, pre', sdom, sdom', par, par')
    requires Numbered(|g.succs|, c, order, pre, sdom) && i < c
    requires Subtree(g, order, pre, sdom, par, i, i, c)
    ensures Subtree(g, order', pre', sdom', par', i, i, c)
  {
    forall k | i <= k < c ensures Anc(par', i, k) {
      AncPrefix(par, par', i, k);
    }
    forall k | i < k < c ensures Scanned(g, order', pre', sdom', par', k) {
      ScannedExtends(g, c, order, order', pre, pre', sdom, sdom', par, par', k);
    }
  }

  /** The subtree of a child c of i joins the subtree of i. */
  lemma SubtreeJoin(g: Flowgraph, order: seq<int>, pre: seq<int>, sdom: seq<int>, par: seq<nat>, i: nat, c: nat, hi: nat)
    requires Subtree(g, order, pre, sdom, par, i, i, c) && Subtree(g, order, pre, sdom, par, c, c, hi)
    requires i < c < hi <= |par| && par[c] == i && Scanned(g, order, pre, sdom, par, c)
    ensures Subtree(g, order, pre, sdom, par, i, i, hi)
  {
    forall k | c <= k < hi ensures Anc(par, i, k) {
      assert Anc(par, i, c);
      AncTransitive(par, i, c, k);
    }
  }

  class LtState {
    const g: Flowgraph
    var pre: seq<int>
    var sdom: seq<int>
    var parent: seq<int>
    var ancestor: seq<int>
    var preorder: seq<int>
    var idom: seq<int>
    var buckets: seq<int>
    ghost var par: seq<nat>
    ghost var chains: seq<seq<nat>>

    constructor (g: Flowgraph)
      requires g.Valid()
      ensures this.g == g && par == []
      ensures sdom == parent == ancestor == preorder == idom == seq(|g.succs|, _ => NIL)
      ensures pre == seq(|g.succs|, _ => 0)
    {
      var n := |g.succs|;
      this.g := g;
      pre := seq(n, _ => 0);
      sdom := seq(n, _ => NIL);
      parent := seq(n, _ => NIL);
      ancestor := seq(n, _ => NIL);
      preorder := seq(n, _ => NIL);
      idom := seq(n, _ => NIL);
      buckets := [];
      par := [];
      chains := [];
    }

    /** i blocks have been visited. */
    ghost predicate Visited(i: nat)
      reads this
    {
      && g.Valid()
      && Numbered(|g.succs|, i, preorder, pre, sdom)
      && |parent| == |ancestor| == |g.succs|
      && ParentsOk(g, i, preorder, parent, par)
      && forall x :: 0 <= x < |ancestor| ==> ancestor[x] == NIL
    }

    /** v may be entered as number i: as a root, or from the block numbered j on the search path. */
    ghost predicate Enterable(v: nat, i: nat, j: nat)
      requires Visited(i)
      reads this
    {
      && v < |g.succs| && sdom[v] == NIL
      && (forall x :: 0 <= x < |g.succs| && x != v && sdom[x] == NIL ==> parent[x] == NIL)
      && (if parent[v] == NIL then j == i
          else j < i && parent[v] == preorder[j] && v in g.succs[preorder[j]] && Anc(par, j, i - 1))
    }

    method Link(v: int, w: nat)
      requires w < |ancestor|
      modifies this`ancestor
      ensures ancestor == old(ancestor)[w := v]
    {
      ancestor := ancestor[w := v];
    }

    /** The part of dfs before its loop: number v and make it its own semidominator. */
    method Enter(v: nat, i: nat, ghost j: nat)
      requires Visited(i) && Enterable(v, i, j)
      modifies this`pre, this`sdom, this`ancestor, this`preorder, this`par
      ensures Visited(i + 1) && par[i] == j && preorder[i] == v && sdom[v] == v
      ensures Extends(|g.succs|, i, old(preorder), preorder, old(pre), pre, old(sdom), sdom, old(par), par)
      ensures forall x :: 0 <= x < |g.succs| && sdom[x] == NIL ==> parent[x] == NIL
    {
      assert i < |g.succs| by {
        Pigeonhole(preorder[..i], |g.succs|, v);
      }
      preorder := preorder[i := v];
      pre := pre[v := i];
      sdom := sdom[v := v];
      Link(NIL, v);
      par := par + [j];
      forall k | 0 <= k < i + 1 ensures ParentOk(g, preorder, parent, par, k) {
        if k < i {
          assert ParentOk(g, old(preorder), parent, old(par), k);
          if par[k] < k { AncPrefix(old(par), par, par[k], k - 1); }
        } else if j < i {
          AncPrefix(old(par), par, j, i - 1);
        }
      }
    }

    method SetParent(v: nat, w: nat, i: nat, ghost j: nat)
      requires Visited(i) && j < i && preorder[j] == v && w in g.succs[v] && Anc(par, j, i - 1)
      requires forall x :: 0 <= x < |g.succs| && sdom[x] == NIL ==> parent[x] == NIL
      requires w < |g.succs| && sdom[w] == NIL
      modifies this`parent
      ensures Visited(i) && Enterable(w, i, j)
    {
      parent := parent[w := v];
      forall k | 0 <= k < i ensures ParentOk(g, preorder, parent, par, k) {
        assert ParentOk(g, preorder, old(parent), par, k);
      }
    }

    method Dfs(v: nat, i: nat, ghost j: nat) returns (i': nat)
      requires Visited(i) && Enterable(v, i, j)
      modifies this`pre, this`sdom, this`parent, this`ancestor, this`preorder, this`par
      ensures Visited(i') && i < i' && par[i] == j && preorder[i] == v
      ensures Extends(|g.succs|, i, old(preorder), preorder, old(pre), pre, old(sdom), sdom, old(par), par)
      ensures Subtree(g, preorder, pre, sdom, par, i, i, i') && Scanned(g, preorder, pre, sdom, par, i)
      ensures forall x :: 0 <= x < |g.succs| && sdom[x] == NIL ==> parent[x] == NIL
      ensures sdom[v] != NIL
      decreases |g.succs| - i
    {
      Enter(v, i, j);
      i' := i + 1;
      var k := 0;
      while k < |g.succs[v]|
        invariant k <= |g.succs[v]| && i < i'
        invariant Visited(i') && par[i] == j && preorder[i] == v && sdom[v] != NIL
        invariant Extends(|g.succs|, i, old(preorder), preorder, old(pre), pre, old(sdom), sdom, old(par), par)
        invariant Subtree(g, preorder, pre, sdom, par, i, i, i')
        invariant forall x :: 0 <= x < |g.succs| && sdom[x] == NIL ==> parent[x] == NIL
        invariant forall m :: 0 <= m < k ==> g.succs[v][m] < |sdom| && sdom[g.succs[v][m]] != NIL
      {
        var w := g.succs[v][k];
        assert w in g.succs[v];
        if sdom[w] == NIL {
          SetParent(v, w, i', i);
          ghost var c, par1, order1, sdom1, pre1 := i', par, preorder, sdom, pre;
          i' := Dfs(w, i', i);
          SubtreeExtends(g, i, c, order1, preorder, pre1, pre, sdom1, sdom, par1, par);
          SubtreeJoin(g, preorder, pre, sdom, par, i, c, i');
        }
        k := k + 1;
      }
    }

    // ----- steps 2 and 3: the sweep in reverse preorder -----

    /** The search is complete: F is its forest and S holds the semidominators. */
    ghost predicate Searched(F: Forest, S: seq<nat>)
      reads this
    {
      && F.Valid() && F.par == par && SemisFrom(F, S, 0)
      && (forall k :: 0 <= k < |par| && par[k] < k ==> S[k] < k)
      && |g.succs| == |g.preds| == |par| == |pre| == |sdom| == |parent| == |ancestor| == |preorder| == |idom| > 0
      && Renumbers(g, F, preorder, pre)
      && (forall k :: 0 <= k < |par| ==> ParentNumber(preorder, parent, par, k))
      && (forall k :: 0 <= k < |par| ==> RootOk(F, k))
    }

    /** Numbers above i have been swept, i is next. */
    ghost predicate Swept(F: Forest, S: seq<nat>, i: nat)
      reads this
    {
      && Searched(F, S)
      && (forall k :: 0 <= k < |par| && k < i ==> Pending(preorder, sdom, ancestor, k))
      && (i < |par| ==> ancestor[preorder[i]] == NIL)
      && (forall k :: i < k < |par| ==> Processed(S, par, preorder, sdom, ancestor, k))
    }

    method Eval(v0: nat, ghost F: Forest, ghost S: seq<nat>, ghost i: nat) returns (u: nat)
      requires Swept(F, S, i) && v0 < |g.succs|
      requires pre[v0] > i ==> par[pre[v0]] < pre[v0]
      ensures u < |g.succs|
      ensures pre[v0] <= i ==> u == v0
      ensures pre[v0] > i ==> LeastAbove(F, S, pre[u], pre[v0], i)
    {
      var v := v0;
      u := v;
      forall a: nat | Anc(par, a, pre[v0]) ensures a <= pre[v0] {
        AncOrder(par, a, pre[v0]);
      }
      while ancestor[v] != NIL
        invariant 0 <= v < |g.succs| && u < |g.succs|
        invariant pre[v0] <= i ==> v == v0 == u
        invariant pre[v0] > i ==> Anc(par, pre[v], pre[v0]) && par[pre[u]] < pre[u]
        invariant pre[v0] > i ==> LeastSoFar(F, S, pre[u], pre[v0], pre[v], i)
        decreases pre[v]
      {
        assert pre[v] < i ==> Pending(preorder, sdom, ancestor, pre[v]);
        assert Processed(S, par, preorder, sdom, ancestor, pre[v]);
        assert Processed(S, par, preorder, sdom, ancestor, pre[u]);
        ghost var k, u0 := pre[v], u;
        if pre[sdom[v]] < pre[sdom[u]] {
          u := v;
        }
        v := ancestor[v];
        AncTransitive(par, par[k], k, pre[v0]);
        AdvanceLeast(F, S, pre[u0], pre[u], pre[v0], k, i);
      }
      if pre[v0] > i {
        if pre[v] > i {
          assert Processed(S, par, preorder, sdom, ancestor, pre[v]);
          assert RootOk(F, pre[v0]);
          AncChain(par, 0, pre[v], pre[v0]);
        }
      }
    }

    /** Step 3 for one block v in the bucket of the block w numbered i. */
    method SettleOne(v: nat, w: nat, i: nat, ghost F: Forest, ghost S: seq<nat>, ghost y: nat)
      requires Swept(F, S, i) && 0 < i && InBucket(F, S, i, i, y) && v == preorder[y] && w == preorder[i]
      modifies this`idom
      ensures |idom| == |old(idom)| && forall x :: 0 <= x < |idom| && x != v ==> idom[x] == old(idom)[x]
      ensures Settled(F, S, preorder, pre, idom, y)
    {
      assert RootOk(F, y);
      var u := Eval(v, F, S, i);
      NonRootAncestor(F, pre[u], y);
      assert Processed(S, par, preorder, sdom, ancestor, pre[u]);
      SettledByEval(F, S, i, pre[u], y);
      if pre[sdom[u]] < i {
        idom := idom[v := u];
      } else {
        idom := idom[v := w];
      }
    }

    /** Step 3 for the block numbered i: settle the blocks in its bucket. */
    method EmptyBucket(i: nat, ghost F: Forest, ghost S: seq<nat>)
      requires Swept(F, S, i) && 0 < i < |par| && BucketOk(F, S, i, buckets, preorder, chains, i)
      modifies this`idom
      ensures |idom| == |old(idom)|
      ensures forall k :: 0 <= k < |par| && k !in chains[i] ==> idom[preorder[k]] == old(idom)[preorder[k]]
      ensures forall k :: k in chains[i] ==> Settled(F, S, preorder, pre, idom, k)
    {
      var w := preorder[i];
      var v := buckets[i];
      ghost var rest := chains[i];
      while v != w
        invariant |idom| == |old(idom)| && Chain(buckets, preorder, i, v, rest)
        invariant forall k :: k in rest ==> k in chains[i]
        invariant forall k :: 0 <= k < |par| && k !in chains[i] ==> idom[preorder[k]] == old(idom)[preorder[k]]
        invariant forall k :: k in chains[i] && k !in rest ==> Settled(F, S, preorder, pre, idom, k)
        decreases |rest|
      {
        ghost var y, idom0 := rest[0], idom;
        assert y in chains[i];
        SettleOne(v, w, i, F, S, y);
        SettledFrame(F, S, preorder, pre, idom0, idom, y);
        assert rest == [y] + rest[1..];
        v := buckets[pre[v]];
        rest := rest[1..];
      }
    }

    /** Step 2 for one predecessor v of the block w numbered i: sdom[eval(v)]. */
    method EvalSemi(v: nat, i: nat, ghost F: Forest, ghost S: seq<nat>) returns (s: int)
      requires Swept(F, S, i) && 0 < i < |par| && par[i] < i && v < |pre| && (pre[v], i) in F.E
      requires 0 <= sdom[preorder[i]] < |pre|
      ensures 0 <= s < |pre|
      ensures s == sdom[preorder[i]] || Candidate(F, pre[s], i)
      ensures Considered(F, S, pre[v], pre[s], i)
    {
      assert RootOk(F, pre[v]) && F.VertexOk(pre[v]);
      var u := Eval(v, F, S, i);
      s := sdom[u];
      assert pre[v] < i ==> Pending(preorder, sdom, ancestor, pre[v]);
      if pre[v] > i {
        NonRootAncestor(F, pre[u], pre[v]);
        assert Processed(S, par, preorder, sdom, ancestor, pre[u]);
      }
    }

    method SetSemi(w: nat, s: int, i: nat, ghost F: Forest, ghost S: seq<nat>)
      requires Swept(F, S, i) && i < |par| && w == preorder[i]
      modifies this`sdom
      ensures Swept(F, S, i) && sdom == old(sdom)[w := s]
    {
      sdom := sdom[w := s];
      forall k | 0 <= k < i ensures Pending(preorder, sdom, ancestor, k) {
        assert Pending(preorder, old(sdom), ancestor, k) && pre[preorder[k]] == k;
      }
      forall k | i < k < |par| ensures Processed(S, par, preorder, sdom, ancestor, k) {
        assert Processed(S, par, preorder, old(sdom), ancestor, k) && pre[preorder[k]] == k;
      }
    }

    /** sdom holds the best candidate among those of the first m predecessors of block i and its parent. */
    ghost predicate BestOf(F: Forest, S: seq<nat>, i: nat, m: nat)
      requires Swept(F, S, i) && 0 < i < |par| && g.Valid()
      reads this
    {
      var w := preorder[i];
      && m <= |g.preds[w]|
      && (if par[i] < i then 0 <= sdom[w] < |pre| && pre[sdom[w]] <= par[i] && Candidate(F, pre[sdom[w]], i) else sdom[w] == NIL)
      && (forall x :: 0 <= x < m && par[i] < i ==> g.preds[w][x] < |pre| && Considered(F, S, pre[g.preds[w][x]], pre[sdom[w]], i))
    }

    /** One predecessor. */
    method ConsiderPred(i: nat, m: nat, ghost F: Forest, ghost S: seq<nat>)
      requires Swept(F, S, i) && 0 < i < |par| && g.Valid() && BestOf(F, S, i, m) && m < |g.preds[preorder[i]]|
      modifies this`sdom
      ensures Swept(F, S, i) && BestOf(F, S, i, m + 1) && sdom == old(sdom)[preorder[i] := sdom[preorder[i]]]
    {
      var w := preorder[i];
      var v := g.preds[w][m];
      assert v in g.preds[w];
      assert SameEdge(g, F, pre, v, w);
      assert RootOk(F, i) && F.VertexOk(i);
      var s := EvalSemi(v, i, F, S);
      if pre[s] < pre[sdom[w]] {
        SetSemi(w, s, i, F, S);
      }
    }

    /** Step 2 for the block numbered i. */
    method ComputeSemi(i: nat, ghost F: Forest, ghost S: seq<nat>)
      requires Swept(F, S, i) && 0 < i < |par| && g.Valid()
      modifies this`sdom
      ensures sdom == old(sdom)[preorder[i] := if par[i] < i then preorder[S[i]] else NIL]
    {
      var w := preorder[i];
      assert ParentNumber(preorder, parent, par, i) && RootOk(F, i) && F.VertexOk(i);
      SetSemi(w, parent[w], i, F, S);
      var m := 0;
      while m < |g.preds[w]|
        invariant Swept(F, S, i) && BestOf(F, S, i, m) && sdom == old(sdom)[w := sdom[w]]
      {
        ConsiderPred(i, m, F, S);
        m := m + 1;
      }
      if par[i] < i {
        AllConsidered(g, F, S, preorder, pre, pre[sdom[w]], i);
      }
    }

    /** Compute the semidominator of the block numbered i and link it below its parent. */
    method SemiAndLink(i: nat, ghost F: Forest, ghost S: seq<nat>)
      requires Swept(F, S, i) && 0 < i < |par| && g.Valid()
      modifies this`sdom, this`ancestor
      ensures Swept(F, S, i - 1)
    {
      var w := preorder[i];
      ComputeSemi(i, F, S);
      Link(parent[w], w);
      assert ParentNumber(preorder, parent, par, i);
      assert Processed(S, par, preorder, sdom, ancestor, i);
      assert Pending(preorder, old(sdom), old(ancestor), i - 1);
      forall k | 0 <= k < i ensures Pending(preorder, sdom, ancestor, k) {
        assert Pending(preorder, old(sdom), old(ancestor), k) && pre[preorder[k]] == k;
      }
      forall k | i < k < |par| ensures Processed(S, par, preorder, sdom, ancestor, k) {
        assert Processed(S, par, preorder, old(sdom), old(ancestor), k) && pre[preorder[k]] == k;
      }
    }

    /** Settle the block numbered i now, or put it in the bucket of its semidominator. */
    method SettleOrDefer(i: nat, ghost F: Forest, ghost S: seq<nat>)
      requires 0 < i < |par| && Swept(F, S, i - 1)
      requires BucketsOk(F, S, i, buckets, preorder, chains)
      modifies this`idom, this`buckets, this`chains
      ensures |idom| == |old(idom)| && BucketsOk(F, S, i - 1, buckets, preorder, chains)
      ensures forall x :: 0 <= x < |idom| && x != preorder[i] ==> idom[x] == old(idom)[x]
      ensures par[i] < i && S[i] == par[i] ==> Settled(F, S, preorder, pre, idom, i)
    {
      var w := preorder[i];
      assert Processed(S, par, preorder, sdom, ancestor, i) && ParentNumber(preorder, parent, par, i) && RootOk(F, i);
      if parent[w] == sdom[w] {
        idom := idom[w := parent[w]];
        if par[i] < i {
          assert pre[preorder[S[i]]] == S[i] && pre[preorder[par[i]]] == par[i];
          IdomIsParent(F, S, i);
        }
        BucketsSkip(F, S, i, buckets, preorder, chains);
      } else {
        ghost var s := S[i];
        BucketsInsert(F, S, i, s, buckets, preorder, chains);
        buckets := buckets[i := buckets[pre[sdom[w]]]];
        buckets := buckets[pre[sdom[w]] := w];
        chains := chains[s := [i] + chains[s]];
      }
    }

    ghost predicate IdomsOk(F: Forest, S: seq<nat>, i: nat)
      reads this
    {
      |S| == |par| && forall k :: i < k < |par| && par[k] < k && (S[k] > i || S[k] == par[k]) ==> Settled(F, S, preorder, pre, idom, k)
    }

    /** After step 3 for the block numbered i, all blocks with a semidominator from i on are settled. */
    method SettleBucket(i: nat, ghost F: Forest, ghost S: seq<nat>)
      requires Swept(F, S, i) && 0 < i < |par| && BucketsOk(F, S, i, buckets, preorder, chains) && IdomsOk(F, S, i)
      modifies this`idom
      ensures |idom| == |old(idom)| && Swept(F, S, i) && idom[preorder[0]] == old(idom)[preorder[0]]
      ensures forall k :: i < k < |par| && par[k] < k && (S[k] >= i || S[k] == par[k]) ==> Settled(F, S, preorder, pre, idom, k)
    {
      assert BucketOk(F, S, i, buckets, preorder, chains, i);
      EmptyBucket(i, F, S);
      forall k | i < k < |par| && par[k] < k && (S[k] >= i || S[k] == par[k])
        ensures Settled(F, S, preorder, pre, idom, k)
      {
        assert InBucket(F, S, i, i, k) || (S[k] > i || S[k] == par[k]);
        assert k !in chains[i] ==> Settled(F, S, preorder, pre, old(idom), k);
      }
    }

    /** One iteration of the main loop. */
    method SweepOne(i: nat, ghost F: Forest, ghost S: seq<nat>)
      requires Swept(F, S, i) && 0 < i < |par| && g.Valid()
      requires BucketsOk(F, S, i, buckets, preorder, chains) && IdomsOk(F, S, i)
      modifies this`sdom, this`ancestor, this`idom, this`buckets, this`chains
      ensures Swept(F, S, i - 1)
      ensures BucketsOk(F, S, i - 1, buckets, preorder, chains) && IdomsOk(F, S, i - 1)
      ensures idom[preorder[0]] == old(idom)[preorder[0]]
    {
      SettleBucket(i, F, S);
      SemiAndLink(i, F, S);
      ghost var idom0 := idom;
      SettleOrDefer(i, F, S);
      assert pre[preorder[0]] == 0 && pre[preorder[i]] == i;
      SettledFrame(F, S, preorder, pre, idom0, idom, i);
    }

    /** The final step 3: the blocks left in the entry's bucket. */
    method EmptyEntryBucket(ghost F: Forest, ghost S: seq<nat>)
      requires Swept(F, S, 0) && BucketsOk(F, S, 0, buckets, preorder, chains) && IdomsOk(F, S, 0)
      modifies this`idom
      ensures |idom| == |old(idom)| && idom[preorder[0]] == old(idom)[preorder[0]]
      ensures forall k :: 0 < k < |par| && par[k] < k ==> Settled(F, S, preorder, pre, idom, k)
    {
      var root := preorder[0];
      assert BucketOk(F, S, 0, buckets, preorder, chains, 0);
      var v := buckets[0];
      ghost var rest := chains[0];
      while v != root
        invariant |idom| == |old(idom)| && Chain(buckets, preorder, 0, v, rest)
        invariant idom[root] == old(idom)[root]
        invariant forall k :: k in rest ==> k in chains[0]
        invariant IdomsOk(F, S, 0)
        invariant forall k :: k in chains[0] && k !in rest ==> Settled(F, S, preorder, pre, idom, k)
        decreases |rest|
      {
        ghost var y, idom0 := rest[0], idom;
        assert y in chains[0] && RootOk(F, y);
        IdomIsEntry(F, S, y);
        idom := idom[v := root];
        SettledFrame(F, S, preorder, pre, idom0, idom, y);
        assert rest == [y] + rest[1..];
        v := buckets[pre[v]];
        rest := rest[1..];
      }
      forall k | 0 < k < |par| && par[k] < k ensures Settled(F, S, preorder, pre, idom, k) {
        assert InBucket(F, S, 0, 0, k) || S[k] > 0 || S[k] == par[k];
      }
    }

    /** Step 4 for the block numbered k. */
    method FinishOne(k: nat, recover: int, children: seq<seq<nat>>, ghost F: Forest, ghost S: seq<nat>)
      returns (children': seq<seq<nat>>)
      requires Swept(F, S, 0) && 0 < k < |preorder| && preorder[0] == 0
      requires par[k] < k ==> Settled(F, S, preorder, pre, idom, k)
      requires forall x :: 0 < x < k ==> Final(F, preorder, pre, idom, x)
      requires par[k] == k <==> preorder[k] == recover
      requires |children| == |idom|
      modifies this`idom
      ensures |idom| == |old(idom)| && Final(F, preorder, pre, idom, k)
      ensures forall x :: 0 <= x < |idom| && x != preorder[k] ==> idom[x] == old(idom)[x]
      ensures var w := preorder[k]; if idom[w] == NIL then children' == children
              else 0 <= idom[w] < |children| && children' == children[idom[w] := children[idom[w]] + [w]]
    {
      var w := preorder[k];
      children' := children;
      assert RootOk(F, k) && Processed(S, par, preorder, sdom, ancestor, k) && pre[w] == k;
      if w == 0 || w == recover {
        idom := idom[w := NIL];
      } else {
        assert F.VertexOk(k);
        SettledIsFinal(F, S, preorder, pre, idom, k);
        if idom[w] != sdom[w] {
          idom := idom[w := idom[idom[w]]];
        }
        children' := children[idom[w] := children[idom[w]] + [w]];
      }
    }

    /** One turn of step 4: what is final stays so, and what is settled as well. */
    method FinishNext(k: nat, recover: int, children: seq<seq<nat>>, ghost F: Forest, ghost S: seq<nat>)
      returns (children': seq<seq<nat>>)
      requires Swept(F, S, 0) && 0 < k < |preorder| && preorder[0] == 0 && idom[0] == NIL
      requires forall x :: 0 < x < k ==> Final(F, preorder, pre, idom, x)
      requires forall x :: k <= x < |par| && par[x] < x ==> Settled(F, S, preorder, pre, idom, x)
      requires (par[k] == k <==> preorder[k] == recover) && ChildrenOk(k, preorder, idom, children)
      modifies this`idom
      ensures |idom| == |old(idom)| && idom[0] == NIL && Swept(F, S, 0)
      ensures forall x :: 0 < x < k + 1 ==> Final(F, preorder, pre, idom, x)
      ensures forall x :: k + 1 <= x < |par| && par[x] < x ==> Settled(F, S, preorder, pre, idom, x)
      ensures ChildrenOk(k + 1, preorder, idom, children')
    {
      children' := FinishOne(k, recover, children, F, S);
      SettledFrame(F, S, preorder, pre, old(idom), idom, k);
      FinalFrame(F, preorder, pre, old(idom), idom, k);
      ChildrenStep(k, preorder, pre, old(idom), idom, children, children');
      assert pre[preorder[k]] == k && pre[preorder[0]] == 0;
    }

    /** Step 4: the final immediate dominators and the children lists, in preorder. */
    method Finish(recover: int, ghost F: Forest, ghost S: seq<nat>) returns (children: seq<seq<nat>>)
      requires Swept(F, S, 0) && preorder[0] == 0
      requires forall k :: 0 < k < |par| && par[k] < k ==> Settled(F, S, preorder, pre, idom, k)
      requires forall k :: 0 < k < |par| ==> (par[k] == k <==> preorder[k] == recover)
      requires idom[0] == NIL
      modifies this`idom
      ensures |idom| == |old(idom)| && idom[0] == NIL
      ensures forall k :: 0 < k < |par| ==> Final(F, preorder, pre, idom, k)
      ensures ChildrenOk(|par|, preorder, idom, children)
    {
      var n := |preorder|;
      children := seq(n, _ => []);
      var k := 1;
      while k < n
        invariant 1 <= k <= n == |par| && |idom| == |old(idom)| && Swept(F, S, 0)
        invariant idom[0] == NIL
        invariant forall x :: 0 < x < k ==> Final(F, preorder, pre, idom, x)
        invariant forall x :: k <= x < |par| && par[x] < x ==> Settled(F, S, preorder, pre, idom, x)
        invariant ChildrenOk(k, preorder, idom, children)
      {
        children := FinishNext(k, recover, children, F, S);
        k := k + 1;
      }
    }

    /** Step 1: the search from the entry, and the isolated visit of recover. */
    method Search(recover: int) returns (ghost F: Forest)
      requires Buildable(g, recover)
      requires par == [] && sdom == parent == ancestor == preorder == idom == seq(|g.succs|, _ => NIL)
      requires pre == seq(|g.succs|, _ => 0)
      modifies this`pre, this`sdom, this`parent, this`ancestor, this`preorder, this`par
      ensures Visited(|g.succs|) && F.Valid() && F.par == par && preorder[0] == 0 && sdom[0] == 0
      ensures Renumbers(g, F, preorder, pre)
      ensures forall k :: 0 <= k < |par| ==> ParentNumber(preorder, parent, par, k)
      ensures forall k :: 0 <= k < |par| ==> RootOk(F, k) && (par[k] == k <==> k == 0 || preorder[k] == recover)
    {
      var prenum := Dfs(0, 0, 0);
      ghost var m, par1 := prenum, par;
      SearchReaches(g, recover, m, preorder, pre, sdom, par);
      EntryTree(g, m, preorder, parent, par);
      if recover != NIL {
        RecoverUnvisited(g, recover, m, preorder, pre, sdom, parent, par);
        prenum := VisitRecover(recover, prenum);
      }
      AllNumbered(|g.succs|, prenum, preorder, pre, sdom);
      F := SearchForest(g, preorder, pre, sdom, parent, par);
      RootsOk(g, recover, F, m, preorder, pre, par1);
    }

    /** The visit of recover, which leads nowhere. */
    method VisitRecover(recover: nat, m: nat) returns (m': nat)
      requires Buildable(g, recover) && Visited(m) && 0 < m && Enterable(recover, m, m)
      requires Subtree(g, preorder, pre, sdom, par, 0, 0, m) && Scanned(g, preorder, pre, sdom, par, 0)
      requires forall v :: 0 <= v < |g.succs| && v != recover ==> sdom[v] != NIL
      modifies this`pre, this`sdom, this`parent, this`ancestor, this`preorder, this`par
      ensures Visited(m') && m' == m + 1 && preorder[m] == recover && par[m] == m && old(par) <= par && preorder[0] == old(preorder)[0] && sdom[preorder[0]] == old(sdom)[preorder[0]]
      ensures forall k :: 0 <= k < m' ==> Scanned(g, preorder, pre, sdom, par, k)
      ensures forall v :: 0 <= v < |g.succs| ==> sdom[v] != NIL
    {
      ghost var order1, pre1, sdom1, par1 := preorder, pre, sdom, par;
      m' := Dfs(recover, m, m);
      RecoverLast(g, recover, m, m', preorder, parent, par);
      SubtreeExtends(g, 0, m, order1, preorder, pre1, pre, sdom1, sdom, par1, par);
      ScannedExtends(g, m, order1, preorder, pre1, pre, sdom1, sdom, par1, par, 0);
    }

    /** Steps 2 and 3: the sweep over all blocks but the entry. */
    method Sweep(ghost F: Forest, ghost S: seq<nat>)
      requires g.Valid() && |preorder| > 0 && Swept(F, S, |preorder| - 1)
      modifies this`sdom, this`ancestor, this`idom, this`buckets, this`chains
      ensures Swept(F, S, 0) && |idom| == |old(idom)| && idom[preorder[0]] == old(idom)[preorder[0]]
      ensures forall k :: 0 < k < |par| && par[k] < k ==> Settled(F, S, preorder, pre, idom, k)
    {
      buckets := preorder;
      chains := seq(|preorder|, _ => []);
      var i := |preorder| - 1;
      forall k | 0 <= k < |par| && k <= i ensures BucketOk(F, S, i, buckets, preorder, chains, k) {
      }
      SweepDown(F, S);
      EmptyEntryBucket(F, S);
    }

    /** The main loop, from the last block in preorder down to the first after the entry. */
    method SweepDown(ghost F: Forest, ghost S: seq<nat>)
      requires g.Valid() && |preorder| > 0 && Swept(F, S, |preorder| - 1)
      requires BucketsOk(F, S, |preorder| - 1, buckets, preorder, chains) && IdomsOk(F, S, |preorder| - 1)
      modifies this`sdom, this`ancestor, this`idom, this`buckets, this`chains
      ensures Swept(F, S, 0) && |idom| == |old(idom)| && idom[preorder[0]] == old(idom)[preorder[0]]
      ensures BucketsOk(F, S, 0, buckets, preorder, chains) && IdomsOk(F, S, 0)
    {
      var i := |preorder| - 1;
      while i > 0
        invariant 0 <= i < |preorder| && Swept(F, S, i) && |idom| == |old(idom)|
        invariant idom[preorder[0]] == old(idom)[preorder[0]]
        invariant BucketsOk(F, S, i, buckets, preorder, chains) && IdomsOk(F, S, i)
      {
        SweepOne(i, F, S);
        i := i - 1;
      }
    }
  }

  /** F is the graph g with its blocks renumbered by pre, whose inverse is order. */
  ghost predicate Renumbers(g: Flowgraph, F: Forest, order: seq<int>, pre: seq<int>) {
    && |g.succs| == |F.par| == |order| == |pre|
    && (forall k :: 0 <= k < |order| ==> 0 <= order[k] < |order| && pre[order[k]] == k)
    && (forall v :: 0 <= v < |pre| ==> 0 <= pre[v] < |pre| && order[pre[v]] == v)
    && (forall u, v :: 0 <= u < |pre| && 0 <= v < |pre| ==> SameEdge(g, F, pre, u, v))
  }

  ghost predicate SameEdge(g: Flowgraph, F: Forest, pre: seq<int>, u: nat, v: nat) {
    && u < |pre| == |g.succs| && v < |pre| && pre[u] >= 0 && pre[v] >= 0
    && ((pre[u], pre[v]) in F.E <==> v in g.succs[u])
  }

  ghost predicate ParentNumber(order: seq<int>, parent: seq<int>, par: seq<nat>, k: nat)
    requires |order| == |parent| == |par| && forall k :: 0 <= k < |order| ==> 0 <= order[k] < |order|
    requires k < |par|
  {
    && par[k] <= k
    && parent[order[k]] == if par[k] < k then order[par[k]] else NIL
  }

  /** A root other than the entry is isolated; all other vertices descend from the entry. */
  ghost predicate RootOk(F: Forest, k: nat) {
    && k < |F.par|
    && (F.par[k] < k ==> Anc(F.par, 0, k))
    && (F.par[k] == k && k > 0 ==> forall a: nat :: (a, k) !in F.E && (k, a) !in F.E)
  }

  ghost predicate Pending(order: seq<int>, sdom: seq<int>, ancestor: seq<int>, k: nat)
  {
    && k < |order| && 0 <= order[k] < |sdom| == |ancestor|
    && sdom[order[k]] == order[k] && ancestor[order[k]] == NIL
  }

  ghost predicate Processed(S: seq<nat>, par: seq<nat>, order: seq<int>, sdom: seq<int>, ancestor: seq<int>, k: nat)
  {
    && k < |order| == |S| == |par| && 0 <= order[k] < |sdom| == |ancestor|
    && (if par[k] < k then
          S[k] < k && sdom[order[k]] == order[S[k]] && ancestor[order[k]] == order[par[k]]
        else
          sdom[order[k]] == NIL && ancestor[order[k]] == NIL)
  }

  /** u has the least semidominator among the ancestors of v numbered after i. */
  ghost predicate LeastAbove(F: Forest, S: seq<nat>, u: int, v: int, i: nat) {
    && i < u < |S| && v >= 0 && Anc(F.par, u, v)
    && forall a :: i < a < |S| && Anc(F.par, a, v) ==> S[u] <= S[a]
  }

  /** The same for the ancestors from v up to, and excluding, x. */
  ghost predicate LeastSoFar(F: Forest, S: seq<nat>, u: int, v: int, x: int, i: nat) {
    && i < u < |S| && v >= 0 && Anc(F.par, u, v)
    && forall a :: i < a < |S| && x < a && Anc(F.par, a, v) ==> S[u] <= S[a]
  }

  lemma AdvanceLeast(F: Forest, S: seq<nat>, u0: int, u: int, v: int, k: nat, i: nat)
    requires LeastSoFar(F, S, u0, v, k, i) && k < |F.par| == |S|
    requires i < k && Anc(F.par, k, v) && F.par[k] < k
    requires (u == u0 || u == k) && S[u] <= S[u0] && S[u] <= S[k]
    ensures LeastSoFar(F, S, u, v, F.par[k], i)
  {
    forall a | i < a < |S| && F.par[k] < a && Anc(F.par, a, v) ensures S[u] <= S[a] {
      if a < k {
        AncChain(F.par, a, k, v);
        AncOrder(F.par, a, F.par[k]);
      }
    }
  }

  lemma NonRootAncestor(F: Forest, u: nat, v: nat)
    requires F.Valid() && v < |F.par| && RootOk(F, v) && F.par[v] < v && Anc(F.par, u, v) && u > 0
    ensures Anc(F.par, 0, u) && F.par[u] < u
  {
    AncOrder(F.par, u, v);
    AncChain(F.par, 0, u, v);
  }

  // ----- buckets -----

  /** From cur, the next links of buckets visit the blocks numbered c in turn and end at the
      block numbered k, which owns the bucket. */
  ghost predicate Chain(buckets: seq<int>, order: seq<int>, k: nat, cur: int, c: seq<nat>)
    decreases |c|
  {
    if c == [] then k < |order| && cur == order[k]
    else c[0] < |order| == |buckets| && c[0] != k && cur == order[c[0]] && Chain(buckets, order, k, buckets[c[0]], c[1..])
  }

  lemma {:induction false} ChainFrame(buckets: seq<int>, buckets': seq<int>, order: seq<int>, k: nat, cur: int, c: seq<nat>)
    requires Chain(buckets, order, k, cur, c) && |buckets| == |buckets'|
    requires forall y :: y in c && y < |buckets| ==> buckets[y] == buckets'[y]
    ensures Chain(buckets', order, k, cur, c)
    decreases |c|
  {
    if c != [] {
      ChainFrame(buckets, buckets', order, k, buckets[c[0]], c[1..]);
    }
  }

  /** The bucket of k, while i is next to be swept: the swept blocks whose semidominator is k
      and is not their parent. */
  ghost predicate BucketOk(F: Forest, S: seq<nat>, i: nat, buckets: seq<int>, order: seq<int>, chains: seq<seq<nat>>, k: nat) {
    && k < |buckets| == |order| == |chains| == |S| == |F.par|
    && Chain(buckets, order, k, buckets[k], chains[k])
    && forall y :: y in chains[k] <==> InBucket(F, S, i, k, y)
  }

  ghost predicate InBucket(F: Forest, S: seq<nat>, i: nat, k: nat, y: nat) {
    i < y < |S| == |F.par| && F.par[y] < y && S[y] == k && F.par[y] != k
  }

  ghost predicate BucketsOk(F: Forest, S: seq<nat>, i: nat, buckets: seq<int>, order: seq<int>, chains: seq<seq<nat>>) {
    && |buckets| == |order| == |chains| == |S| == |F.par|
    && forall k :: 0 <= k < |F.par| && k <= i ==> BucketOk(F, S, i, buckets, order, chains, k)
  }

  // ----- provisional immediate dominators -----

  /** The provisional idom of k: its immediate dominator, or a block with the same one. */
  ghost predicate Settled(F: Forest, S: seq<nat>, order: seq<int>, pre: seq<int>, idom: seq<int>, k: nat) {
    && |S| == |F.par| == |order| == |idom| == |pre| && k < |S|
    && 0 <= order[k] < |idom| && 0 <= idom[order[k]] < |pre| && pre[idom[order[k]]] >= 0
    && SettledBy(F, S, pre[idom[order[k]]], k)
  }

  ghost predicate SettledBy(F: Forest, S: seq<nat>, d: nat, k: nat)
    requires |S| == |F.par| && k < |S|
  {
    || (d == S[k] && IsIdom(F.E, 0, d, k))
    || (LeastBelow(F, S, d, k) && S[d] < S[k])
  }

  lemma SettledByEval(F: Forest, S: seq<nat>, i: nat, u: nat, y: nat)
    requires F.Valid() && SemisFrom(F, S, 0) && InBucket(F, S, i, i, y) && RootOk(F, y)
    requires LeastAbove(F, S, u, y, i)
    ensures SettledBy(F, S, if S[u] < i then u else i, y)
  {
    SemiIsAncestor(F, i, y);
    AncChain(F.par, i, u, y);
    if S[u] >= i {
      IdomIsSemi(F, S, y, u);
    }
  }

  lemma SettledFrame(F: Forest, S: seq<nat>, order: seq<int>, pre: seq<int>, idom: seq<int>, idom': seq<int>, y: nat)
    requires |order| == |idom| == |idom'| && y < |order| == |pre|
    requires forall k :: 0 <= k < |order| ==> 0 <= order[k] < |order| && pre[order[k]] == k
    requires forall x :: 0 <= x < |idom| && x != order[y] ==> idom'[x] == idom[x]
    ensures forall k :: k != y && Settled(F, S, order, pre, idom, k) ==> Settled(F, S, order, pre, idom', k)
  {
    forall k: nat | k != y && Settled(F, S, order, pre, idom, k) ensures Settled(F, S, order, pre, idom', k) {
      assert order[k] != order[y];
    }
  }

  // ----- semidominators from predecessors -----

  /** c does not exceed any candidate that the predecessor v of i offers. */
  ghost predicate Considered(F: Forest, S: seq<nat>, v: int, c: int, i: nat) {
    && v >= 0
    && (v < i ==> c <= v)
    && (v > i ==> forall u :: i < u < |S| && Anc(F.par, u, v) ==> c <= S[u])
  }

  lemma AllConsidered(g: Flowgraph, F: Forest, S: seq<nat>, order: seq<int>, pre: seq<int>, c: nat, i: nat)
    requires g.Valid() && F.Valid() && SemisFrom(F, S, 0) && Renumbers(g, F, order, pre)
    requires 0 < i < |F.par| && F.par[i] < i && forall k :: 0 <= k < |F.par| ==> RootOk(F, k)
    requires Candidate(F, c, i) && c <= F.par[i]
    requires forall v :: v in g.preds[order[i]] ==> v < |pre| && Considered(F, S, pre[v], c, i)
    ensures c == S[i]
  {
    var q := CandidateIsSemiWalk(F, c, i);
    assert IsSemi(F, S[i], i);
    var p :| SemiWalk(F, p, S[i], i);
    SemiIsAncestor(F, S[i], i);
    forall u | i < u < |F.par| && F.par[u] < u ensures exists s :: IsSemi(F, s, u) {
      assert IsSemi(F, S[u], u);
    }
    forall u: nat, e | i < u < |F.par| && F.par[u] == u && e in F.E ensures e.1 != u {
      assert RootOk(F, u);
      assert e == (e.0, e.1);
    }
    var c' := SemiHasCandidate(F, S[i], i, p);
    CandidateAtLeast(g, F, S, order, pre, c, c', i);
  }

  lemma CandidateAtLeast(g: Flowgraph, F: Forest, S: seq<nat>, order: seq<int>, pre: seq<int>, c: nat, c': nat, i: nat)
    requires g.Valid() && F.Valid() && SemisFrom(F, S, 0) && Renumbers(g, F, order, pre) && 0 < i < |F.par|
    requires forall v :: v in g.preds[order[i]] ==> v < |pre| && Considered(F, S, pre[v], c, i)
    requires Candidate(F, c', i)
    ensures c <= c'
  {
    if c' < i && (c', i) in F.E {
      assert F.EdgeOk(c', i);
      assert pre[order[c']] == c' && pre[order[i]] == i && SameEdge(g, F, pre, order[c'], order[i]);
      assert order[c'] in g.preds[order[i]];
    } else {
      var u, v :| i < u < |F.par| && (v, i) in F.E && Anc(F.par, u, v) && F.par[u] < u && IsSemi(F, c', u);
      assert F.EdgeOk(v, i);
      AncOrder(F.par, u, v);
      assert pre[order[v]] == v && pre[order[i]] == i && SameEdge(g, F, pre, order[v], order[i]);
      assert order[v] in g.preds[order[i]];
      SemiUnique(F, c', S[u], u);
    }
  }

  // ----- one step of the buckets -----

  /** No bucket gains the block numbered i if its semidominator is its parent, or if it is a root. */
  lemma BucketsSkip(F: Forest, S: seq<nat>, i: nat, buckets: seq<int>, order: seq<int>, chains: seq<seq<nat>>)
    requires BucketsOk(F, S, i, buckets, order, chains) && 0 < i < |S|
    requires F.par[i] < i ==> S[i] == F.par[i]
    ensures BucketsOk(F, S, i - 1, buckets, order, chains)
  {
    var j: nat := i - 1;
    forall k | 0 <= k < |F.par| && k <= j ensures BucketOk(F, S, j, buckets, order, chains, k) {
      assert BucketOk(F, S, i, buckets, order, chains, k);
      forall y: nat ensures InBucket(F, S, j, k, y) <==> InBucket(F, S, i, k, y) {
      }
    }
  }

  /** Threading the block numbered i through its own slot puts it in front of the bucket of s. */
  lemma BucketsInsert(F: Forest, S: seq<nat>, i: nat, s: nat, buckets: seq<int>, order: seq<int>, chains: seq<seq<nat>>)
    requires BucketsOk(F, S, i, buckets, order, chains) && 0 < i < |S|
    requires F.par[i] < i && S[i] == s < i && F.par[i] != s
    ensures BucketsOk(F, S, i - 1, buckets[i := buckets[s]][s := order[i]], order, chains[s := [i] + chains[s]])
  {
    var buckets', chains' := buckets[i := buckets[s]][s := order[i]], chains[s := [i] + chains[s]];
    var j: nat := i - 1;
    forall k | 0 <= k < |F.par| && k <= j ensures BucketOk(F, S, j, buckets', order, chains', k) {
      assert BucketOk(F, S, i, buckets, order, chains, k);
      ChainFrame(buckets, buckets', order, k, buckets[k], chains[k]);
      forall y: nat ensures InBucket(F, S, j, k, y) <==> InBucket(F, S, i, k, y) || (k == s && y == i) {
      }
      if k == s {
        assert chains'[k][1..] == chains[k];
      }
    }
  }

  // ----- final immediate dominators -----

  /** idom holds the immediate dominator of the block numbered k, or nil for a root. */
  ghost predicate Final(F: Forest, order: seq<int>, pre: seq<int>, idom: seq<int>, k: nat) {
    && k < |F.par| == |order| == |pre| == |idom| && 0 <= order[k] < |idom|
    && (if F.par[k] == k then idom[order[k]] == NIL
        else 0 <= idom[order[k]] < |pre| && pre[idom[order[k]]] >= 0 && IsIdom(F.E, 0, pre[idom[order[k]]], k))
  }

  /** The update of step 4 turns a settled entry into a final one. */
  lemma SettledIsFinal(F: Forest, S: seq<nat>, order: seq<int>, pre: seq<int>, idom: seq<int>, k: nat)
    requires F.Valid() && SemisFrom(F, S, 0) && 0 < k < |F.par| && RootOk(F, k) && F.par[k] < k
    requires Settled(F, S, order, pre, idom, k) && forall x :: 0 < x < k ==> Final(F, order, pre, idom, x)
    requires forall v :: 0 <= v < |pre| ==> 0 <= pre[v] < |pre| && order[pre[v]] == v
    requires forall x :: 0 <= x < |order| ==> 0 <= order[x] < |order| && pre[order[x]] == x
    requires S[k] < k
    ensures idom[order[k]] == order[S[k]] ==> IsIdom(F.E, 0, S[k], k)
    ensures idom[order[k]] != order[S[k]] ==> 0 <= idom[idom[order[k]]] < |pre| && IsIdom(F.E, 0, pre[idom[idom[order[k]]]], k)
  {
    var d := pre[idom[order[k]]];
    if LeastBelow(F, S, d, k) && S[d] < S[k] {
      SameStrictDominators(F, S, k, d, 0);
      NonRootAncestor(F, d, k);
      assert Final(F, order, pre, idom, d);
      SameIdom(F, S, k, d, pre[idom[order[d]]]);
    }
  }

  lemma FinalFrame(F: Forest, order: seq<int>, pre: seq<int>, idom: seq<int>, idom': seq<int>, k: nat)
    requires |order| == |idom| == |idom'| && k < |order| == |pre|
    requires forall x :: 0 <= x < |order| ==> 0 <= order[x] < |order| && pre[order[x]] == x
    requires forall x :: 0 <= x < |idom| && x != order[k] ==> idom'[x] == idom[x]
    ensures forall x :: x != k && Final(F, order, pre, idom, x) ==> Final(F, order, pre, idom', x)
  {
    forall x: nat | x != k && Final(F, order, pre, idom, x) ensures Final(F, order, pre, idom', x) {
      assert order[x] != order[k];
    }
  }

  /** children is the inverse of idom on the blocks numbered below k. */
  ghost predicate ChildrenOk(k: nat, order: seq<int>, idom: seq<int>, children: seq<seq<nat>>) {
    && |order| == |idom| == |children| && k <= |order|
    && (forall x :: 0 <= x < |children| ==> Distinct(children[x]))
    && (forall x, c: nat {:trigger c in children[x]} :: 0 <= x < |children| ==>
          (c in children[x] <==> c < |idom| && idom[c] == x && exists m :: 0 < m < k && order[m] == c))
  }

  lemma ChildrenStep(k: nat, order: seq<int>, pre: seq<int>, idom: seq<int>, idom': seq<int>,
                     children: seq<seq<nat>>, children': seq<seq<nat>>)
    requires 0 < k < |order| == |pre| == |idom'| && ChildrenOk(k, order, idom, children)
    requires forall x :: 0 <= x < |order| ==> 0 <= order[x] < |order| && pre[order[x]] == x
    requires forall x :: 0 <= x < |idom| && x != order[k] ==> idom'[x] == idom[x]
    requires if idom'[order[k]] == NIL then children' == children
             else 0 <= idom'[order[k]] < |children| && children' == children[idom'[order[k]] := children[idom'[order[k]]] + [order[k]]]
    ensures ChildrenOk(k + 1, order, idom', children')
  {
    var w := order[k];
    assert forall m :: 0 < m < k ==> order[m] != w;
    forall x, c: nat | 0 <= x < |children'|
      ensures c in children'[x] <==> c < |idom'| && idom'[c] == x && exists m :: 0 < m < k + 1 && order[m] == c
    {
      assert c in children'[x] <==> c in children[x] || (c == w && x == idom'[w]);
      if c in children[x] {
        var m :| 0 < m < k && order[m] == c;
      }
    }
    forall x | 0 <= x < |children'| ensures Distinct(children'[x]) {
      assert Distinct(children[x]) && w !in children[x];
    }
  }

  // ----- the whole construction -----

  ghost function Renumbered(g: Flowgraph, order: seq<int>): (E: Edges)
    requires |order| == |g.succs| && forall k :: 0 <= k < |order| ==> 0 <= order[k] < |order|
  {
    set a: nat, b: nat | a < |order| && b < |order| && order[b] in g.succs[order[a]] :: (a, b)
  }

  /** A completed depth-first search is a valid forest of the renumbered graph. */
  lemma SearchForest(g: Flowgraph, order: seq<int>, pre: seq<int>, sdom: seq<int>, parent: seq<int>, par: seq<nat>) returns (F: Forest)
    requires g.Valid() && |parent| == |g.succs| && Numbered(|g.succs|, |g.succs|, order, pre, sdom)
    requires ParentsOk(g, |g.succs|, order, parent, par)
    requires forall v :: 0 <= v < |sdom| ==> sdom[v] != NIL
    requires forall k :: 0 <= k < |order| ==> Scanned(g, order, pre, sdom, par, k)
    ensures F.Valid() && F.par == par && Renumbers(g, F, order, pre)
    ensures forall k :: 0 <= k < |par| ==> ParentNumber(order, parent, par, k)
  {
    F := Forest(par, Renumbered(g, order));
    forall k | 0 <= k < |par| ensures F.VertexOk(k) && ParentNumber(order, parent, par, k) {
      assert ParentOk(g, order, parent, par, k);
      assert par[k] < k ==> (par[k], k) in F.E;
    }
    forall u: nat, v: nat | (u, v) in F.E ensures F.EdgeOk(u, v) {
      assert Scanned(g, order, pre, sdom, par, u);
      assert pre[order[v]] == v;
    }
    forall u, v | 0 <= u < |pre| && 0 <= v < |pre| ensures SameEdge(g, F, pre, u, v) {
      assert order[pre[u]] == u && order[pre[v]] == v;
    }
  }

  /** The search from the entry visits every block that the entry reaches. */
  lemma {:induction false} SearchIsClosed(g: Flowgraph, i: nat, order: seq<int>, pre: seq<int>, sdom: seq<int>, par: seq<nat>, p: seq<nat>)
    requires g.Valid() && Numbered(|g.succs|, i, order, pre, sdom)
    requires forall k :: 0 <= k < i ==> Scanned(g, order, pre, sdom, par, k)
    requires Walk(g.EdgeSet(), p) && p[0] < |g.succs| && sdom[p[0]] != NIL
    ensures p[|p| - 1] < |g.succs| && sdom[p[|p| - 1]] != NIL
    decreases |p|
  {
    if |p| > 1 {
      assert Step(g.EdgeSet(), p, 1);
      assert Scanned(g, order, pre, sdom, par, pre[p[0]]);
      WalkSlice(g.EdgeSet(), p, 1, |p|);
      SearchIsClosed(g, i, order, pre, sdom, par, p[1..|p|]);
    }
  }

  lemma AllNumbered(n: nat, i: nat, order: seq<int>, pre: seq<int>, sdom: seq<int>)
    requires Numbered(n, i, order, pre, sdom) && forall v :: 0 <= v < n ==> sdom[v] != NIL
    ensures i == n
  {
    var s: seq<nat> := seq(n, v requires 0 <= v < n => pre[v]);
    forall a, b | 0 <= a < b < |s| ensures s[a] != s[b] {
      assert order[pre[a]] == a && order[pre[b]] == b;
    }
    DistinctFit(s, i);
  }

  lemma RenumberedWalk(g: Flowgraph, F: Forest, order: seq<int>, pre: seq<int>, p: seq<nat>) returns (q: seq<nat>)
    requires g.Valid() && Renumbers(g, F, order, pre)
    requires Walk(g.EdgeSet(), p) && p[0] < |g.succs|
    ensures Walk(F.E, q) && |q| == |p| && forall i :: 0 <= i < |p| ==> p[i] < |pre| && q[i] == pre[p[i]]
  {
    assert forall i :: 0 < i < |p| ==> Step(g.EdgeSet(), p, i);
    forall i | 0 <= i < |p| ensures p[i] < |pre| {
      if i > 0 { assert Step(g.EdgeSet(), p, i); }
    }
    q := seq(|p|, i requires 0 <= i < |p| => pre[p[i]]);
    forall i | 0 < i < |q| ensures Step(F.E, q, i) {
      assert Step(g.EdgeSet(), p, i);
      assert SameEdge(g, F, pre, p[i - 1], p[i]);
    }
  }

  lemma RestoredWalk(g: Flowgraph, F: Forest, order: seq<int>, pre: seq<int>, q: seq<nat>) returns (p: seq<nat>)
    requires g.Valid() && F.Valid() && Renumbers(g, F, order, pre)
    requires Walk(F.E, q) && q[0] < |order|
    ensures Walk(g.EdgeSet(), p) && |q| == |p| && forall i :: 0 <= i < |q| ==> q[i] < |order| && p[i] == order[q[i]]
  {
    forall i | 0 <= i < |q| ensures q[i] < |order| {
      if i > 0 { assert Step(F.E, q, i) && F.EdgeOk(q[i - 1], q[i]); }
    }
    p := seq(|q|, i requires 0 <= i < |q| => order[q[i]]);
    forall i | 0 < i < |p| ensures Step(g.EdgeSet(), p, i) {
      assert Step(F.E, q, i);
      assert pre[p[i - 1]] == q[i - 1] && pre[p[i]] == q[i] && SameEdge(g, F, pre, p[i - 1], p[i]);
    }
  }

  /** Dominance in the renumbered graph is dominance in the graph. */
  lemma RenumberedDominance(g: Flowgraph, F: Forest, order: seq<int>, pre: seq<int>, d: nat, v: nat)
    requires g.Valid() && F.Valid() && Renumbers(g, F, order, pre) && pre[0] == 0
    requires d < |pre| && v < |pre|
    ensures Dominates(g.EdgeSet(), 0, d, v) <==> Dominates(F.E, 0, pre[d], pre[v])
  {
    if Dominates(g.EdgeSet(), 0, d, v) {
      forall q | WalkFromTo(F.E, q, 0, pre[v]) ensures pre[d] in q {
        var p := RestoredWalk(g, F, order, pre, q);
        assert WalkFromTo(g.EdgeSet(), p, 0, v);
        var i :| 0 <= i < |p| && p[i] == d;
        assert q[i] == pre[d];
      }
    }
    if Dominates(F.E, 0, pre[d], pre[v]) {
      forall p | WalkFromTo(g.EdgeSet(), p, 0, v) ensures d in p {
        var q := RenumberedWalk(g, F, order, pre, p);
        assert WalkFromTo(F.E, q, 0, pre[v]);
        var i :| 0 <= i < |q| && q[i] == pre[d];
        assert order[q[i]] == p[i];
      }
    }
  }

  lemma RenumberedIdom(g: Flowgraph, F: Forest, order: seq<int>, pre: seq<int>, d: nat, v: nat)
    requires g.Valid() && F.Valid() && Renumbers(g, F, order, pre) && pre[0] == 0
    requires d < |pre| && v < |pre| && IsIdom(F.E, 0, pre[d], pre[v]) && Reaches(g.EdgeSet(), 0, v)
    ensures IsIdom(g.EdgeSet(), 0, d, v)
  {
    RenumberedDominance(g, F, order, pre, d, v);
    forall x: nat | StrictlyDominates(g.EdgeSet(), 0, x, v) ensures Dominates(g.EdgeSet(), 0, x, d) {
      var p :| WalkFromTo(g.EdgeSet(), p, 0, v);
      var q := RenumberedWalk(g, F, order, pre, p);
      assert x in p;
      RenumberedDominance(g, F, order, pre, x, v);
      RenumberedDominance(g, F, order, pre, x, d);
    }
  }

  /** Every block but recover is reachable from the entry, which nothing need precede;
      recover, if any, is isolated. */
  ghost predicate Buildable(g: Flowgraph, recover: int) {
    && g.Valid()
    && (recover == NIL || (0 < recover < |g.succs| && g.succs[recover] == [] && g.preds[recover] == []))
    && forall v :: 0 <= v < |g.succs| && v != recover ==> Reaches(g.EdgeSet(), 0, v)
  }

  /** idom and children describe the dominator tree of g. */
  ghost predicate IsDomTree(g: Flowgraph, recover: int, idom: seq<int>, children: seq<seq<nat>>) {
    && |idom| == |children| == |g.succs| > 0
    && (forall v :: 0 <= v < |idom| ==>
          if v == 0 || v == recover then idom[v] == NIL
          else 0 <= idom[v] < |idom| && IsIdom(g.EdgeSet(), 0, idom[v], v))
    && (forall x :: 0 <= x < |children| ==> Distinct(children[x]))
    && (forall x, c: nat {:trigger c in children[x]} :: 0 <= x < |children| ==> (c in children[x] <==> c < |idom| && idom[c] == x))
  }

  // ----- what the two searches visit -----

  lemma SearchReaches(g: Flowgraph, recover: int, m: nat, order: seq<int>, pre: seq<int>, sdom: seq<int>, par: seq<nat>)
    requires Buildable(g, recover) && Numbered(|g.succs|, m, order, pre, sdom) && sdom[0] != NIL
    requires Subtree(g, order, pre, sdom, par, 0, 0, m) && Scanned(g, order, pre, sdom, par, 0)
    ensures forall v :: 0 <= v < |sdom| && v != recover ==> sdom[v] != NIL
  {
    forall v | 0 <= v < |sdom| && v != recover ensures sdom[v] != NIL {
      assert Reaches(g.EdgeSet(), 0, v);
      var p :| WalkFromTo(g.EdgeSet(), p, 0, v);
      SearchIsClosed(g, m, order, pre, sdom, par, p);
    }
  }

  /** Apart from the entry, every block met by the search from the entry has a parent. */
  lemma EntryTree(g: Flowgraph, m: nat, order: seq<int>, parent: seq<int>, par: seq<nat>)
    requires |order| == |parent| == |g.succs| && m <= |order| && forall k :: 0 <= k < m ==> 0 <= order[k] < |order|
    requires ParentsOk(g, m, order, parent, par) && forall k :: 0 <= k < m ==> Anc(par, 0, k)
    ensures forall k :: 0 < k < m ==> par[k] < k && order[k] in g.succs[order[par[k]]]
  {
    forall k | 0 < k < m ensures par[k] < k && order[k] in g.succs[order[par[k]]] {
      assert Anc(par, 0, k) && ParentOk(g, order, parent, par, k);
    }
  }

  lemma RecoverUnvisited(g: Flowgraph, recover: int, m: nat, order: seq<int>, pre: seq<int>, sdom: seq<int>, parent: seq<int>, par: seq<nat>)
    requires Buildable(g, recover) && recover != NIL && Numbered(|g.succs|, m, order, pre, sdom) && m <= |par|
    requires m > 0 && order[0] == 0
    requires forall k :: 0 < k < m ==> par[k] < k && order[k] in g.succs[order[par[k]]]
    ensures sdom[recover] == NIL
  {
    forall k | 0 <= k < m ensures order[k] != recover {
      assert k > 0 ==> order[par[k]] in g.preds[order[k]];
    }
  }

  lemma RecoverLast(g: Flowgraph, recover: int, m: nat, i: nat, order: seq<int>, parent: seq<int>, par: seq<nat>)
    requires Buildable(g, recover) && recover != NIL && m < i <= |order| == |parent| == |g.succs|
    requires forall k :: 0 <= k < i ==> 0 <= order[k] < |order|
    requires ParentsOk(g, i, order, parent, par) && order[m] == recover
    requires forall k :: m <= k < i ==> Anc(par, m, k)
    ensures i == m + 1
  {
    if i > m + 1 {
      assert Anc(par, m, m + 1) && ParentOk(g, order, parent, par, m + 1);
      AncOrder(par, m, par[m + 1]);
    }
  }

  lemma RootsOk(g: Flowgraph, recover: int, F: Forest, m: nat, order: seq<int>, pre: seq<int>, par1: seq<nat>)
    requires Buildable(g, recover) && F.Valid() && Renumbers(g, F, order, pre) && order[0] == 0
    requires 0 < m <= |F.par| && par1 <= F.par && |par1| == m
    requires forall k :: 0 <= k < m ==> Anc(par1, 0, k)
    requires if recover == NIL then m == |F.par| else |F.par| == m + 1 && order[m] == recover && F.par[m] == m
    ensures forall k :: 0 <= k < |F.par| ==> RootOk(F, k) && (F.par[k] == k <==> k == 0 || order[k] == recover)
  {
    forall k | 0 <= k < |F.par| ensures RootOk(F, k) && (F.par[k] == k <==> k == 0 || order[k] == recover) {
      assert F.VertexOk(k);
      if k < m {
        AncPrefix(par1, F.par, 0, k);
        assert recover != NIL ==> pre[order[m]] == m && pre[order[k]] == k;
      } else {
        forall a: nat ensures (a, k) !in F.E && (k, a) !in F.E {
          assert (a, k) in F.E ==> F.EdgeOk(a, k);
          assert (k, a) in F.E ==> F.EdgeOk(k, a);
          if a < |F.par| {
            assert pre[order[a]] == a && SameEdge(g, F, pre, order[a], order[k]) && SameEdge(g, F, pre, order[k], order[a]);
            assert order[a] !in g.preds[order[k]] && order[a] !in g.succs[order[k]];
          }
        }
      }
    }
  }

  lemma SemisBelow(F: Forest, S: seq<nat>)
    requires F.Valid() && SemisFrom(F, S, 0)
    ensures forall k :: 0 <= k < |F.par| && F.par[k] < k ==> S[k] < k
  {
    forall k | 0 <= k < |F.par| && F.par[k] < k ensures S[k] < k {
      SemiIsAncestor(F, S[k], k);
    }
  }

  lemma FinalIsDomTree(g: Flowgraph, recover: int, F: Forest, order: seq<int>, pre: seq<int>, idom: seq<int>, children: seq<seq<nat>>)
    requires Buildable(g, recover) && F.Valid() && Renumbers(g, F, order, pre) && |idom| == |order| && order[0] == 0
    requires forall k :: 0 <= k < |F.par| ==> (F.par[k] == k <==> k == 0 || order[k] == recover)
    requires idom[0] == NIL && forall k :: 0 < k < |F.par| ==> Final(F, order, pre, idom, k)
    requires ChildrenOk(|F.par|, order, idom, children)
    ensures IsDomTree(g, recover, idom, children)
  {
    assert pre[order[0]] == 0;
    forall v | 0 <= v < |idom|
      ensures if v == 0 || v == recover then idom[v] == NIL
              else 0 <= idom[v] < |idom| && IsIdom(g.EdgeSet(), 0, idom[v], v)
    {
      if v != 0 {
        assert order[pre[v]] == v;
        assert Final(F, order, pre, idom, pre[v]);
        if v != recover {
          assert Reaches(g.EdgeSet(), 0, v);
          RenumberedIdom(g, F, order, pre, idom[v], v);
        }
      }
    }
    forall x, c: nat | 0 <= x < |children| ensures c in children[x] <==> c < |idom| && idom[c] == x {
      if c < |idom| && idom[c] == x {
        assert order[pre[c]] == c && pre[c] != 0;
      }
    }
  }

  /** buildDomTree: every block but the entry and recover gets its immediate dominator. */
  method BuildDomTree(g: Flowgraph, recover: int) returns (idom: seq<int>, children: seq<seq<nat>>)
    requires Buildable(g, recover)
    ensures IsDomTree(g, recover, idom, children)
  {
    var lt := new LtState(g);
    ghost var F := lt.Search(recover);
    ghost var S := Semis(F);
    SemisBelow(F, S);
    assert lt.Swept(F, S, |lt.preorder| - 1);
    lt.Sweep(F, S);
    children := lt.Finish(recover, F, S);
    idom := lt.idom;
    FinalIsDomTree(g, recover, F, lt.preorder, lt.pre, idom, children);
  }
}
