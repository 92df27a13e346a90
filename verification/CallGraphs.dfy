/** Call graphs: nodes with their In and Out lists of edges, deletion of wrapper nodes, path search.
    Nodes and edges have identities; two edges with the same ends and site are different edges. */
module CallGraphs {
  import opened Flowgraphs

  datatype Edge = Edge(caller: nat, site: int, callee: nat)

  /** edges[e] is what the edge e holds; ins and outs list edges by identity. */
  datatype Graph = Graph(nodes: set<nat>, edges: seq<Edge>, ins: map<nat, seq<nat>>, outs: map<nat, seq<nat>>)

  /** The lists of n hold each its edges once, and each edge is in the list at its other end. */
  ghost predicate NodeOk(g: Graph, n: nat) {
    && n in g.ins && n in g.outs && Distinct(g.ins[n]) && Distinct(g.outs[n])
    && (forall e :: e in g.outs[n] ==> e < |g.edges| && g.edges[e].caller == n && g.edges[e].callee in g.nodes && Lists(g.ins, g.edges[e].callee, e))
    && (forall e :: e in g.ins[n] ==> e < |g.edges| && g.edges[e].callee == n && g.edges[e].caller in g.nodes && Lists(g.outs, g.edges[e].caller, e))
  }

  ghost predicate Lists(m: map<nat, seq<nat>>, n: nat, e: nat) {
    n in m && e in m[n]
  }

  /** In and Out are dual. */
  ghost predicate Consistent(g: Graph) {
    forall n {:trigger NodeOk(g, n)} :: n in g.nodes ==> NodeOk(g, n)
  }

  /** Some Out list has an edge with this caller, site and callee. */
  ghost predicate Has(g: Graph, x: Edge) {
    x.caller in g.nodes && x.caller in g.outs && exists e :: e in g.outs[x.caller] && e < |g.edges| && g.edges[e] == x
  }

  // ----- routes -----

  /** p leads from x.caller by a first edge with x.site to x.callee; in between are only nodes of D. */
  ghost predicate Route(g: Graph, D: set<nat>, p: seq<Edge>, x: Edge) {
    && |p| > 0 && p[0].caller == x.caller && p[0].site == x.site && p[|p| - 1].callee == x.callee
    && (forall i :: 0 <= i < |p| ==> Has(g, p[i]))
    && (forall i :: 0 < i < |p| ==> Joined(p, i, D))
  }

  ghost predicate Joined(p: seq<Edge>, i: nat, D: set<nat>) {
    0 < i < |p| && p[i - 1].callee == p[i].caller && p[i].caller in D
  }

  ghost predicate Routed(g: Graph, D: set<nat>, x: Edge) {
    exists p :: Route(g, D, p, x)
  }

  lemma RouteGrows(g: Graph, D: set<nat>, D': set<nat>, x: Edge)
    requires Routed(g, D, x) && D <= D'
    ensures Routed(g, D', x)
  {
    var p :| Route(g, D, p, x);
    forall i | 0 < i < |p| ensures Joined(p, i, D') {
      assert Joined(p, i, D);
    }
    assert Route(g, D', p, x);
  }

  /** A route to n and one from n make a route through n. */
  lemma RoutesJoin(g: Graph, D: set<nat>, x: Edge, y: Edge)
    requires Routed(g, D, x) && Routed(g, D, y) && x.callee == y.caller && y.caller in D
    ensures Routed(g, D, Edge(x.caller, x.site, y.callee))
  {
    var p :| Route(g, D, p, x);
    var q :| Route(g, D, q, y);
    var r := p + q;
    forall i | 0 < i < |r| ensures Joined(r, i, D) {
      if i < |p| {
        assert Joined(p, i, D);
      } else if i > |p| {
        assert Joined(q, i - |p|, D);
      }
    }
    assert Route(g, D, r, Edge(x.caller, x.site, y.callee));
  }

  /** Up to its first visit of n, a route avoids n. */
  lemma {:induction false} RouteToFirst(g: Graph, D: set<nat>, n: nat, p: seq<Edge>, x: Edge)
    requires Route(g, D + {n}, p, x)
    ensures Routed(g, D, x) || Routed(g, D, Edge(x.caller, x.site, n))
    decreases |p|
  {
    if k :| 0 < k < |p| && p[k].caller == n {
      var q := p[..k];
      assert Joined(p, k, D + {n});
      forall i | 0 < i < |q| ensures Joined(q, i, D + {n}) {
        assert Joined(p, i, D + {n});
      }
      RouteToFirst(g, D, n, q, Edge(x.caller, x.site, n));
    } else {
      RouteAvoids(g, D, n, p, x);
    }
  }

  lemma RouteAvoids(g: Graph, D: set<nat>, n: nat, p: seq<Edge>, x: Edge)
    requires Route(g, D + {n}, p, x) && forall k :: 0 < k < |p| ==> p[k].caller != n
    ensures Routed(g, D, x)
  {
    forall i | 0 < i < |p| ensures Joined(p, i, D) {
      assert Joined(p, i, D + {n});
    }
    assert Route(g, D, p, x);
  }

  /** From its last visit of n on, a route avoids n. */
  lemma {:induction false} RouteFromLast(g: Graph, D: set<nat>, n: nat, p: seq<Edge>, x: Edge)
    requires Route(g, D + {n}, p, x)
    ensures Routed(g, D, x) || exists s :: Routed(g, D, Edge(n, s, x.callee))
    decreases |p|
  {
    if k :| 0 < k < |p| && p[k].caller == n {
      var q := p[k..];
      forall i | 0 < i < |q| ensures Joined(q, i, D + {n}) {
        assert Joined(p, i + k, D + {n});
      }
      var y := Edge(n, p[k].site, x.callee);
      RouteFromLast(g, D, n, q, y);
    } else {
      RouteAvoids(g, D, n, p, x);
    }
  }

  /** n can be taken out: what leads to it is led on to where it leads. */
  ghost predicate LedOn(g: Graph, n: nat, x: Edge) {
    Has(g, Edge(x.caller, x.site, n)) && exists s :: Has(g, Edge(n, s, x.callee))
  }

  /** g holds exactly the routes of g0 whose interior is in D. */
  ghost predicate Inlined(g0: Graph, g: Graph, D: set<nat>) {
    && g.nodes == g0.nodes - D
    && forall x {:trigger Has(g, x)} :: Has(g, x) <==> x.caller in g.nodes && x.callee in g.nodes && Routed(g0, D, x)
  }

  lemma InlinedNothing(g: Graph)
    requires Consistent(g)
    ensures Inlined(g, g, {})
  {
    forall x ensures Has(g, x) <==> x.caller in g.nodes && x.callee in g.nodes && Routed(g, {}, x) {
      if Has(g, x) {
        assert NodeOk(g, x.caller);
        assert Route(g, {}, [x], x);
      }
      if Routed(g, {}, x) {
        var p :| Route(g, {}, p, x);
        assert |p| > 1 ==> Joined(p, 1, {});
        assert p[0] == x;
      }
    }
  }

  /** Taking out one more node, whichever it is. */
  lemma InlinedOne(g0: Graph, g: Graph, g': Graph, D: set<nat>, n: nat)
    requires Inlined(g0, g, D) && n in g.nodes && g'.nodes == g.nodes - {n}
    requires forall x :: Has(g', x) <==> x.caller != n && x.callee != n && (Has(g, x) || LedOn(g, n, x))
    ensures Inlined(g0, g', D + {n})
  {
    forall x ensures Has(g', x) <==> x.caller in g'.nodes && x.callee in g'.nodes && Routed(g0, D + {n}, x) {
      if Has(g', x) {
        InlinedSound(g0, g, D, n, x);
      }
      if x.caller in g'.nodes && x.callee in g'.nodes && Routed(g0, D + {n}, x) {
        InlinedComplete(g0, g, D, n, x);
      }
    }
  }

  lemma InlinedSound(g0: Graph, g: Graph, D: set<nat>, n: nat, x: Edge)
    requires Inlined(g0, g, D) && n in g.nodes && (Has(g, x) || LedOn(g, n, x))
    ensures x.caller in g.nodes && x.callee in g.nodes && Routed(g0, D + {n}, x)
  {
    if Has(g, x) {
      RouteGrows(g0, D, D + {n}, x);
    } else {
      var s :| Has(g, Edge(n, s, x.callee));
      RouteGrows(g0, D, D + {n}, Edge(x.caller, x.site, n));
      RouteGrows(g0, D, D + {n}, Edge(n, s, x.callee));
      RoutesJoin(g0, D + {n}, Edge(x.caller, x.site, n), Edge(n, s, x.callee));
    }
  }

  lemma InlinedComplete(g0: Graph, g: Graph, D: set<nat>, n: nat, x: Edge)
    requires Inlined(g0, g, D) && n in g.nodes && x.caller in g.nodes && x.callee in g.nodes && Routed(g0, D + {n}, x)
    ensures Has(g, x) || LedOn(g, n, x)
  {
    var p :| Route(g0, D + {n}, p, x);
    RouteToFirst(g0, D, n, p, x);
    RouteFromLast(g0, D, n, p, x);
    if !Routed(g0, D, x) {
      var s :| Routed(g0, D, Edge(n, s, x.callee));
      assert Has(g, Edge(n, s, x.callee)) && Has(g, Edge(x.caller, x.site, n));
    }
  }

  // ----- editing the lists -----

  /** s' is s without the edges in drop. */
  ghost predicate Less(s: seq<nat>, s': seq<nat>, drop: set<nat>) {
    Distinct(s') && forall e :: e in s' <==> e in s && e !in drop
  }

  /** All lists of the nodes have lost the edges in drop. */
  ghost predicate AllLess(nodes: set<nat>, m: map<nat, seq<nat>>, m': map<nat, seq<nat>>, drop: set<nat>) {
    forall n {:trigger LessAt(m, m', drop, n)} :: n in nodes ==> LessAt(m, m', drop, n)
  }

  ghost predicate LessAt(m: map<nat, seq<nat>>, m': map<nat, seq<nat>>, drop: set<nat>, n: nat) {
    n in m && n in m' && Less(m[n], m'[n], drop)
  }

  /** Removes e from a list by moving the last element to its place. */
  method SwapRemove(s: seq<nat>, e: nat) returns (s': seq<nat>)
    requires Distinct(s) && e in s
    ensures Less(s, s', {e})
  {
    var n := |s|;
    for i := 0 to n
      invariant forall j :: 0 <= j < i ==> s[j] != e
    {
      if s[i] == e {
        s' := s[i := s[n - 1]][..n - 1];
        SwapRemoved(s, i);
        return;
      }
    }
    assert false;
  }

  lemma SwapRemoved(s: seq<nat>, i: nat)
    requires Distinct(s) && i < |s|
    ensures Less(s, s[i := s[|s| - 1]][..|s| - 1], {s[i]})
  {
    var s' := s[i := s[|s| - 1]][..|s| - 1];
    forall x ensures x in s' <==> x in s && x != s[i] {
      if x in s && x != s[i] {
        var k :| 0 <= k < |s| && s[k] == x;
        assert if k == |s| - 1 then s'[i] == x else s'[k] == x;
      }
    }
  }

  class CallGraph {
    const root: nat
    var nodes: set<nat>
    var edges: seq<Edge>
    var ins: map<nat, seq<nat>>
    var outs: map<nat, seq<nat>>

    /** New: the graph of the root alone. */
    constructor (root: nat)
      ensures this.root == root && nodes == {root} && Consistent(Value()) && forall x :: !Has(Value(), x)
    {
      this.root, nodes, edges, ins, outs := root, {root}, [], map[root := []], map[root := []];
    }

    ghost function Value(): (g: Graph)
      reads this
    {
      Graph(nodes, edges, ins, outs)
    }

    /** CreateNode: the node of fn, created without edges if it is new. */
    method CreateNode(fn: nat)
      requires Consistent(Value())
      modifies this
      ensures Consistent(Value()) && nodes == old(nodes) + {fn} && forall x :: Has(Value(), x) <==> Has(old(Value()), x)
    {
      if fn !in nodes {
        nodes, ins, outs := nodes + {fn}, ins[fn := []], outs[fn := []];
        forall n | n in nodes ensures NodeOk(Value(), n) {
          if n != fn { assert NodeOk(old(Value()), n); }
        }
        forall x ensures Has(Value(), x) <==> Has(old(Value()), x) {
          assert Has(old(Value()), x) ==> x.caller != fn;
        }
      }
    }

    /** AddEdge. */
    method AddEdge(caller: nat, site: int, callee: nat)
      requires Consistent(Value()) && caller in nodes && callee in nodes
      modifies this`edges, this`ins, this`outs
      ensures Consistent(Value()) && AddedEdge(old(Value()), Value(), Edge(caller, site, callee))
    {
      ghost var g := Value();
      assert NodeOk(g, caller) && NodeOk(g, callee);
      edges := edges + [Edge(caller, site, callee)];
      ins := ins[callee := ins[callee] + [|edges| - 1]];
      outs := outs[caller := outs[caller] + [|edges| - 1]];
      AddKeepsNodes(g, Value(), Edge(caller, site, callee));
    }

    /** removeOutEdge. */
    method RemoveOutEdge(e: nat)
      requires e < |edges| && edges[e].caller in outs && e in outs[edges[e].caller] && Distinct(outs[edges[e].caller])
      modifies this`outs
      ensures edges[e].caller in outs && outs == old(outs)[edges[e].caller := outs[edges[e].caller]]
      ensures Less(old(outs)[edges[e].caller], outs[edges[e].caller], {e})
    {
      var rest := SwapRemove(outs[edges[e].caller], e);
      outs := outs[edges[e].caller := rest];
    }

    /** removeInEdge. */
    method RemoveInEdge(e: nat)
      requires e < |edges| && edges[e].callee in ins && e in ins[edges[e].callee] && Distinct(ins[edges[e].callee])
      modifies this`ins
      ensures edges[e].callee in ins && ins == old(ins)[edges[e].callee := ins[edges[e].callee]]
      ensures Less(old(ins)[edges[e].callee], ins[edges[e].callee], {e})
    {
      var rest := SwapRemove(ins[edges[e].callee], e);
      ins := ins[edges[e].callee := rest];
    }

    /** deleteIns: takes the incoming edges of n out of their callers' lists. */
    method DeleteIns(n: nat)
      requires Consistent(Value()) && n in nodes
      modifies this`ins, this`outs
      ensures n in old(ins) && AllLess(nodes, old(outs), outs, Elements(old(ins)[n])) && ins == old(ins)[n := []]
    {
      ghost var g := Value();
      NothingLess(g, g.outs, g.outs);
      ListDistinct(g, n);
      for k := 0 to |ins[n]|
        invariant ins == g.ins && n in ins && AllLess(nodes, g.outs, outs, Elements(ins[n][..k]))
      {
        var e := ins[n][k];
        assert ins[n][..k + 1] == ins[n][..k] + [e] && e in ins[n];
        OutListed(g, outs, n, e, Elements(ins[n][..k]));
        ghost var was := outs;
        RemoveOutEdge(e);
        LessMore(nodes, g.outs, was, outs, Elements(ins[n][..k]), Elements(ins[n][..k + 1]), e, edges[e].caller, g, true);
      }
      assert ins[n][..|ins[n]|] == ins[n];
      ins := ins[n := []];
    }

    /** deleteOuts: takes the outgoing edges of n, none of which leads to n, out of their callees' lists. */
    method DeleteOuts(n: nat, ghost g: Graph)
      requires Consistent(g) && n in nodes && g.nodes == nodes && g.edges == edges && n in g.outs && ins == g.ins[n := []] && n in outs
      requires Distinct(outs[n]) && forall e :: e in outs[n] ==> e in g.outs[n] && e < |edges| && edges[e].callee != n
      modifies this`ins, this`outs
      ensures n in old(outs) && AllLess(nodes, old(ins), ins, Elements(old(outs)[n])) && outs == old(outs)[n := []]
    {
      ghost var m0, out := ins, outs[n];
      ListDistinct(g, n);
      NothingLess(g, m0, g.ins);
      for k := 0 to |outs[n]|
        invariant outs == old(outs) && n in outs && outs[n] == out && AllLess(nodes, m0, ins, Elements(out[..k]))
      {
        var e := outs[n][k];
        assert out[..k + 1] == out[..k] + [e] && e in out;
        InListed(g, m0, ins, n, e, Elements(out[..k]));
        ghost var was := ins;
        RemoveInEdge(e);
        LessMore(nodes, m0, was, ins, Elements(out[..k]), Elements(out[..k + 1]), e, edges[e].callee, g, false);
      }
      assert out[..|out|] == out;
      outs := outs[n := []];
    }

    /** DeleteNode: removes n and its edges. */
    method DeleteNode(n: nat)
      requires Consistent(Value()) && n in nodes
      modifies this`nodes, this`ins, this`outs
      ensures Consistent(Value()) && nodes == old(nodes) - {n}
      ensures forall x :: Has(Value(), x) <==> Has(old(Value()), x) && x.caller != n && x.callee != n
    {
      ghost var g := Value();
      DeleteIns(n);
      ghost var g1 := Value();
      AfterIns(g, g1, n);
      DeleteOuts(n, g);
      nodes := nodes - {n};
      Deleted(g, g1, Value(), n);
    }

    /** Adds an edge unless it is there already. */
    method AddNew(x: Edge, hash: set<Edge>, ghost n: nat, ghost g0: Graph) returns (hash': set<Edge>)
      requires Between(g0, Value(), n) && Hashed(Value(), hash) && LedOn(g0, n, x) && x.caller in nodes && x.callee in nodes
      modifies this`edges, this`ins, this`outs
      ensures Between(g0, Value(), n) && Hashed(Value(), hash') && Extends(old(Value()), Value()) && Has(Value(), x)
    {
      hash' := hash;
      if x !in hash {
        AddEdge(x.caller, x.site, x.callee);
        hash' := hash + {x};
      }
    }

    /** Leads one incoming edge of n on to everything n calls. */
    method LeadOn(n: nat, x: Edge, hash: set<Edge>, ghost g0: Graph) returns (hash': set<Edge>)
      requires Between(g0, Value(), n) && Hashed(Value(), hash) && n in nodes && x.callee == n && Has(g0, x)
      modifies this`edges, this`ins, this`outs
      ensures Between(g0, Value(), n) && Hashed(Value(), hash') && Extends(old(Value()), Value()) && Covered(g0, Value(), n, x)
    {
      hash' := hash;
      ghost var g1 := Value();
      assert NodeOk(g1, n) && Has(g1, x);
      var out := outs[n];
      InBounds(out, |g1.edges|);
      for k := 0 to |out|
        invariant Between(g0, Value(), n) && Hashed(Value(), hash') && Extends(g1, Value())
        invariant forall j :: 0 <= j < k ==> LedTo(Value(), x, g1.edges[out[j]])
      {
        ghost var g2 := Value();
        var y := edges[out[k]];
        assert out[k] in g1.outs[n] && y == g1.edges[out[k]];
        LeadsTo(g0, g1, n, x, out[k]);
        hash' := AddNew(Edge(x.caller, x.site, y.callee), hash', n, g0);
        ExtendsMore(g1, g2, Value());
        LedMore(g1, g2, Value(), x, out, k);
      }
      LeadsAll(g0, g1, Value(), n, x);
    }

    /** Leads all incoming edges of n on. */
    method Inline(n: nat, hash: set<Edge>) returns (hash': set<Edge>)
      requires Consistent(Value()) && Hashed(Value(), hash) && n in nodes
      modifies this`edges, this`ins, this`outs
      ensures Consistent(Value()) && Hashed(Value(), hash')
      ensures forall x :: Has(Value(), x) <==> Has(old(Value()), x) || LedOn(old(Value()), n, x)
    {
      hash' := hash;
      ghost var g0 := Value();
      assert NodeOk(g0, n);
      var into := ins[n];
      InBounds(into, |g0.edges|);
      for i := 0 to |into|
        invariant Between(g0, Value(), n) && Hashed(Value(), hash') && Extends(g0, Value())
        invariant forall j :: 0 <= j < i ==> Covered(g0, Value(), n, g0.edges[into[j]])
      {
        assert into[i] in g0.ins[n];
        ghost var g1 := Value();
        assert edges[into[i]] == g0.edges[into[i]];
        assert Has(g0, g0.edges[into[i]]);
        hash' := LeadOn(n, edges[into[i]], hash', g0);
        forall j | 0 <= j < i ensures Covered(g0, Value(), n, g0.edges[into[j]]) {
          assert Covered(g0, g1, n, g0.edges[into[j]]);
        }
      }
      forall x | LedOn(g0, n, x) ensures Has(Value(), x) {
        var e :| e in g0.outs[x.caller] && e < |g0.edges| && g0.edges[e] == Edge(x.caller, x.site, n);
        assert NodeOk(g0, x.caller);
        var j :| 0 <= j < |into| && into[j] == e;
        assert Covered(g0, Value(), n, g0.edges[into[j]]);
      }
    }

    /** DeleteSyntheticNodes removes the wrappers, in whatever order the nodes come: an edge
        remains or is made exactly for each route between kept nodes through wrappers only. */
    method DeleteSyntheticNodes(order: seq<nat>, synthetic: set<nat>, inits: set<nat>)
      requires Consistent(Value()) && Distinct(order) && Elements(order) == nodes
      modifies this
      ensures Consistent(Value())
      ensures Inlined(old(Value()), Value(), Wrappers(old(nodes), root, synthetic, inits))
    {
      var hash := HashEdges(order);
      ghost var g0 := Value();
      ghost var D: set<nat> := {};
      InlinedNothing(g0);
      for i := 0 to |order|
        invariant Consistent(Value()) && Hashed(Value(), hash) && Inlined(g0, Value(), D)
        invariant D == Wrappers(Elements(order[..i]), root, synthetic, inits)
      {
        var n := order[i];
        assert order[..i + 1] == order[..i] + [n];
        if n == root || n !in synthetic || n in inits {
        } else {
          ghost var g := Value();
          assert n in order;
          hash := Inline(n, hash);
          DeleteNode(n);
          InlinedOne(g0, g, Value(), D, n);
          D := D + {n};
        }
      }
      assert order[..|order|] == order;
    }

    /** The edges of the graph, by value. */
    method HashEdges(order: seq<nat>) returns (hash: set<Edge>)
      requires Consistent(Value()) && Elements(order) == nodes
      ensures Hashed(Value(), hash)
    {
      hash := {};
      for i := 0 to |order|
        invariant forall x :: x in hash <==> x.caller in order[..i] && Has(Value(), x)
      {
        var n := order[i];
        assert n in order && NodeOk(Value(), n) && order[..i + 1] == order[..i] + [n];
        ghost var was := hash;
        InBounds(outs[n], |edges|);
        for k := 0 to |outs[n]|
          invariant forall x :: x in hash <==> x in was || exists j :: 0 <= j < k && edges[outs[n][j]] == x
        {
          hash := hash + {edges[outs[n][k]]};
        }
        forall x ensures x in hash <==> x.caller in order[..i + 1] && Has(Value(), x) {
          if x.caller == n && Has(Value(), x) {
            var e :| e in outs[n] && e < |edges| && edges[e] == x;
            var j :| 0 <= j < |outs[n]| && outs[n][j] == e;
          }
        }
      }
      assert order[..|order|] == order;
      forall x: Edge | x.caller in nodes ensures x in hash <==> Has(Value(), x) {
        assert x.caller in order;
      }
    }
  }

  lemma InBounds(s: seq<nat>, n: nat)
    requires forall e :: e in s ==> e < n
    ensures forall j :: 0 <= j < |s| ==> s[j] < n
  {
    forall j | 0 <= j < |s| ensures s[j] < n { assert s[j] in s; }
  }

  /** The synthetic nodes that are to go. */
  ghost function Wrappers(nodes: set<nat>, root: nat, synthetic: set<nat>, inits: set<nat>): (D: set<nat>) {
    set n | n in nodes && n != root && n in synthetic && n !in inits
  }

  /** hash holds the edges of the graph, as far as its nodes go. */
  ghost predicate Hashed(g: Graph, hash: set<Edge>) {
    forall x: Edge :: x.caller in g.nodes && x.callee in g.nodes ==> (x in hash <==> Has(g, x))
  }

  /** Edges have been added. */
  ghost predicate Extends(g: Graph, g': Graph) {
    && |g.edges| <= |g'.edges| && (forall e :: 0 <= e < |g.edges| ==> g'.edges[e] == g.edges[e])
    && (forall x :: Has(g, x) ==> Has(g', x))
  }

  /** g0 with some of its edges to n led on. */
  ghost predicate Between(g0: Graph, g: Graph, n: nat) {
    && Consistent(g) && g.nodes == g0.nodes && (forall x :: Has(g0, x) ==> Has(g, x))
    && (forall x :: Has(g, x) ==> Has(g0, x) || LedOn(g0, n, x))
  }

  /** The edge x to n has been led on to all that n calls. */
  ghost predicate Covered(g0: Graph, g: Graph, n: nat, x: Edge) {
    forall s, v :: Has(g0, Edge(n, s, v)) ==> Has(g, Edge(x.caller, x.site, v))
  }

  ghost predicate LedTo(g: Graph, x: Edge, y: Edge) {
    Has(g, Edge(x.caller, x.site, y.callee))
  }

  lemma ExtendsMore(g: Graph, g1: Graph, g2: Graph)
    requires Extends(g, g1) && Extends(g1, g2)
    ensures Extends(g, g2)
  {
  }

  lemma LedMore(g1: Graph, g2: Graph, g: Graph, x: Edge, out: seq<nat>, k: nat)
    requires k < |out| && forall j :: 0 <= j < |out| ==> out[j] < |g1.edges|
    requires Extends(g2, g) && LedTo(g, x, g1.edges[out[k]]) && forall j :: 0 <= j < k ==> LedTo(g2, x, g1.edges[out[j]])
    ensures forall j :: 0 <= j < k + 1 ==> LedTo(g, x, g1.edges[out[j]])
  {
    forall j | 0 <= j < k ensures LedTo(g, x, g1.edges[out[j]]) {
      assert LedTo(g2, x, g1.edges[out[j]]);
    }
  }

  lemma LeadsAll(g0: Graph, g1: Graph, g: Graph, n: nat, x: Edge)
    requires Between(g0, g1, n) && n in g1.nodes && n in g1.outs && (forall j :: 0 <= j < |g1.outs[n]| ==> g1.outs[n][j] < |g1.edges|)
    requires forall j :: 0 <= j < |g1.outs[n]| ==> LedTo(g, x, g1.edges[g1.outs[n][j]])
    ensures Covered(g0, g, n, x)
  {
    forall s, v | Has(g0, Edge(n, s, v)) ensures Has(g, Edge(x.caller, x.site, v)) {
      assert Has(g1, Edge(n, s, v));
      var e :| e in g1.outs[n] && e < |g1.edges| && g1.edges[e] == Edge(n, s, v);
      var j :| 0 <= j < |g1.outs[n]| && g1.outs[n][j] == e;
      assert LedTo(g, x, g1.edges[g1.outs[n][j]]);
    }
  }

  lemma LeadsTo(g0: Graph, g1: Graph, n: nat, x: Edge, e: nat)
    requires Between(g0, g1, n) && n in g1.nodes && x.callee == n && Has(g0, x) && n in g1.outs && e in g1.outs[n] && e < |g1.edges|
    ensures LedOn(g0, n, Edge(x.caller, x.site, g1.edges[e].callee)) && x.caller in g1.nodes && g1.edges[e].callee in g1.nodes
  {
    assert NodeOk(g1, n);
    var y := g1.edges[e];
    assert Has(g1, y);
    assert x == Edge(x.caller, x.site, n);
    if Has(g0, y) {
      assert Has(g0, Edge(n, y.site, y.callee));
    } else {
      assert LedOn(g0, n, y);
    }
  }

  /** g' is g with one more edge x. */
  ghost predicate AddedEdge(g: Graph, g': Graph, x: Edge) {
    && g'.nodes == g.nodes && g'.edges == g.edges + [x] && x.caller in g.outs && x.callee in g.ins
    && g'.ins == g.ins[x.callee := g.ins[x.callee] + [|g.edges|]] && g'.outs == g.outs[x.caller := g.outs[x.caller] + [|g.edges|]]
    && (forall y :: Has(g', y) <==> Has(g, y) || y == x)
  }

  lemma AddKeepsNodes(g: Graph, g': Graph, x: Edge)
    requires Consistent(g) && x.caller in g.nodes && x.callee in g.nodes && x.caller in g.outs && x.callee in g.ins
    requires g'.nodes == g.nodes && g'.edges == g.edges + [x]
    requires g'.ins == g.ins[x.callee := g.ins[x.callee] + [|g.edges|]] && g'.outs == g.outs[x.caller := g.outs[x.caller] + [|g.edges|]]
    ensures Consistent(g') && AddedEdge(g, g', x)
  {
    forall n | n in g'.nodes ensures NodeOk(g', n) {
      assert NodeOk(g, n);
      assert |g.edges| !in g.outs[n] && |g.edges| !in g.ins[n];
      DistinctAppend(g.outs[n], |g.edges|);
      DistinctAppend(g.ins[n], |g.edges|);
      forall e | e in g'.outs[n] ensures e < |g'.edges| && g'.edges[e].caller == n && g'.edges[e].callee in g'.nodes && Lists(g'.ins, g'.edges[e].callee, e) {
        if e < |g.edges| { assert e in g.outs[n] && Lists(g.ins, g.edges[e].callee, e); }
      }
      forall e | e in g'.ins[n] ensures e < |g'.edges| && g'.edges[e].callee == n && g'.edges[e].caller in g'.nodes && Lists(g'.outs, g'.edges[e].caller, e) {
        if e < |g.edges| { assert e in g.ins[n] && Lists(g.outs, g.edges[e].caller, e); }
      }
    }
    forall y ensures Has(g', y) <==> Has(g, y) || y == x {
      if Has(g, y) {
        var e :| e in g.outs[y.caller] && e < |g.edges| && g.edges[e] == y;
        assert e in g'.outs[y.caller] && g'.edges[e] == y;
      }
      if y == x { assert |g.edges| in g'.outs[x.caller]; }
      if Has(g', y) {
        assert NodeOk(g, y.caller);
        var e :| e in g'.outs[y.caller] && e < |g'.edges| && g'.edges[e] == y;
        assert e != |g.edges| ==> e in g.outs[y.caller];
      }
    }
  }

  ghost predicate SubLists(g: Graph, m: map<nat, seq<nat>>, m': map<nat, seq<nat>>) {
    forall n :: n in g.nodes && n in m ==> n in m' && forall e :: e in m[n] ==> e in m'[n]
  }

  /** Removing one more edge from the only list that holds it. */
  lemma LessMore(nodes: set<nat>, m0: map<nat, seq<nat>>, m: map<nat, seq<nat>>, m': map<nat, seq<nat>>, drop: set<nat>, drop': set<nat>, e: nat, at: nat, g: Graph, out: bool)
    requires AllLess(nodes, m0, m, drop) && drop' == drop + {e} && at in nodes && at in m && at in m' && m' == m[at := m'[at]] && Less(m[at], m'[at], {e})
    requires Consistent(g) && nodes == g.nodes && e < |g.edges| && at == (if out then g.edges[e].caller else g.edges[e].callee)
    requires SubLists(g, m0, if out then g.outs else g.ins)
    ensures AllLess(nodes, m0, m', drop')
  {
    forall n | n in nodes ensures LessAt(m0, m', drop', n) {
      assert LessAt(m0, m, drop, n) && NodeOk(g, n);
    }
  }

  lemma ListDistinct(g: Graph, n: nat)
    requires Consistent(g) && n in g.nodes
    ensures n in g.ins && n in g.outs && Distinct(g.ins[n]) && Distinct(g.outs[n])
  {
    assert NodeOk(g, n);
  }

  /** At first no list is shorter; m may have emptied a list of m'. */
  lemma NothingLess(g: Graph, m: map<nat, seq<nat>>, m': map<nat, seq<nat>>)
    requires Consistent(g) && (m' == g.outs || m' == g.ins) && forall n :: n in m' ==> n in m && (m[n] == m'[n] || m[n] == [])
    requires forall n :: n in m ==> n in m'
    ensures AllLess(g.nodes, m, m, {}) && SubLists(g, m, m')
  {
    forall n | n in g.nodes ensures LessAt(m, m, {}, n) {
      assert NodeOk(g, n);
    }
  }

  /** An incoming edge of n that has not been dropped is in its caller's list. */
  lemma OutListed(g: Graph, outs: map<nat, seq<nat>>, n: nat, e: nat, drop: set<nat>)
    requires Consistent(g) && n in g.nodes && n in g.ins && e in g.ins[n] && AllLess(g.nodes, g.outs, outs, drop) && e !in drop
    ensures e < |g.edges| && g.edges[e].caller in g.nodes && g.edges[e].caller in outs && e in outs[g.edges[e].caller] && Distinct(outs[g.edges[e].caller])
    ensures SubLists(g, g.outs, g.outs)
  {
    assert NodeOk(g, n);
    assert LessAt(g.outs, outs, drop, g.edges[e].caller);
  }

  /** An outgoing edge of n to another node that has not been dropped is in its callee's list. */
  lemma InListed(g: Graph, m0: map<nat, seq<nat>>, ins: map<nat, seq<nat>>, n: nat, e: nat, drop: set<nat>)
    requires Consistent(g) && n in g.nodes && n in g.outs && e in g.outs[n] && e < |g.edges| && g.edges[e].callee != n
    requires m0 == g.ins[n := []] && AllLess(g.nodes, m0, ins, drop) && e !in drop
    ensures g.edges[e].callee in g.nodes && g.edges[e].callee in ins && e in ins[g.edges[e].callee] && Distinct(ins[g.edges[e].callee])
  {
    assert NodeOk(g, n);
    assert LessAt(m0, ins, drop, g.edges[e].callee);
  }

  lemma AfterIns(g: Graph, g1: Graph, n: nat)
    requires Consistent(g) && n in g.nodes && n in g.ins && g1.nodes == g.nodes && g1.edges == g.edges && g1.ins == g.ins[n := []]
    requires AllLess(g.nodes, g.outs, g1.outs, Elements(g.ins[n]))
    ensures n in g1.outs && n in g.outs && Distinct(g1.outs[n]) && forall e :: e in g1.outs[n] ==> e in g.outs[n] && e < |g.edges| && g.edges[e].callee != n
  {
    assert LessAt(g.outs, g1.outs, Elements(g.ins[n]), n) && NodeOk(g, n);
  }

  lemma Deleted(g: Graph, g1: Graph, g': Graph, n: nat)
    requires Consistent(g) && n in g.nodes && n in g.ins && g1.nodes == g.nodes && g1.edges == g.edges && g1.ins == g.ins[n := []]
    requires AllLess(g.nodes, g.outs, g1.outs, Elements(g.ins[n])) && n in g1.outs
    requires g'.nodes == g.nodes - {n} && g'.edges == g.edges && g'.outs == g1.outs[n := []] && AllLess(g.nodes, g1.ins, g'.ins, Elements(g1.outs[n]))
    ensures Consistent(g') && forall x :: Has(g', x) <==> Has(g, x) && x.caller != n && x.callee != n
  {
    assert NodeOk(g, n) && LessAt(g.outs, g1.outs, Elements(g.ins[n]), n);
    forall m | m in g'.nodes
      ensures NodeOk(g, m) && m in g'.outs && m in g'.ins && Distinct(g'.outs[m]) && Distinct(g'.ins[m])
      ensures forall e :: e in g'.outs[m] <==> e in g.outs[m] && g.edges[e].callee != n
      ensures forall e :: e in g'.ins[m] <==> e in g.ins[m] && g.edges[e].caller != n
    {
      assert NodeOk(g, m);
      assert LessAt(g.outs, g1.outs, Elements(g.ins[n]), m) && LessAt(g1.ins, g'.ins, Elements(g1.outs[n]), m);
    }
    forall m | m in g'.nodes ensures NodeOk(g', m) {
      assert NodeOk(g, m);
    }
    forall x ensures Has(g', x) <==> Has(g, x) && x.caller != n && x.callee != n {
      if x.caller in g'.nodes { assert NodeOk(g, x.caller); }
    }
  }

  // ----- path search -----

  /** p is a list of edges that leads from start to m. */
  ghost predicate IsPath(g: Graph, start: nat, p: seq<nat>, m: nat) {
    if p == [] then m == start else
      var e := p[|p| - 1];
      && e < |g.edges| && g.edges[e].callee == m && Lists(g.outs, g.edges[e].caller, e)
      && IsPath(g, start, p[..|p| - 1], g.edges[e].caller)
  }

  ghost predicate Calls(g: Graph, start: nat, m: nat) {
    exists p :: IsPath(g, start, p, m)
  }

  datatype PathResult = Found(path: seq<nat>) | NotFound

  /** All edges from m lead to seen nodes. */
  ghost predicate Explored(g: Graph, seen: set<nat>, m: nat) {
    m in g.outs && forall e :: e in g.outs[m] && e < |g.edges| ==> g.edges[e].callee in seen
  }

  lemma {:induction false} ClosedUnderCalls(g: Graph, seen: set<nat>, start: nat, p: seq<nat>, m: nat)
    requires start in seen && (forall x :: x in seen ==> Explored(g, seen, x)) && IsPath(g, start, p, m)
    ensures m in seen
  {
    if p != [] {
      var e := p[|p| - 1];
      ClosedUnderCalls(g, seen, start, p[..|p| - 1], g.edges[e].caller);
      assert Explored(g, seen, g.edges[e].caller);
    }
  }

  class PathSearcher {
    const g: Graph
    const ends: set<nat>
    const start: nat
    var seen: set<nat>
    var stack: seq<nat>

    constructor (g: Graph, ends: set<nat>, start: nat)
      ensures this.g == g && this.ends == ends && this.start == start && seen == {} && stack == []
    {
      this.g, this.ends, this.start, seen, stack := g, ends, start, {}, [];
    }

    /** The nodes seen since before are no ends and lead to seen nodes only. */
    ghost predicate Exhausted(before: set<nat>)
      reads this
    {
      before <= seen <= g.nodes && forall m :: m in seen && m !in before ==> m !in ends && Explored(g, seen, m)
    }

    method Search(n: nat) returns (r: PathResult)
      requires Consistent(g) && n in g.nodes && seen <= g.nodes && IsPath(g, start, stack, n)
      modifies this`seen, this`stack
      ensures match r
        case Found(p) => exists m :: m in ends && IsPath(g, start, p, m)
        case NotFound => stack == old(stack) && n in seen && Exhausted(old(seen))
      decreases g.nodes - seen
    {
      if n !in seen {
        seen := seen + {n};
        if n in ends { return Found(stack); }
        assert NodeOk(g, n);
        var out := g.outs[n];
        InBounds(out, |g.edges|);
        for k := 0 to |out|
          invariant stack == old(stack) && n in seen && old(seen) <= seen <= g.nodes
          invariant forall m :: m in seen && m !in old(seen) && m != n ==> m !in ends && Explored(g, seen, m)
          invariant forall j :: 0 <= j < k ==> g.edges[out[j]].callee in seen
        {
          var e := out[k];
          assert e in g.outs[n];
          stack := stack + [e];
          assert stack[..|stack| - 1] == old(stack);
          ghost var before := seen;
          var found := Search(g.edges[e].callee);
          if found.Found? { return found; }
          stack := stack[..|stack| - 1];
          forall m | m in seen && m !in old(seen) && m != n ensures m !in ends && Explored(g, seen, m) {
            assert m in before ==> Explored(g, before, m);
          }
        }
        assert Explored(g, seen, n) by {
          forall e | e in g.outs[n] ensures g.edges[e].callee in seen {
            var j :| 0 <= j < |out| && out[j] == e;
          }
        }
      }
      return NotFound;
    }
  }

  /** PathSearch finds a path to an end exactly when there is one. */
  method PathSearch(g: Graph, start: nat, ends: set<nat>) returns (r: PathResult)
    requires Consistent(g) && start in g.nodes
    ensures r.Found? <==> exists m :: m in ends && Calls(g, start, m)
    ensures r.Found? ==> exists m :: m in ends && IsPath(g, start, r.path, m)
  {
    var searcher := new PathSearcher(g, ends, start);
    r := searcher.Search(start);
    if r.NotFound? {
      forall m | m in ends ensures !Calls(g, start, m) {
        forall p ensures !IsPath(g, start, p, m) {
          if IsPath(g, start, p, m) {
            ClosedUnderCalls(g, searcher.seen, start, p, m);
          }
        }
      }
    } else {
      ghost var m :| m in ends && IsPath(g, start, r.path, m);
      assert Calls(g, start, m);
    }
  }
}
