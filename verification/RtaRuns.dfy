/** What rapid type analysis finds, in terms of executions: a call edge is reported exactly if some
    execution makes the call. Executions know no data flow: a dynamic call may use any function value
    of its signature made so far, an invoke any type made so far that implements its interface. */
module RtaRuns {
  import opened Flowgraphs
  import opened Rta

  /** Function f carries out action i of its body; callee tells which function a call enters. */
  datatype Act = Act(f: nat, i: nat, callee: nat)

  ghost predicate Does(p: Program, e: Act, a: Action) {
    e.f < |p.body| && e.i < |p.body[e.f]| && p.body[e.f][e.i] == a
  }

  /** e is a call from site to g. */
  ghost predicate CallFrom(p: Program, e: Act, site: nat, g: nat) {
    && e.f < |p.body| && e.i < |p.body[e.f]| && e.callee == g
    && match p.body[e.f][e.i]
       case StaticCall(s, _) => s == site
       case DynCall(s, _) => s == site
       case Invoke(s, _, _) => s == site
       case _ => false
  }

  /** The type t is a part, of a part, ... of a type that has been made an interface value. */
  ghost predicate Made(p: Program, run: seq<Act>, t: nat) {
    exists q: seq<nat> :: MadeBy(p, run, q) && q[|q| - 1] == t
  }

  ghost predicate MadeBy(p: Program, run: seq<Act>, q: seq<nat>) {
    && |q| > 0 && (exists k :: 0 <= k < |run| && Does(p, run[k], MakeInterface(q[0])))
    && forall j :: 0 < j < |q| ==> IsPart(p, q, j)
  }

  ghost predicate IsPart(p: Program, q: seq<nat>, j: nat) {
    0 < j < |q| && q[j - 1] < |p.parts| && q[j] in p.parts[q[j - 1]]
  }

  /** A function value for g has been made. */
  ghost predicate Valued(p: Program, run: seq<Act>, g: nat) {
    exists k :: 0 <= k < |run| && Does(p, run[k], AddrTaken(g))
  }

  /** f has been called, or is an exported method of a type that has been made: reflection may call it. */
  ghost predicate Entered(p: Program, run: seq<Act>, f: nat) {
    || (exists k, site :: 0 <= k < |run| && CallFrom(p, run[k], site, f))
    || (exists t :: Exports(p, t, f) && Made(p, run, t))
  }

  ghost predicate Exports(p: Program, t: nat, f: nat) {
    t < |p.exported| && t < |p.isInterface| && !p.isInterface[t] && f in p.exported[t]
  }

  ghost predicate CanDo(p: Program, run: seq<Act>, e: Act)
    requires e.f < |p.body| && e.i < |p.body[e.f]|
  {
    match p.body[e.f][e.i]
    case StaticCall(_, g) => e.callee == g
    case DynCall(_, s) => e.callee < |p.sig| && p.sig[e.callee] == s && Valued(p, run, e.callee)
    case Invoke(_, i, m) => exists c :: Dispatches(p, c, i, m, e.callee) && Made(p, run, c)
    case MakeInterface(_) => true
    case AddrTaken(_) => true
  }

  ghost predicate Dispatches(p: Program, c: nat, i: nat, m: nat, g: nat) {
    c < |p.isInterface| && !p.isInterface[c] && (c, i) in p.implements && p.dispatch(c, m) == g
  }

  /** e can come after run: its function is a root or has been entered, and its callee is possible. */
  ghost predicate CanFollow(p: Program, roots: set<nat>, run: seq<Act>, e: Act) {
    e.f < |p.body| && e.i < |p.body[e.f]| && (e.f in roots || Entered(p, run, e.f)) && CanDo(p, run, e)
  }

  ghost predicate Execution(p: Program, roots: set<nat>, run: seq<Act>) {
    forall k :: 0 <= k < |run| ==> CanFollow(p, roots, run[..k], run[k])
  }

  // ----- putting executions together -----

  /** What has happened in a part of a run has happened in the run. */
  lemma HappenedAlso(p: Program, a: seq<Act>, b: seq<Act>)
    requires forall k :: 0 <= k < |a| ==> a[k] in b
    ensures forall t :: Made(p, a, t) ==> Made(p, b, t)
    ensures forall g :: Valued(p, a, g) ==> Valued(p, b, g)
    ensures forall f :: Entered(p, a, f) ==> Entered(p, b, f)
  {
    forall t | Made(p, a, t) ensures Made(p, b, t) {
      var q: seq<nat> :| MadeBy(p, a, q) && q[|q| - 1] == t;
      var k :| 0 <= k < |a| && Does(p, a[k], MakeInterface(q[0]));
      assert a[k] in b;
      assert MadeBy(p, b, q);
    }
    forall g | Valued(p, a, g) ensures Valued(p, b, g) {
      var k :| 0 <= k < |a| && Does(p, a[k], AddrTaken(g));
      assert a[k] in b;
    }
    forall f | Entered(p, a, f) ensures Entered(p, b, f) {
      if k: nat, site: nat :| 0 <= k < |a| && CallFrom(p, a[k], site, f) {
        assert a[k] in b;
        var m :| 0 <= m < |b| && b[m] == a[k];
        assert CallFrom(p, b[m], site, f);
      } else {
        var t: nat :| Exports(p, t, f) && Made(p, a, t);
      }
    }
  }

  lemma CanFollowAlso(p: Program, roots: set<nat>, a: seq<Act>, b: seq<Act>, e: Act)
    requires (forall k :: 0 <= k < |a| ==> a[k] in b) && CanFollow(p, roots, a, e)
    ensures CanFollow(p, roots, b, e)
  {
    HappenedAlso(p, a, b);
  }

  /** One execution after another is an execution. */
  lemma Together(p: Program, roots: set<nat>, a: seq<Act>, b: seq<Act>)
    requires Execution(p, roots, a) && Execution(p, roots, b)
    ensures Execution(p, roots, a + b)
  {
    var c := a + b;
    forall k | 0 <= k < |c| ensures CanFollow(p, roots, c[..k], c[k]) {
      if k < |a| {
        assert c[..k] == a[..k];
      } else {
        assert c[..k] == a + b[..k - |a|];
        CanFollowAlso(p, roots, b[..k - |a|], c[..k], b[k - |a|]);
      }
    }
  }

  lemma OneMore(p: Program, roots: set<nat>, a: seq<Act>, e: Act)
    requires Execution(p, roots, a) && CanFollow(p, roots, a, e)
    ensures Execution(p, roots, a + [e])
  {
    var c := a + [e];
    forall k | 0 <= k < |c| ensures CanFollow(p, roots, c[..k], c[k]) {
      assert c[..k] == if k < |a| then a[..k] else a;
    }
  }

  // ----- everything that happens is found -----

  /** The facts hold what has happened in the run. */
  ghost predicate Covered(p: Program, F: Facts, run: seq<Act>) {
    && (forall k, site, g :: 0 <= k < |run| && CallFrom(p, run[k], site, g) ==> Linked(F, site, g))
    && (forall t :: Made(p, run, t) ==> t in F.types)
    && (forall g :: Valued(p, run, g) ==> g in F.addr)
  }

  lemma {:induction false} PartsFound(p: Program, roots: set<nat>, F: Facts, run: seq<Act>, q: seq<nat>)
    requires Closed(p, roots, F) && MadeBy(p, run, q) && q[0] in F.types
    ensures q[|q| - 1] in F.types
    decreases |q|
  {
    if |q| > 1 {
      var n := |q| - 1;
      var front := q[..n];
      forall j | 0 < j < |front| ensures IsPart(p, front, j) { assert IsPart(p, q, j); }
      PartsFound(p, roots, F, run, front);
      assert IsPart(p, q, n) && TypeOk(p, F, q[n - 1]);
      var k :| 0 <= k < |p.parts[q[n - 1]]| && p.parts[q[n - 1]][k] == q[n];
    }
  }

  lemma EnteredFound(p: Program, roots: set<nat>, F: Facts, run: seq<Act>, f: nat)
    requires Closed(p, roots, F) && Covered(p, F, run) && Entered(p, run, f)
    ensures f in F.reach
  {
    if k: nat, site: nat :| 0 <= k < |run| && CallFrom(p, run[k], site, f) {
      assert Linked(F, site, f);
    } else {
      var t: nat :| Exports(p, t, f) && Made(p, run, t);
      assert TypeOk(p, F, t);
      var k :| 0 <= k < |p.exported[t]| && p.exported[t][k] == f;
    }
  }

  /** One action more. */
  lemma StepFound(p: Program, roots: set<nat>, F: Facts, run: seq<Act>, e: Act)
    requires Valid(p) && Closed(p, roots, F) && Covered(p, F, run) && CanFollow(p, roots, run, e)
    ensures forall site, g :: CallFrom(p, e, site, g) ==> Linked(F, site, g)
    ensures forall t: nat :: Does(p, e, MakeInterface(t)) ==> t in F.types
    ensures forall g: nat :: Does(p, e, AddrTaken(g)) ==> g in F.addr
  {
    if e.f !in roots { EnteredFound(p, roots, F, run, e.f); }
    assert BodyOk(p, F, e.f) && ActionOk(F, p.body[e.f][e.i]);
    match p.body[e.f][e.i]
    case StaticCall(site, g) => assert Linked(F, site, g);
    case DynCall(site, s) => assert DynOk(p, F) && e.callee in F.addr; assert Linked(F, site, e.callee);
    case Invoke(site, i, m) =>
      var c :| Dispatches(p, c, i, m, e.callee) && Made(p, run, c);
      assert c in Concrete(p, F.types) && (site, i, m) in F.inv && (c, i) in p.implements;
      assert Linked(F, site, p.dispatch(c, m));
    case MakeInterface(_) =>
    case AddrTaken(_) =>
  }

  lemma {:induction false} AllFound(p: Program, roots: set<nat>, F: Facts, run: seq<Act>)
    requires Valid(p) && Closed(p, roots, F) && Execution(p, roots, run)
    ensures Covered(p, F, run)
    decreases |run|
  {
    if run != [] {
      var n := |run| - 1;
      var front, e := run[..n], run[n];
      assert run == front + [e];
      forall k | 0 <= k < n ensures CanFollow(p, roots, front[..k], front[k]) { assert front[..k] == run[..k]; }
      AllFound(p, roots, F, front);
      assert CanFollow(p, roots, run[..n], run[n]);
      StepFound(p, roots, F, front, e);
      forall k, site, g | 0 <= k < |run| && CallFrom(p, run[k], site, g) ensures Linked(F, site, g) {
        assert k < n ==> run[k] == front[k];
      }
      forall t | Made(p, run, t) ensures t in F.types {
        var q: seq<nat> :| MadeBy(p, run, q) && q[|q| - 1] == t;
        var k :| 0 <= k < |run| && Does(p, run[k], MakeInterface(q[0]));
        if k < n {
          assert front[k] == run[k];
          assert MadeBy(p, front, [q[0]]) && [q[0]][|[q[0]]| - 1] == q[0];
          assert Made(p, front, q[0]);
        }
        PartsFound(p, roots, F, run, q);
      }
      forall g | Valued(p, run, g) ensures g in F.addr {
        var k :| 0 <= k < |run| && Does(p, run[k], AddrTaken(g));
        if k < n { assert front[k] == run[k]; }
      }
    }
  }

  // ----- everything that is found happens -----

  ghost predicate MayEnter(p: Program, roots: set<nat>, f: nat) {
    exists run :: Execution(p, roots, run) && Entered(p, run, f)
  }

  /** Some execution makes the call from site to g. */
  ghost predicate MayCall(p: Program, roots: set<nat>, site: nat, g: nat) {
    exists run :: Execution(p, roots, run) && CallsIn(p, run, site, g)
  }

  ghost predicate CallsIn(p: Program, run: seq<Act>, site: nat, g: nat) {
    exists k :: 0 <= k < |run| && CallFrom(p, run[k], site, g)
  }

  ghost predicate MayMake(p: Program, roots: set<nat>, t: nat) {
    exists run :: Execution(p, roots, run) && Made(p, run, t)
  }

  ghost predicate MayValue(p: Program, roots: set<nat>, g: nat) {
    exists run :: Execution(p, roots, run) && Valued(p, run, g)
  }

  /** Some execution comes to a function whose body has the action a. */
  ghost predicate MayMeet(p: Program, roots: set<nat>, a: Action) {
    exists run, e :: Execution(p, roots, run) && Does(p, e, a) && (e.f in roots || Entered(p, run, e.f))
  }

  /** The facts of F that some execution bears out. */
  ghost function Real(p: Program, roots: set<nat>, F: Facts): (G: Facts)
    ensures Within(G, F)
    ensures forall f :: f in G.reach <==> f in F.reach && MayEnter(p, roots, f)
    ensures forall e :: e in G.edges <==> e in F.edges && MayCall(p, roots, e.0, e.1)
    ensures forall t :: t in G.types <==> t in F.types && MayMake(p, roots, t)
    ensures forall g :: g in G.addr <==> g in F.addr && MayValue(p, roots, g)
    ensures forall d :: d in G.dyn <==> d in F.dyn && MayMeet(p, roots, DynCall(d.0, d.1))
    ensures forall v :: v in G.inv <==> v in F.inv && MayMeet(p, roots, Invoke(v.0, v.1, v.2))
  {
    Facts(set f | f in F.reach && MayEnter(p, roots, f), set e | e in F.edges && MayCall(p, roots, e.0, e.1),
          set t | t in F.types && MayMake(p, roots, t), set g | g in F.addr && MayValue(p, roots, g),
          set d | d in F.dyn && MayMeet(p, roots, DynCall(d.0, d.1)), set v | v in F.inv && MayMeet(p, roots, Invoke(v.0, v.1, v.2)))
  }

  /** An action that can follow an execution happens in a longer one. */
  lemma ItHappens(p: Program, roots: set<nat>, run: seq<Act>, e: Act)
    requires Execution(p, roots, run) && CanFollow(p, roots, run, e)
    ensures forall site, g :: CallFrom(p, e, site, g) ==> MayCall(p, roots, site, g) && MayEnter(p, roots, g)
    ensures forall t: nat :: Does(p, e, MakeInterface(t)) ==> MayMake(p, roots, t)
    ensures forall g: nat :: Does(p, e, AddrTaken(g)) ==> MayValue(p, roots, g)
  {
    var longer := run + [e];
    OneMore(p, roots, run, e);
    assert longer[|run|] == e;
    forall site, g | CallFrom(p, e, site, g) ensures MayCall(p, roots, site, g) && MayEnter(p, roots, g) {
      assert CallFrom(p, longer[|run|], site, g);
      assert CallsIn(p, longer, site, g) && Entered(p, longer, g);
    }
    forall t: nat | Does(p, e, MakeInterface(t)) ensures MayMake(p, roots, t) {
      var q := [t];
      assert MadeBy(p, longer, q) && q[|q| - 1] == t;
      assert Made(p, longer, t);
    }
    forall g: nat | Does(p, e, AddrTaken(g)) ensures MayValue(p, roots, g) {
      assert Valued(p, longer, g);
    }
  }

  /** The real facts are closed under the rule for bodies. */
  lemma RealBody(p: Program, roots: set<nat>, F: Facts, f: nat)
    requires Closed(p, roots, F) && (f in roots || f in Real(p, roots, F).reach)
    ensures BodyOk(p, Real(p, roots, F), f)
  {
    var G := Real(p, roots, F);
    assert BodyOk(p, F, f);
    var run: seq<Act> := [];
    if f !in roots { run :| Execution(p, roots, run) && Entered(p, run, f); }
    assert Execution(p, roots, run) && (f in roots || Entered(p, run, f));
    forall i | 0 <= i < |p.body[f]| ensures ActionOk(G, p.body[f][i]) {
      var a := p.body[f][i];
      var e := Act(f, i, if a.StaticCall? then a.callee else 0);
      assert ActionOk(F, a) && Does(p, e, a);
      if a.StaticCall? || a.MakeInterface? || a.AddrTaken? {
        ItHappens(p, roots, run, e);
        assert a.StaticCall? ==> CallFrom(p, e, a.site, a.callee);
      } else {
        assert Does(p, e, a) && (e.f in roots || Entered(p, run, e.f));
        assert MayMeet(p, roots, a);
      }
    }
  }

  lemma RealDyn(p: Program, roots: set<nat>, F: Facts, site: nat, g: nat)
    requires Closed(p, roots, F) && g in Real(p, roots, F).addr && g < |p.sig| && (site, p.sig[g]) in Real(p, roots, F).dyn
    ensures Linked(Real(p, roots, F), site, g)
  {
    assert DynOk(p, F) && Linked(F, site, g);
    var a: seq<Act> :| Execution(p, roots, a) && Valued(p, a, g);
    var b: seq<Act>, e: Act :| Execution(p, roots, b) && Does(p, e, DynCall(site, p.sig[g])) && (e.f in roots || Entered(p, b, e.f));
    var run, call := a + b, Act(e.f, e.i, g);
    Together(p, roots, a, b);
    HappenedAlso(p, a, run);
    HappenedAlso(p, b, run);
    ItHappens(p, roots, run, call);
    assert CallFrom(p, call, site, g);
  }

  lemma RealInvoke(p: Program, roots: set<nat>, F: Facts, site: nat, i: nat, m: nat, c: nat)
    requires Closed(p, roots, F) && (site, i, m) in Real(p, roots, F).inv && c in Concrete(p, Real(p, roots, F).types) && (c, i) in p.implements
    ensures Linked(Real(p, roots, F), site, p.dispatch(c, m))
  {
    var g := p.dispatch(c, m);
    assert c in Concrete(p, F.types) && (site, i, m) in F.inv && Linked(F, site, g);
    var a: seq<Act> :| Execution(p, roots, a) && Made(p, a, c);
    var b: seq<Act>, e: Act :| Execution(p, roots, b) && Does(p, e, Invoke(site, i, m)) && (e.f in roots || Entered(p, b, e.f));
    var run, call := a + b, Act(e.f, e.i, g);
    Together(p, roots, a, b);
    HappenedAlso(p, a, run);
    HappenedAlso(p, b, run);
    assert Dispatches(p, c, i, m, g);
    ItHappens(p, roots, run, call);
    assert CallFrom(p, call, site, g);
  }

  lemma RealType(p: Program, roots: set<nat>, F: Facts, t: nat)
    requires Closed(p, roots, F) && t in Real(p, roots, F).types
    ensures TypeOk(p, Real(p, roots, F), t)
  {
    var G := Real(p, roots, F);
    assert TypeOk(p, F, t);
    var run: seq<Act> :| Execution(p, roots, run) && Made(p, run, t);
    if !p.isInterface[t] {
      forall k | 0 <= k < |p.exported[t]| ensures p.exported[t][k] in G.reach {
        assert Exports(p, t, p.exported[t][k]) && Entered(p, run, p.exported[t][k]);
      }
    }
    var q: seq<nat> :| MadeBy(p, run, q) && q[|q| - 1] == t;
    forall k | 0 <= k < |p.parts[t]| ensures p.parts[t][k] in G.types {
      var longer := q + [p.parts[t][k]];
      forall j | 0 < j < |longer| ensures IsPart(p, longer, j) {
        if j < |q| { assert IsPart(p, q, j); }
      }
      assert MadeBy(p, run, longer) && longer[|longer| - 1] == p.parts[t][k];
      assert Made(p, run, p.parts[t][k]);
    }
  }

  /** The real facts are closed under all rules, so they are all there are in the least closed facts. */
  lemma AllReal(p: Program, roots: set<nat>, F: Facts)
    requires Closed(p, roots, F) && forall G :: Closed(p, roots, G) ==> Within(F, G)
    ensures Within(F, Real(p, roots, F))
  {
    var G := Real(p, roots, F);
    forall f | f in roots || f in G.reach ensures BodyOk(p, G, f) { RealBody(p, roots, F, f); }
    forall site, g | g in G.addr && g < |p.sig| && (site, p.sig[g]) in G.dyn ensures Linked(G, site, g) { RealDyn(p, roots, F, site, g); }
    forall site, i, m, c | (site, i, m) in G.inv && c in Concrete(p, G.types) && (c, i) in p.implements
      ensures Linked(G, site, p.dispatch(c, m))
    {
      RealInvoke(p, roots, F, site, i, m, c);
    }
    forall t | t in G.types ensures TypeOk(p, G, t) { RealType(p, roots, F, t); }
    assert Closed(p, roots, G);
  }

  /** Analyze reports a call edge exactly if some execution makes the call, a function exactly if some
      execution enters it, and a runtime type exactly if some execution makes it. */
  method AnalyzeRuns(p: Program, roots: seq<nat>) returns (reachable: set<nat>, edges: set<(nat, nat)>, types: set<nat>)
    requires Valid(p) && AllBelow(roots, |p.body|)
    ensures forall site: nat, g: nat :: (site, g) in edges <==> MayCall(p, Elements(roots), site, g)
    ensures forall f: nat :: f in reachable <==> MayEnter(p, Elements(roots), f)
    ensures forall t: nat :: t in types <==> MayMake(p, Elements(roots), t)
  {
    ghost var F, R := *, Elements(roots);
    reachable, edges, types, F := Analyze(p, roots);
    AllReal(p, R, F);
    forall site: nat, g: nat | MayCall(p, R, site, g) ensures (site, g) in edges {
      var run: seq<Act> :| Execution(p, R, run) && CallsIn(p, run, site, g);
      AllFound(p, R, F, run);
      var k: nat :| k < |run| && CallFrom(p, run[k], site, g);
      assert Linked(F, site, g);
    }
    forall f: nat | MayEnter(p, R, f) ensures f in reachable {
      var run: seq<Act> :| Execution(p, R, run) && Entered(p, run, f);
      AllFound(p, R, F, run);
      EnteredFound(p, R, F, run, f);
    }
    forall t: nat | MayMake(p, R, t) ensures t in types {
      var run: seq<Act> :| Execution(p, R, run) && Made(p, run, t);
      AllFound(p, R, F, run);
    }
  }
}
