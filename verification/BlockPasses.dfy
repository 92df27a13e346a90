/** What the block optimizations do to a graph: striking out an edge from an unreachable block,
    fusing two blocks, threading a jump. Each keeps what runs show and keeps the graph well formed. */
module BlockPasses {
  import opened Flowgraphs
  import opened Cfgs

  // ----- removing a predecessor -----

  /** The elements of ps other than p. */
  function Without(ps: seq<nat>, p: nat): (r: seq<nat>)
    ensures forall x :: x in r <==> x in ps && x != p
    ensures |r| <= |ps|
  {
    if ps == [] then [] else
    var n := |ps| - 1;
    assert ps == ps[..n] + [ps[n]];
    if ps[n] == p then Without(ps[..n], p) else Without(ps[..n], p) + [ps[n]]
  }

  /** The operands at the places of ps that do not hold p. */
  function Strike(ps: seq<nat>, es: seq<nat>, p: nat): (r: seq<nat>)
    requires |ps| == |es|
    ensures |r| == |Without(ps, p)|
  {
    if ps == [] then [] else
    var n := |ps| - 1;
    if ps[n] == p then Strike(ps[..n], es[..n], p) else Strike(ps[..n], es[..n], p) + [es[n]]
  }

  function StrikeInstr(i: Instr, ps: seq<nat>, p: nat): (r: Instr) {
    if i.Phi? && |i.edges| == |ps| then Phi(i.id, Strike(ps, i.edges, p)) else i
  }

  function StrikeCode(code: seq<Instr>, ps: seq<nat>, p: nat): (r: seq<Instr>)
    ensures |r| == |code|
  {
    seq(|code|, i requires 0 <= i < |code| => StrikeInstr(code[i], ps, p))
  }

  function PredRemoved(g: Cfg, c: nat, p: nat): (g': Cfg)
    requires c < |g.instrs| && c < |g.preds|
  {
    Cfg(g.instrs[c := StrikeCode(g.instrs[c], g.preds[c], p)], g.preds[c := Without(g.preds[c], p)], g.succs)
  }

  lemma {:induction false} WithoutDistinct(ps: seq<nat>, p: nat)
    requires Distinct(ps)
    ensures Distinct(Without(ps, p))
  {
    if ps != [] {
      var n := |ps| - 1;
      WithoutDistinct(ps[..n], p);
      var w := Without(ps[..n], p);
      forall i | 0 <= i < |w| ensures w[i] != ps[n] {
        assert w[i] in ps[..n];
      }
    }
  }

  /** A phi that is entered from elsewhere makes the same choice. */
  lemma {:induction false} StrikeKeepsChoice(id: nat, ps: seq<nat>, es: seq<nat>, p: nat, x: nat)
    requires |ps| == |es| && x != p
    ensures Choice(id, Without(ps, p), Strike(ps, es, p), x) == Choice(id, ps, es, x)
  {
    if ps != [] {
      var n := |ps| - 1;
      StrikeKeepsChoice(id, ps[..n], es[..n], p, x);
      if ps[n] != p {
        var w, s := Without(ps[..n], p), Strike(ps[..n], es[..n], p);
        assert (w + [ps[n]])[..|w|] == w && (s + [es[n]])[..|s|] == s;
      }
    }
  }

  /** Runs stay within S, so they never come from p. */
  ghost predicate Within(S: set<nat>, s: State, t: State) {
    s == t && s.b in S && s.prev in S
  }

  lemma PredRemovedStep(g: Cfg, c: nat, p: nat, br: Branches, live: set<nat>, roots: set<nat>, S: set<nat>, s: State)
    requires c < |g.instrs| == |g.preds| == |g.succs| && Shaped(g, c)
    requires Closed(g, live, roots, S) && S <= live && p !in S && s.b in S && s.prev in S
    ensures var s' := Step(g, br, s); s' == Step(PredRemoved(g, c, p), br, s) && s'.b in S && s'.prev in S
  {
    var g' := PredRemoved(g, c, p);
    if s.b == c && s.pc < |g.instrs[c]| && g.instrs[c][s.pc].Phi? {
      var i := g.instrs[c][s.pc];
      assert g'.instrs[c][s.pc] == Phi(i.id, Strike(g.preds[c], i.edges, p));
      StrikeKeepsChoice(i.id, g.preds[c], i.edges, p, s.prev);
    }
  }

  /** Striking out an edge from a block that no run reaches changes no run. */
  lemma PredRemovedShows(g: Cfg, c: nat, p: nat, live: set<nat>, roots: set<nat>, S: set<nat>)
    requires c < |g.instrs| == |g.preds| == |g.succs| && Shaped(g, c)
    requires Closed(g, live, roots, S) && S <= live && p !in S
    ensures SameHistories(g, PredRemoved(g, c, p), roots)
  {
    var g' := PredRemoved(g, c, p);
    forall root, br: Branches, h | root in roots ensures Shows(g, br, root, h) <==> Shows(g', br, root, h) {
      var R := (s: State, t: State) => Within(S, s, t);
      forall s, t | R(s, t) ensures Matched(g, g', br, R, s, t) {
        PredRemovedStep(g, c, p, br, live, roots, S, s);
      }
      BisimilarShows(g, g', br, R, root, h);
    }
  }

  lemma PredRemovedShaped(g: Cfg, c: nat, p: nat)
    requires c < |g.instrs| == |g.preds| == |g.succs| && Shaped(g, c)
    ensures Shaped(PredRemoved(g, c, p), c)
  {
  }

  // ----- fusing two blocks -----

  function Replaced(s: seq<nat>, p: nat, q: nat): (r: seq<nat>)
    ensures |r| == |s| && forall i :: 0 <= i < |s| ==> r[i] == if s[i] == p then q else s[i]
  {
    seq(|s|, i requires 0 <= i < |s| => if s[i] == p then q else s[i])
  }

  predicate HasPhi(g: Cfg, b: nat)
    requires b < |g.instrs|
  {
    |g.instrs[b]| > 0 && g.instrs[b][0].Phi?
  }

  /** a leads only to b, which only a leads to and which has no phis. */
  predicate CanFuse(g: Cfg, a: nat, b: nat)
    requires |g.instrs| == |g.preds| == |g.succs|
  {
    a < |g.succs| && b < |g.preds| && g.succs[a] == [b] && |g.preds[b]| == 1 && !HasPhi(g, b)
  }

  function Fused(g: Cfg, a: nat, b: nat): (g': Cfg)
    requires a < |g.instrs| == |g.preds| == |g.succs| && b < |g.instrs| && |g.instrs[a]| > 0
  {
    Cfg(g.instrs[a := g.instrs[a][..|g.instrs[a]| - 1] + g.instrs[b]],
        seq(|g.preds|, x requires 0 <= x < |g.preds| => if x in g.succs[b] then Replaced(g.preds[x], b, a) else g.preds[x]),
        g.succs[a := g.succs[b]])
  }

  /** What fusing is applied to. */
  ghost predicate Fusing(g: Cfg, live: set<nat>, roots: set<nat>, entry: nat, a: nat, b: nat) {
    && WellFormed(g, live, roots, entry) && AllReached(g, live, roots)
    && a in live && CanFuse(g, a, b)
  }

  lemma FusingFacts(g: Cfg, live: set<nat>, roots: set<nat>, entry: nat, a: nat, b: nat)
    requires Fusing(g, live, roots, entry, a, b)
    ensures a != b && b in live && b !in roots && g.preds[b] == [a] && Shaped(g, a) && Shaped(g, b)
    ensures g.instrs[a][|g.instrs[a]| - 1].Jump?
    ensures forall u :: u in live && u != b ==> a !in g.preds[u]
    ensures forall u :: u in live && u != a ==> b !in g.succs[u]
    ensures b !in g.succs[b]
  {
    assert Dual(g, live, a) && b in g.succs[a];
    assert Dual(g, live, b) && a in g.preds[b];
    ReachedHasPred(g, live, roots, entry, b);
    if a !in roots { ReachedHasPred(g, live, roots, entry, a); }
    assert Shaped(g, a) && Shaped(g, b);
    forall u | u in live && u != b ensures a !in g.preds[u] {
      assert Dual(g, live, u);
    }
    forall u | u in live && u != a ensures b !in g.succs[u] {
      assert Dual(g, live, u);
    }
  }

  /** How a state of the fused graph stands for one of the graph before. */
  ghost predicate FuseRel(g: Cfg, live: set<nat>, a: nat, b: nat, s: State, t: State)
    requires a < |g.instrs| == |g.preds| == |g.succs|
  {
    && s.hist == t.hist && s.b in live && s.b < |g.instrs| && s.pc <= |g.instrs[s.b]|
    && (s.b == b ==> t.b == a && t.pc == |g.instrs[a]| - 1 + s.pc)
    && (s.b != b ==> t.b == s.b && t.pc == s.pc)
    && (s.b == a ==> s.pc < |g.instrs[a]|)
    && (s.pc < |g.instrs[s.b]| && g.instrs[s.b][s.pc].Phi? ==>
        (s.prev in g.preds[s.b] || g.preds[s.b] == []) && t.prev == if s.prev == b then a else s.prev)
  }

  lemma {:induction false} ReplacedChoice(id: nat, ps: seq<nat>, es: seq<nat>, b: nat, a: nat, x: nat)
    requires |ps| == |es| && a !in ps && x != a
    ensures Choice(id, Replaced(ps, b, a), es, if x == b then a else x) == Choice(id, ps, es, x)
  {
    if ps != [] {
      var n := |ps| - 1;
      assert forall y :: y in ps[..n] ==> y in ps;
      ReplacedChoice(id, ps[..n], es[..n], b, a, x);
      assert Replaced(ps, b, a)[..n] == Replaced(ps[..n], b, a);
      assert ps[n] in ps;
    }
  }

  /** Every predecessor list of the fused graph is the old one with a in the place of b. */
  lemma FusedPreds(g: Cfg, live: set<nat>, roots: set<nat>, entry: nat, a: nat, b: nat, u: nat)
    requires Fusing(g, live, roots, entry, a, b) && u in live && u != b && |g.instrs[a]| > 0
    ensures Fused(g, a, b).preds[u] == Replaced(g.preds[u], b, a)
  {
    FusingFacts(g, live, roots, entry, a, b);
    assert Dual(g, live, u) && Dual(g, live, b);
    if u !in g.succs[b] {
      assert b !in g.preds[u];
      assert Replaced(g.preds[u], b, a) == g.preds[u];
    }
  }

  /** A phi chooses the same operand in both graphs. */
  lemma FuseKeepsChoice(g: Cfg, live: set<nat>, roots: set<nat>, entry: nat, a: nat, b: nat, s: State, t: State)
    requires Fusing(g, live, roots, entry, a, b) && FuseRel(g, live, a, b, s, t)
    requires s.pc < |g.instrs[s.b]| && g.instrs[s.b][s.pc].Phi? && s.b != b && |g.instrs[a]| > 0
    requires |g.instrs[s.b][s.pc].edges| == |g.preds[s.b]|
    ensures var i := g.instrs[s.b][s.pc]; var ps := Fused(g, a, b).preds[s.b];
      |ps| == |i.edges| && Choice(i.id, ps, i.edges, t.prev) == Choice(i.id, g.preds[s.b], i.edges, s.prev)
  {
    FusingFacts(g, live, roots, entry, a, b);
    FusedPreds(g, live, roots, entry, a, b, s.b);
    if g.preds[s.b] != [] {
      ReplacedChoice(g.instrs[s.b][s.pc].id, g.preds[s.b], g.instrs[s.b][s.pc].edges, b, a, s.prev);
    }
  }

  lemma FuseStepStays(g: Cfg, live: set<nat>, roots: set<nat>, entry: nat, a: nat, b: nat, br: Branches, s: State, t: State)
    requires Fusing(g, live, roots, entry, a, b) && FuseRel(g, live, a, b, s, t) && |g.instrs[a]| > 0
    requires s.pc < |g.instrs[s.b]| ==> !IsControl(g.instrs[s.b][s.pc])
    ensures FuseRel(g, live, a, b, Step(g, br, s), Step(Fused(g, a, b), br, t))
  {
    FusingFacts(g, live, roots, entry, a, b);
    LiveShaped(g, live, roots, entry, s.b);
    if s.pc < |g.instrs[s.b]| && g.instrs[s.b][s.pc].Phi? {
      FuseKeepsChoice(g, live, roots, entry, a, b, s, t);
    }
  }

  lemma LiveShaped(g: Cfg, live: set<nat>, roots: set<nat>, entry: nat, u: nat)
    requires WellFormed(g, live, roots, entry) && AllReached(g, live, roots) && u in live
    ensures Shaped(g, u)
  {
    if u !in roots { ReachedHasPred(g, live, roots, entry, u); }
  }

  /** A transfer of control, other than the jump that disappears, leads to the same block. */
  lemma FuseStepGoes(g: Cfg, live: set<nat>, roots: set<nat>, entry: nat, a: nat, b: nat, br: Branches, s: State, t: State)
    requires Fusing(g, live, roots, entry, a, b) && FuseRel(g, live, a, b, s, t) && |g.instrs[a]| > 0
    requires s.b != a && s.pc < |g.instrs[s.b]| && IsControl(g.instrs[s.b][s.pc])
    ensures FuseRel(g, live, a, b, Step(g, br, s), Step(Fused(g, a, b), br, t))
  {
    FusingFacts(g, live, roots, entry, a, b);
    LiveShaped(g, live, roots, entry, s.b);
    var k := if g.instrs[s.b][s.pc].If? && !br(s.hist, g.instrs[s.b][s.pc].cond) then 1 else 0;
    assert Dual(g, live, s.b);
    var v := g.succs[s.b][k];
    LiveShaped(g, live, roots, entry, v);
    assert v in g.succs[s.b] && v != b;
    assert s.b in g.preds[v];
  }

  lemma FuseMatched(g: Cfg, live: set<nat>, roots: set<nat>, entry: nat, a: nat, b: nat, br: Branches, R: (State, State) -> bool, s: State, t: State)
    requires Fusing(g, live, roots, entry, a, b) && |g.instrs[a]| > 0
    requires forall s, t :: R(s, t) <==> FuseRel(g, live, a, b, s, t)
    requires R(s, t)
    ensures Matched(g, Fused(g, a, b), br, R, s, t)
  {
    FusingFacts(g, live, roots, entry, a, b);
    if s.b == a && s.pc == |g.instrs[a]| - 1 {
      var s' := Step(g, br, s);
      assert s' == State(b, a, 0, s.hist);
      assert FuseRel(g, live, a, b, s', t);
      FuseMatchedInside(g, live, roots, entry, a, b, br, s', t);
    } else {
      FuseMatchedInside(g, live, roots, entry, a, b, br, s, t);
    }
  }

  lemma FuseMatchedInside(g: Cfg, live: set<nat>, roots: set<nat>, entry: nat, a: nat, b: nat, br: Branches, s: State, t: State)
    requires Fusing(g, live, roots, entry, a, b) && FuseRel(g, live, a, b, s, t) && |g.instrs[a]| > 0
    requires s.b == a ==> s.pc < |g.instrs[a]| - 1
    ensures FuseRel(g, live, a, b, Step(g, br, s), Step(Fused(g, a, b), br, t))
  {
    FusingFacts(g, live, roots, entry, a, b);
    if s.pc < |g.instrs[s.b]| && IsControl(g.instrs[s.b][s.pc]) {
      FuseStepGoes(g, live, roots, entry, a, b, br, s, t);
    } else {
      FuseStepStays(g, live, roots, entry, a, b, br, s, t);
    }
  }

  /** Fusing changes no run. */
  lemma FusedShows(g: Cfg, live: set<nat>, roots: set<nat>, entry: nat, a: nat, b: nat)
    requires Fusing(g, live, roots, entry, a, b) && |g.instrs[a]| > 0
    ensures SameHistories(g, Fused(g, a, b), roots)
  {
    FusingFacts(g, live, roots, entry, a, b);
    forall root, br: Branches, h | root in roots ensures Shows(g, br, root, h) <==> Shows(Fused(g, a, b), br, root, h) {
      var R := (s: State, t: State) => FuseRel(g, live, a, b, s, t);
      forall s, t | R(s, t) ensures Matched(g, Fused(g, a, b), br, R, s, t) {
        FuseMatched(g, live, roots, entry, a, b, br, R, s, t);
      }
      assert Shaped(g, root);
      BisimilarShows(g, Fused(g, a, b), br, R, root, h);
    }
  }

  lemma ReplacedMembers(s: seq<nat>, p: nat, q: nat)
    ensures forall x :: x in Replaced(s, p, q) <==> (x in s && x != p) || (x == q && p in s)
    ensures Distinct(s) && q !in s ==> Distinct(Replaced(s, p, q))
  {
    var r := Replaced(s, p, q);
    forall x ensures x in r <==> (x in s && x != p) || (x == q && p in s) {
      if (x in s && x != p) || (x == q && p in s) {
        var y := if x in s && x != p then x else p;
        var i :| 0 <= i < |s| && s[i] == y;
        assert r[i] == x;
      }
    }
  }

  lemma FusedDual(g: Cfg, live: set<nat>, roots: set<nat>, entry: nat, a: nat, b: nat, u: nat)
    requires Fusing(g, live, roots, entry, a, b) && |g.instrs[a]| > 0 && u in live && u != b
    ensures Dual(Fused(g, a, b), live - {b}, u)
  {
    var g' := Fused(g, a, b);
    FusingFacts(g, live, roots, entry, a, b);
    FusedPreds(g, live, roots, entry, a, b, u);
    ReplacedMembers(g.preds[u], b, a);
    assert Dual(g, live, u) && Dual(g, live, b);
    forall v: nat | v in g'.succs[u] ensures v in live - {b} && v < |g'.preds| && u in g'.preds[v] {
      assert Dual(g, live, v);
      FusedPreds(g, live, roots, entry, a, b, v);
      ReplacedMembers(g.preds[v], b, a);
    }
    forall p: nat | p in g'.preds[u] ensures p in live - {b} && p < |g'.succs| && u in g'.succs[p] {
      assert p != a ==> p in g.preds[u];
    }
  }

  lemma FusedShaped(g: Cfg, live: set<nat>, roots: set<nat>, entry: nat, a: nat, b: nat, u: nat)
    requires Fusing(g, live, roots, entry, a, b) && |g.instrs[a]| > 0 && u in live && u != b
    ensures Shaped(Fused(g, a, b), u)
  {
    var g' := Fused(g, a, b);
    FusingFacts(g, live, roots, entry, a, b);
    LiveShaped(g, live, roots, entry, u);
    FusedPreds(g, live, roots, entry, a, b, u);
    if u == a {
      assert forall i :: 0 <= i < |g.instrs[b]| ==> !g.instrs[b][i].Phi?;
      assert g'.instrs[a][|g'.instrs[a]| - 1] == g.instrs[b][|g.instrs[b]| - 1];
    }
  }

  lemma FusedReached(g: Cfg, live: set<nat>, roots: set<nat>, entry: nat, a: nat, b: nat)
    requires Fusing(g, live, roots, entry, a, b) && |g.instrs[a]| > 0
    ensures AllReached(Fused(g, a, b), live - {b}, roots)
  {
    var g' := Fused(g, a, b);
    FusingFacts(g, live, roots, entry, a, b);
    forall S: set<nat> | Closed(g', live - {b}, roots, S) ensures live - {b} <= S {
      var T := if a in S then S + {b} else S - {b};
      forall u: nat, v: nat | u in T && u in live && u < |g.succs| && v in g.succs[u] ensures v in T {
        assert u != b ==> u in S;
        assert u == b ==> v in g'.succs[a] && v != b;
      }
      assert Closed(g, live, roots, T);
    }
  }

  /** Fusing keeps the graph well formed and every block reached. */
  lemma FusedWellFormed(g: Cfg, live: set<nat>, roots: set<nat>, entry: nat, a: nat, b: nat)
    requires Fusing(g, live, roots, entry, a, b) && |g.instrs[a]| > 0
    ensures WellFormed(Fused(g, a, b), live - {b}, roots, entry) && AllReached(Fused(g, a, b), live - {b}, roots)
  {
    var g' := Fused(g, a, b);
    FusingFacts(g, live, roots, entry, a, b);
    FusedReached(g, live, roots, entry, a, b);
    forall u | u in live - {b} ensures Dual(g', live - {b}, u) && Shaped(g', u) {
      FusedDual(g, live, roots, entry, a, b, u);
      FusedShaped(g, live, roots, entry, a, b, u);
    }
    forall r | r in roots ensures g'.preds[r] == [] && (r != entry ==> g'.succs[r] == []) {
      FusedPreds(g, live, roots, entry, a, b, r);
    }
  }

  // ----- threading a jump -----

  /** b is just a jump to another block c without phis. */
  predicate CanThread(g: Cfg, entry: nat, b: nat, c: nat)
    requires |g.instrs| == |g.preds| == |g.succs|
  {
    && b < |g.instrs| && b != entry && |g.instrs[b]| > 0 && g.instrs[b][0].Jump?
    && |g.succs[b]| > 0 && g.succs[b][0] == c && c != b && c < |g.instrs| && !HasPhi(g, c)
  }

  /** x has had its edge to b led on to c; an If left with one target has become a Jump. */
  ghost predicate Rerouted(g: Cfg, g': Cfg, b: nat, c: nat, x: nat)
    requires x < |g.instrs| == |g.succs| && x < |g'.instrs| && x < |g'.succs|
  {
    if c in g.succs[x] then
      && |g.instrs[x]| > 0 && g'.instrs[x] == g.instrs[x][|g.instrs[x]| - 1 := Jump] && g'.succs[x] == [c]
    else
      g'.instrs[x] == g.instrs[x] && g'.succs[x] == Replaced(g.succs[x], b, c)
  }

  ghost predicate SameSize(g: Cfg, g': Cfg) {
    |g.instrs| == |g.preds| == |g.succs| == |g'.instrs| == |g'.preds| == |g'.succs|
  }

  /** The result of threading through b: its predecessors lead to c instead. */
  ghost predicate Threaded(g: Cfg, g': Cfg, b: nat, c: nat) {
    && SameSize(g, g') && b < |g.instrs| && c < |g.instrs|
    && (forall x {:trigger g'.succs[x]} {:trigger g'.instrs[x]} :: 0 <= x < |g.instrs| ==>
        if x in g.preds[b] then Rerouted(g, g', b, c, x) else g'.instrs[x] == g.instrs[x] && g'.succs[x] == g.succs[x])
    && (forall x :: 0 <= x < |g.instrs| && x != c ==> g'.preds[x] == g.preds[x])
    && Distinct(g'.preds[c])
    && (forall x :: x in g'.preds[c] <==> (x in g.preds[c] && x != b) || x in g.preds[b])
  }

  ghost predicate Threading(g: Cfg, g': Cfg, live: set<nat>, roots: set<nat>, entry: nat, b: nat, c: nat) {
    && WellFormed(g, live, roots, entry) && AllReached(g, live, roots)
    && b in live && CanThread(g, entry, b, c) && Threaded(g, g', b, c)
  }

  lemma ThreadingFacts(g: Cfg, live: set<nat>, roots: set<nat>, entry: nat, b: nat, c: nat)
    requires WellFormed(g, live, roots, entry) && AllReached(g, live, roots) && b in live && CanThread(g, entry, b, c)
    ensures b !in roots && c in live && c !in roots && g.succs[b] == [c] && g.instrs[b] == [Jump] && b !in g.preds[b] && g.preds[b] != []
    ensures Shaped(g, b) && Shaped(g, c) && b in g.preds[c]
    ensures forall u :: u in live && u != c ==> b !in g.preds[u]
    ensures forall u :: u in live ==> (u in g.preds[b] <==> b in g.succs[u])
  {
    assert Dual(g, live, b) && c in g.succs[b] && b !in roots;
    assert Dual(g, live, c);
    ReachedHasPred(g, live, roots, entry, b);
    LiveShaped(g, live, roots, entry, b);
    LiveShaped(g, live, roots, entry, c);
    assert g.succs[b] == [c] && g.instrs[b] == [Jump];
    forall u | u in live ensures (u in g.preds[b] <==> b in g.succs[u]) && (u != c ==> b !in g.preds[u]) {
      assert Dual(g, live, u);
    }
  }

  ghost predicate ThreadRel(g: Cfg, live: set<nat>, b: nat, c: nat, s: State, t: State)
    requires |g.instrs| == |g.preds| == |g.succs|
  {
    && s.hist == t.hist && s.b in live && s.b < |g.instrs| && s.pc <= |g.instrs[s.b]|
    && (s.b == b ==> t.b == c && s.pc == t.pc == 0)
    && (s.b != b ==> t.b == s.b && t.pc == s.pc)
    && (s.b != b && s.b != c ==> t.prev == s.prev)
  }

  /** Both graphs lead to related places. */
  lemma ThreadStepGoes(g: Cfg, g': Cfg, live: set<nat>, roots: set<nat>, entry: nat, b: nat, c: nat, br: Branches, s: State, t: State)
    requires Threading(g, g', live, roots, entry, b, c) && ThreadRel(g, live, b, c, s, t)
    requires s.b != b && s.pc < |g.instrs[s.b]| && IsControl(g.instrs[s.b][s.pc])
    ensures ThreadRel(g, live, b, c, Step(g, br, s), Step(g', br, t))
  {
    ThreadingFacts(g, live, roots, entry, b, c);
    LiveShaped(g, live, roots, entry, s.b);
    assert Dual(g, live, s.b);
    var k := if g.instrs[s.b][s.pc].If? && !br(s.hist, g.instrs[s.b][s.pc].cond) then 1 else 0;
    var v := g.succs[s.b][k];
    assert v in g.succs[s.b] && g'.succs[s.b] == g'.succs[s.b];
    if s.b in g.preds[b] {
      assert Rerouted(g, g', b, c, s.b);
      ThreadedTarget(g.succs[s.b], b, c);
    }
  }

  /** Of two targets, one is b: if c is among them too, it is the other. */
  lemma ThreadedTarget(ss: seq<nat>, b: nat, c: nat)
    requires Distinct(ss) && 1 <= |ss| <= 2 && b in ss && b != c
    ensures c in ss ==> |ss| == 2 && forall x :: x in ss ==> x == b || x == c
  {
    assert ss == [ss[0]] || ss == [ss[0], ss[1]];
  }

  lemma ThreadStepStays(g: Cfg, g': Cfg, live: set<nat>, roots: set<nat>, entry: nat, b: nat, c: nat, br: Branches, s: State, t: State)
    requires Threading(g, g', live, roots, entry, b, c) && ThreadRel(g, live, b, c, s, t)
    requires s.b != b && (s.pc < |g.instrs[s.b]| ==> !IsControl(g.instrs[s.b][s.pc]))
    ensures ThreadRel(g, live, b, c, Step(g, br, s), Step(g', br, t))
  {
    ThreadingFacts(g, live, roots, entry, b, c);
    LiveShaped(g, live, roots, entry, s.b);
    assert g'.instrs[s.b] == g'.instrs[s.b];
    assert s.b == c && s.pc < |g.instrs[c]| ==> !g.instrs[c][s.pc].Phi?;
    assert s.pc < |g.instrs[s.b]| ==> g'.instrs[s.b][s.pc] == g.instrs[s.b][s.pc];
  }

  lemma ThreadMatchedOutside(g: Cfg, g': Cfg, live: set<nat>, roots: set<nat>, entry: nat, b: nat, c: nat, br: Branches, s: State, t: State)
    requires Threading(g, g', live, roots, entry, b, c) && ThreadRel(g, live, b, c, s, t) && s.b != b
    ensures ThreadRel(g, live, b, c, Step(g, br, s), Step(g', br, t))
  {
    if s.pc < |g.instrs[s.b]| && IsControl(g.instrs[s.b][s.pc]) {
      ThreadStepGoes(g, g', live, roots, entry, b, c, br, s, t);
    } else {
      ThreadStepStays(g, g', live, roots, entry, b, c, br, s, t);
    }
  }

  lemma ThreadMatched(g: Cfg, g': Cfg, live: set<nat>, roots: set<nat>, entry: nat, b: nat, c: nat, br: Branches, R: (State, State) -> bool, s: State, t: State)
    requires Threading(g, g', live, roots, entry, b, c)
    requires forall s, t :: R(s, t) <==> ThreadRel(g, live, b, c, s, t)
    requires R(s, t)
    ensures Matched(g, g', br, R, s, t)
  {
    if s.b == b {
      ThreadingFacts(g, live, roots, entry, b, c);
      var s' := Step(g, br, s);
      assert s' == State(c, b, 0, s.hist);
      assert ThreadRel(g, live, b, c, s', t);
      ThreadMatchedOutside(g, g', live, roots, entry, b, c, br, s', t);
    } else {
      ThreadMatchedOutside(g, g', live, roots, entry, b, c, br, s, t);
    }
  }

  /** Threading changes no run. */
  lemma ThreadedShows(g: Cfg, g': Cfg, live: set<nat>, roots: set<nat>, entry: nat, b: nat, c: nat)
    requires Threading(g, g', live, roots, entry, b, c)
    ensures SameHistories(g, g', roots)
  {
    ThreadingFacts(g, live, roots, entry, b, c);
    forall root, br: Branches, h | root in roots ensures Shows(g, br, root, h) <==> Shows(g', br, root, h) {
      var R := (s: State, t: State) => ThreadRel(g, live, b, c, s, t);
      forall s, t | R(s, t) ensures Matched(g, g', br, R, s, t) {
        ThreadMatched(g, g', live, roots, entry, b, c, br, R, s, t);
      }
      BisimilarShows(g, g', br, R, root, h);
    }
  }

  lemma ThreadedSuccs(g: Cfg, g': Cfg, live: set<nat>, roots: set<nat>, entry: nat, b: nat, c: nat, u: nat)
    requires Threading(g, g', live, roots, entry, b, c) && u in live && u != b
    ensures Distinct(g'.succs[u]) && forall v :: v in g'.succs[u] <==> (v in g.succs[u] && v != b) || (v == c && b in g.succs[u])
  {
    ThreadingFacts(g, live, roots, entry, b, c);
    LiveShaped(g, live, roots, entry, u);
    assert Dual(g, live, u) && g'.succs[u] == g'.succs[u];
    if u in g.preds[b] {
      assert Rerouted(g, g', b, c, u);
      ThreadedTarget(g.succs[u], b, c);
      ReplacedMembers(g.succs[u], b, c);
    }
  }

  lemma ThreadedDual(g: Cfg, g': Cfg, live: set<nat>, roots: set<nat>, entry: nat, b: nat, c: nat, u: nat)
    requires Threading(g, g', live, roots, entry, b, c) && u in live && u != b
    ensures Dual(g', live - {b}, u)
  {
    ThreadingFacts(g, live, roots, entry, b, c);
    ThreadedSuccs(g, g', live, roots, entry, b, c, u);
    assert Dual(g, live, u) && Dual(g, live, b) && Dual(g, live, c);
    forall p: nat | p in g'.preds[u] ensures p in live - {b} && p < |g'.succs| && u in g'.succs[p] {
      assert p != b;
      assert p in live;
      ThreadedSuccs(g, g', live, roots, entry, b, c, p);
    }
  }

  lemma ThreadedShaped(g: Cfg, g': Cfg, live: set<nat>, roots: set<nat>, entry: nat, b: nat, c: nat, u: nat)
    requires Threading(g, g', live, roots, entry, b, c) && u in live && u != b
    ensures Shaped(g', u)
  {
    ThreadingFacts(g, live, roots, entry, b, c);
    LiveShaped(g, live, roots, entry, u);
    assert g'.instrs[u] == g'.instrs[u];
    assert forall i :: 0 <= i < |g.instrs[c]| ==> !g.instrs[c][i].Phi?;
  }

  lemma ThreadedReached(g: Cfg, g': Cfg, live: set<nat>, roots: set<nat>, entry: nat, b: nat, c: nat)
    requires Threading(g, g', live, roots, entry, b, c)
    ensures AllReached(g', live - {b}, roots)
  {
    ThreadingFacts(g, live, roots, entry, b, c);
    forall S: set<nat> | Closed(g', live - {b}, roots, S) ensures live - {b} <= S {
      var T := if c in S then S + {b} else S - {b};
      forall u: nat, v: nat | u in T && u in live && u < |g.succs| && v in g.succs[u] ensures v in T {
        if u != b {
          ThreadedSuccs(g, g', live, roots, entry, b, c, u);
          assert if v == b then c in g'.succs[u] else v in g'.succs[u];
        }
      }
      assert Closed(g, live, roots, T);
    }
  }

  /** Threading keeps the graph well formed and every block reached. */
  lemma ThreadedWellFormed(g: Cfg, g': Cfg, live: set<nat>, roots: set<nat>, entry: nat, b: nat, c: nat)
    requires Threading(g, g', live, roots, entry, b, c)
    ensures WellFormed(g', live - {b}, roots, entry) && AllReached(g', live - {b}, roots)
  {
    ThreadingFacts(g, live, roots, entry, b, c);
    ThreadedReached(g, g', live, roots, entry, b, c);
    forall u | u in live - {b} ensures Dual(g', live - {b}, u) && Shaped(g', u) {
      ThreadedDual(g, g', live, roots, entry, b, c, u);
      ThreadedShaped(g, g', live, roots, entry, b, c, u);
    }
    forall r | r in roots ensures g'.preds[r] == [] && (r != entry ==> g'.succs[r] == []) {
      assert g'.succs[r] == g'.succs[r];
      assert r in g.preds[b] ==> b in g.succs[r];
      assert Rerouted(g, g', b, c, r) || g'.succs[r] == g.succs[r];
    }
  }
}
