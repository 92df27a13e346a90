/** Descriptions.Get and IsPure: goroutines compute the purity of functions, share the results in a
    cache and wait for each other. A state machine over their atomic steps, for every schedule. */
module Descriptions {
  import opened CallGraphs

  /** What IsPure meets in a function body, in order: an instruction that is harmless, one that is
      not, or a static call. */
  datatype Check = Fine | Bad | CallTo(callee: nat)

  /** known: the library functions listed as pure. eligible: a result, basic parameters, a body. */
  datatype Program = Program(known: seq<bool>, eligible: seq<bool>, body: seq<seq<Check>>, cg: Graph)

  ghost predicate Known(p: Program, f: nat) {
    f < |p.known| && f < |p.eligible| && f < |p.body| && f in p.cg.nodes
  }

  /** The call graph has an edge for every static call. */
  ghost predicate ValidProgram(p: Program) {
    && |p.known| == |p.eligible| == |p.body| && Consistent(p.cg)
    && (forall f: nat :: f < |p.body| ==> Known(p, f))
    && (forall f: nat, i: nat :: f < |p.body| && i < |p.body[f]| ==> CallListed(p, f, i))
  }

  ghost predicate CallListed(p: Program, f: nat, i: nat)
    requires f < |p.body| && i < |p.body[f]|
  {
    p.body[f][i].CallTo? ==> p.body[f][i].callee < |p.body| && exists site :: Has(p.cg, Edge(f, site, p.body[f][i].callee))
  }

  // ----- reachability in the call graph -----

  lemma {:induction false} CallsTransitive(g: Graph, a: nat, b: nat, q: seq<nat>, c: nat)
    requires Calls(g, a, b) && IsPath(g, b, q, c)
    ensures Calls(g, a, c)
  {
    if q != [] {
      var e := q[|q| - 1];
      CallsTransitive(g, a, b, q[..|q| - 1], g.edges[e].caller);
      var p :| IsPath(g, a, p, g.edges[e].caller);
      assert (p + [e])[..|p|] == p;
      assert IsPath(g, a, p + [e], c);
    }
  }

  lemma CallsSelf(g: Graph, a: nat)
    ensures Calls(g, a, a)
  {
    assert IsPath(g, a, [], a);
  }

  lemma EdgeCalls(p: Program, f: nat, i: nat)
    requires ValidProgram(p) && f < |p.body| && i < |p.body[f]| && p.body[f][i].CallTo?
    ensures p.body[f][i].callee < |p.body| && Calls(p.cg, f, p.body[f][i].callee)
  {
    assert CallListed(p, f, i);
    var h := p.body[f][i].callee;
    var site :| Has(p.cg, Edge(f, site, h));
    assert Known(p, f) && NodeOk(p.cg, f);
    var e :| e in p.cg.outs[f] && e < |p.cg.edges| && p.cg.edges[e] == Edge(f, site, h);
    assert [e][..0] == [];
    assert Lists(p.cg.outs, f, e) && IsPath(p.cg, f, [], f);
    assert IsPath(p.cg, f, [e], h);
  }

  /** Everything f can call, directly or not. */
  ghost function Reach(p: Program, f: nat): (R: set<nat>)
    ensures forall m :: m in R <==> m in p.cg.nodes && Calls(p.cg, f, m)
  {
    set m | m in p.cg.nodes && Calls(p.cg, f, m)
  }

  lemma ReachWithin(p: Program, f: nat, h: nat)
    requires Calls(p.cg, f, h)
    ensures Reach(p, h) <= Reach(p, f)
  {
    forall m | m in Reach(p, h) ensures m in Reach(p, f) {
      var q :| IsPath(p.cg, h, q, m);
      CallsTransitive(p.cg, f, h, q, m);
    }
  }

  /** A callee that cannot call f back reaches strictly less. */
  lemma ReachShrinks(p: Program, f: nat, i: nat)
    requires ValidProgram(p) && f < |p.body| && i < |p.body[f]| && p.body[f][i].CallTo? && !Calls(p.cg, p.body[f][i].callee, f)
    ensures p.body[f][i].callee < |p.body| && Reach(p, p.body[f][i].callee) < Reach(p, f)
  {
    EdgeCalls(p, f, i);
    ReachWithin(p, f, p.body[f][i].callee);
    CallsSelf(p.cg, f);
    assert Known(p, f);
    assert f in Reach(p, f) && f !in Reach(p, p.body[f][i].callee);
  }

  // ----- what is computed -----

  /** Purity, with no mention of caches, schedules or order. */
  ghost predicate Pure(p: Program, f: nat)
    requires ValidProgram(p) && f < |p.body|
    decreases Reach(p, f), 1, 0
  {
    p.known[f] || (p.eligible[f] && forall i: nat :: i < |p.body[f]| ==> CheckOk(p, f, i))
  }

  /** The i-th check of f passes: a call must be to f itself, or to a pure function that cannot call f. */
  ghost predicate CheckOk(p: Program, f: nat, i: nat)
    requires ValidProgram(p) && f < |p.body| && i < |p.body[f]|
    decreases Reach(p, f), 0, 0
  {
    match p.body[f][i]
    case Fine => true
    case Bad => false
    case CallTo(h) => h == f || (!Calls(p.cg, h, f) && (ReachShrinks(p, f, i); Pure(p, h)))
  }

  // ----- purity over chains of calls -----

  /** q leads from f from caller to callee by static calls; functions listed as pure are not looked into. */
  ghost predicate CallChain(p: Program, f: nat, q: seq<nat>) {
    |q| > 0 && q[0] == f && (forall i :: 0 <= i < |q| ==> q[i] < |p.body| && q[i] < |p.known| && q[i] < |p.eligible|)
    && forall i :: 0 < i < |q| ==> ChainLink(p, q, i)
  }

  ghost predicate ChainLink(p: Program, q: seq<nat>, i: nat) {
    0 < i < |q| && q[i - 1] < |p.body| && q[i - 1] < |p.known| && !p.known[q[i - 1]] && CallTo(q[i]) in p.body[q[i - 1]]
  }

  /** m is listed as pure; or it is eligible, does nothing bad, and calls no other function that can
      call it back. */
  ghost predicate Harmless(p: Program, m: nat)
    requires m < |p.body| && m < |p.known| && m < |p.eligible|
  {
    p.known[m] || (p.eligible[m] && Bad !in p.body[m] && forall h: nat :: CallTo(h) in p.body[m] && h != m ==> !Calls(p.cg, h, m))
  }

  /** A function is pure exactly if every chain of calls from it leads to a harmless function. */
  lemma {:induction false} PureMeans(p: Program, f: nat)
    requires ValidProgram(p) && f < |p.body|
    ensures Pure(p, f) <==> forall q :: CallChain(p, f, q) ==> Harmless(p, q[|q| - 1])
  {
    if Pure(p, f) {
      forall q | CallChain(p, f, q) ensures Harmless(p, q[|q| - 1]) {
        PureChains(p, f, q);
      }
    }
    if forall q :: CallChain(p, f, q) ==> Harmless(p, q[|q| - 1]) {
      ChainsPure(p, f);
    }
  }

  lemma {:induction false} PureChains(p: Program, f: nat, q: seq<nat>)
    requires ValidProgram(p) && f < |p.body| && Pure(p, f) && CallChain(p, f, q)
    ensures Harmless(p, q[|q| - 1])
    decreases |q|
  {
    assert |q| > 1 ==> ChainLink(p, q, 1);
    if !p.known[f] {
      forall h: nat | CallTo(h) in p.body[f] && h != f ensures !Calls(p.cg, h, f) && h < |p.body| && Pure(p, h) {
        var i :| 0 <= i < |p.body[f]| && p.body[f][i] == CallTo(h);
        assert CheckOk(p, f, i) && CallListed(p, f, i);
      }
      forall i: nat | i < |p.body[f]| ensures p.body[f][i] != Bad {
        assert CheckOk(p, f, i);
      }
      if |q| > 1 {
        var rest := q[1..];
        forall i | 0 < i < |rest| ensures ChainLink(p, rest, i) {
          assert ChainLink(p, q, i + 1);
        }
        PureChains(p, q[1], rest);
      }
    }
  }

  lemma {:induction false} ChainsPure(p: Program, f: nat)
    requires ValidProgram(p) && f < |p.body| && forall q :: CallChain(p, f, q) ==> Harmless(p, q[|q| - 1])
    ensures Pure(p, f)
    decreases Reach(p, f)
  {
    assert CallChain(p, f, [f]);
    if !p.known[f] {
      forall i: nat | i < |p.body[f]| ensures CheckOk(p, f, i) {
        var x := p.body[f][i];
        assert x in p.body[f];
        if x.CallTo? && x.callee != f {
          ReachShrinks(p, f, i);
          forall q | CallChain(p, x.callee, q) ensures Harmless(p, q[|q| - 1]) {
            var c := [f] + q;
            forall i | 0 < i < |c| ensures ChainLink(p, c, i) {
              assert i > 1 ==> ChainLink(p, q, i - 1);
            }
            assert CallChain(p, f, c) && c[|c| - 1] == q[|q| - 1];
          }
          ChainsPure(p, x.callee);
        }
      }
    }
  }

  /** A function that does nothing but call itself is pure. */
  lemma RecursionIsPure(p: Program, f: nat)
    requires ValidProgram(p) && f < |p.body| && p.eligible[f] && forall x :: x in p.body[f] ==> x in {Fine, CallTo(f)}
    ensures Pure(p, f)
  {
    forall q | CallChain(p, f, q) ensures Harmless(p, q[|q| - 1]) {
      RecursionStays(p, f, q);
    }
    PureMeans(p, f);
  }

  lemma {:induction false} RecursionStays(p: Program, f: nat, q: seq<nat>)
    requires CallChain(p, f, q) && forall x :: x in p.body[f] ==> x in {Fine, CallTo(f)}
    ensures q[|q| - 1] == f
    decreases |q|
  {
    if |q| > 1 {
      var front := q[..|q| - 1];
      forall i | 0 < i < |front| ensures ChainLink(p, front, i) {
        assert ChainLink(p, q, i);
      }
      RecursionStays(p, f, front);
      assert ChainLink(p, q, |q| - 1);
    }
  }

  // ----- the goroutines -----

  /** A cache entry; a pending one is being computed by a goroutine. */
  datatype Entry = Absent | Pending(owner: nat) | Ready(pure: bool)

  /** A call of IsPure on fn that has come to check pos. */
  datatype Frame = Frame(fn: nat, pos: nat)

  /** What a goroutine is about to do: start its next request; lock the mutex in Get(fn); receive
      from the channel of fn; look at the next check; publish a result and close the channel;
      return from Get(fn). */
  datatype Mode = Idle | Enter(fn: nat) | Wait(fn: nat) | Scan | Finish(pure: bool) | Return(fn: nat, pure: bool)

  /** requests are the calls of Get the goroutine makes one after the other, got their results. */
  datatype Thread = Thread(requests: seq<nat>, got: seq<bool>, stack: seq<Frame>, mode: Mode)

  /** computed counts how often the description of each function is computed. */
  datatype State = State(cache: seq<Entry>, computed: seq<nat>, threads: seq<Thread>)

  ghost predicate CanStep(s: State, t: nat) {
    t < |s.threads| && match s.threads[t].mode
      case Idle => |s.threads[t].got| < |s.threads[t].requests|
      case Wait(f) => f < |s.cache| && s.cache[f].Ready?
      case _ => true
  }

  /** What IsPure does at the check where frame fr stands. */
  ghost function ScanMode(p: Program, fr: Frame): (m: Mode)
    requires ValidProgram(p) && fr.fn < |p.body| && fr.pos <= |p.body[fr.fn]|
  {
    if p.known[fr.fn] then Finish(true)
    else if !p.eligible[fr.fn] then Finish(false)
    else if fr.pos == |p.body[fr.fn]| then Finish(true)
    else match p.body[fr.fn][fr.pos]
      case Fine => Scan
      case Bad => Finish(false)
      case CallTo(h) => if h == fr.fn then Scan else if Calls(p.cg, h, fr.fn) then Finish(false) else Enter(h)
  }

  function Top(th: Thread): (fr: Frame)
    requires th.stack != []
  {
    th.stack[|th.stack| - 1]
  }

  function Advance(th: Thread): (r: Thread)
    requires th.stack != []
  {
    th.(stack := th.stack[|th.stack| - 1 := Frame(Top(th).fn, Top(th).pos + 1)], mode := Scan)
  }

  /** The step of t stays within the tables of s and p. */
  ghost predicate InRange(p: Program, s: State, t: nat) {
    t < |s.threads| && match s.threads[t].mode
      case Enter(f) => f < |s.cache| == |s.computed|
      case Scan => s.threads[t].stack != [] && ValidProgram(p) && Top(s.threads[t]).fn < |p.body| && Top(s.threads[t]).pos <= |p.body[Top(s.threads[t]).fn]|
      case Finish(_) => s.threads[t].stack != [] && Top(s.threads[t]).fn < |s.cache|
      case _ => true
  }

  /** The step of thread t. One outside the tables, which no run comes to, changes nothing. */
  ghost function Next(p: Program, s: State, t: nat): (s': State) {
    if !CanStep(s, t) || !InRange(p, s, t) then s else
    var th := s.threads[t];
    match th.mode
    case Idle => s.(threads := s.threads[t := th.(mode := Enter(th.requests[|th.got|]))])
    case Enter(f) =>
      if s.cache[f].Absent? then
        State(s.cache[f := Pending(t)], s.computed[f := s.computed[f] + 1],
              s.threads[t := th.(stack := th.stack + [Frame(f, 0)], mode := Scan)])
      else s.(threads := s.threads[t := th.(mode := Wait(f))])
    case Wait(f) => s.(threads := s.threads[t := th.(mode := Return(f, s.cache[f].pure))])
    case Scan =>
      var m := ScanMode(p, Top(th));
      s.(threads := s.threads[t := if m.Scan? then Advance(th) else th.(mode := m)])
    case Finish(v) =>
      s.(cache := s.cache[Top(th).fn := Ready(v)],
         threads := s.threads[t := th.(stack := th.stack[..|th.stack| - 1], mode := Return(Top(th).fn, v))])
    case Return(f, v) =>
      s.(threads := s.threads[t :=
        if th.stack == [] then th.(got := th.got + [v], mode := Idle)
        else if v then Advance(th)
        else th.(mode := Finish(false))])
  }

  // ----- the invariant -----

  /** Frame fr is at a call of h that passed the test for a path back. */
  ghost predicate AtCall(p: Program, fr: Frame, h: nat) {
    && fr.fn < |p.body| && fr.fn < |p.known| && fr.fn < |p.eligible| && fr.pos < |p.body[fr.fn]| && p.body[fr.fn][fr.pos] == CallTo(h) && h != fr.fn
    && !Calls(p.cg, h, fr.fn) && !p.known[fr.fn] && p.eligible[fr.fn]
  }

  ghost predicate FrameOk(p: Program, s: State, t: nat, fr: Frame)
    requires ValidProgram(p)
  {
    && fr.fn < |p.body| && fr.fn < |s.cache| && s.cache[fr.fn] == Pending(t) && fr.pos <= |p.body[fr.fn]|
    && forall i :: 0 <= i < fr.pos ==> CheckOk(p, fr.fn, i)
  }

  /** The call of Get(f) is made by the frame on top, or answers the current request. */
  ghost predicate CalledFrom(p: Program, th: Thread, f: nat) {
    f < |p.body| && if th.stack != [] then AtCall(p, Top(th), f) else |th.got| < |th.requests| && th.requests[|th.got|] == f
  }

  ghost predicate ModeOk(p: Program, s: State, th: Thread)
    requires ValidProgram(p)
  {
    match th.mode
    case Idle => th.stack == []
    case Enter(f) => CalledFrom(p, th, f)
    case Wait(f) => CalledFrom(p, th, f) && f < |s.cache| && !s.cache[f].Absent?
    case Scan => th.stack != []
    case Finish(v) => th.stack != [] && Top(th).fn < |p.body| && v == Pure(p, Top(th).fn)
    case Return(f, v) => CalledFrom(p, th, f) && v == Pure(p, f)
  }

  ghost predicate Linked(p: Program, stack: seq<Frame>, i: nat) {
    i + 1 < |stack| && AtCall(p, stack[i], stack[i + 1].fn)
  }

  ghost predicate StackOk(p: Program, s: State, t: nat, stack: seq<Frame>)
    requires ValidProgram(p)
  {
    && (forall i :: 0 <= i < |stack| ==> FrameOk(p, s, t, stack[i]))
    && (forall i :: 0 <= i < |stack| - 1 ==> Linked(p, stack, i))
    && (forall i, j :: 0 <= i < j < |stack| ==> stack[i].fn != stack[j].fn)
  }

  ghost predicate ThreadOk(p: Program, s: State, t: nat)
    requires ValidProgram(p)
  {
    && t < |s.threads|
    && var th := s.threads[t];
    && (forall i :: 0 <= i < |th.requests| ==> th.requests[i] < |p.body|) && |th.got| <= |th.requests|
    && (forall i :: 0 <= i < |th.got| ==> th.requests[i] < |p.body| && th.got[i] == Pure(p, th.requests[i]))
    && (th.stack != [] ==> |th.got| < |th.requests| && th.requests[|th.got|] == th.stack[0].fn)
    && StackOk(p, s, t, th.stack) && ModeOk(p, s, th)
  }

  /** Some frame of the owner computes f. */
  ghost predicate Owned(s: State, f: nat) {
    f < |s.cache| && s.cache[f].Pending? && s.cache[f].owner < |s.threads| && HasFrame(s.threads[s.cache[f].owner].stack, f)
  }

  ghost predicate HasFrame(stack: seq<Frame>, f: nat) {
    exists i :: 0 <= i < |stack| && stack[i].fn == f
  }

  ghost predicate EntryOk(p: Program, s: State, f: nat)
    requires ValidProgram(p)
  {
    && f < |p.body| == |s.cache| == |s.computed|
    && match s.cache[f]
       case Absent => s.computed[f] == 0
       case Pending(_) => s.computed[f] == 1 && Owned(s, f)
       case Ready(v) => s.computed[f] == 1 && v == Pure(p, f)
  }

  ghost predicate Inv(p: Program, s: State) {
    && ValidProgram(p) && |s.cache| == |s.computed| == |p.body|
    && (forall f {:trigger EntryOk(p, s, f)} :: 0 <= f < |p.body| ==> EntryOk(p, s, f))
    && (forall t {:trigger ThreadOk(p, s, t)} :: 0 <= t < |s.threads| ==> ThreadOk(p, s, t))
  }

  // ----- every step keeps the invariant -----

  /** Thread t may claim absent entries and complete its own. */
  ghost predicate CacheMoves(s: State, s': State, t: nat) {
    |s.cache| == |s'.cache| && forall f :: 0 <= f < |s.cache| ==>
      || s'.cache[f] == s.cache[f]
      || (s.cache[f].Absent? && s'.cache[f] == Pending(t))
      || (s.cache[f] == Pending(t) && s'.cache[f].Ready?)
  }

  lemma OtherThreadOk(p: Program, s: State, s': State, t: nat, u: nat)
    requires ValidProgram(p) && ThreadOk(p, s, u) && u != t && CacheMoves(s, s', t) && u < |s'.threads| && s'.threads[u] == s.threads[u]
    ensures ThreadOk(p, s', u)
  {
    var th := s.threads[u];
    forall i | 0 <= i < |th.stack| ensures FrameOk(p, s', u, th.stack[i]) {
      assert FrameOk(p, s, u, th.stack[i]);
    }
  }

  ghost predicate SameFns(a: seq<Frame>, b: seq<Frame>) {
    |a| == |b| && forall i :: 0 <= i < |a| ==> a[i].fn == b[i].fn
  }

  /** A step that changes only the thread, not the functions it computes. */
  lemma ThreadMoves(p: Program, s: State, t: nat, th: Thread)
    requires Inv(p, s) && t < |s.threads| && SameFns(s.threads[t].stack, th.stack)
    requires ThreadOk(p, s.(threads := s.threads[t := th]), t)
    ensures Inv(p, s.(threads := s.threads[t := th]))
  {
    var s' := s.(threads := s.threads[t := th]);
    forall u | 0 <= u < |s'.threads| ensures ThreadOk(p, s', u) {
      assert ThreadOk(p, s, u);
      if u != t { OtherThreadOk(p, s, s', t, u); }
    }
    forall f | 0 <= f < |p.body| ensures EntryOk(p, s', f) {
      assert EntryOk(p, s, f);
      if s.cache[f] == Pending(t) {
        var i :| 0 <= i < |s.threads[t].stack| && s.threads[t].stack[i].fn == f;
        assert th.stack[i].fn == f;
      }
    }
  }

  lemma ModeMoves(p: Program, s: State, t: nat, th: Thread)
    requires Inv(p, s) && t < |s.threads| && th.requests == s.threads[t].requests && th.stack == s.threads[t].stack
    requires th.got == s.threads[t].got && ModeOk(p, s, th)
    ensures Inv(p, s.(threads := s.threads[t := th]))
  {
    var s' := s.(threads := s.threads[t := th]);
    assert ThreadOk(p, s, t);
    forall i | 0 <= i < |th.stack| ensures FrameOk(p, s', t, th.stack[i]) {
      assert FrameOk(p, s, t, s.threads[t].stack[i]);
    }
    ThreadMoves(p, s, t, th);
  }

  /** The check on top has passed. */
  lemma AdvanceKeeps(p: Program, s: State, t: nat)
    requires Inv(p, s) && t < |s.threads| && s.threads[t].stack != []
    requires var fr := Top(s.threads[t]); fr.fn < |p.body| && fr.pos < |p.body[fr.fn]| && CheckOk(p, fr.fn, fr.pos)
    ensures Inv(p, s.(threads := s.threads[t := Advance(s.threads[t])]))
  {
    var th := s.threads[t];
    var th' := Advance(th);
    var s' := s.(threads := s.threads[t := th']);
    assert ThreadOk(p, s, t);
    forall i | 0 <= i < |th'.stack| ensures FrameOk(p, s', t, th'.stack[i]) {
      assert FrameOk(p, s, t, th.stack[i]);
    }
    forall i | 0 <= i < |th'.stack| - 1 ensures Linked(p, th'.stack, i) {
      assert Linked(p, th.stack, i);
    }
    ThreadMoves(p, s, t, th');
  }

  /** What the scan decides is right. */
  lemma ScanDecides(p: Program, fr: Frame)
    requires ValidProgram(p) && fr.fn < |p.body| && fr.pos <= |p.body[fr.fn]| && forall i :: 0 <= i < fr.pos ==> CheckOk(p, fr.fn, i)
    ensures var m := ScanMode(p, fr);
      && (m.Finish? ==> m.pure == Pure(p, fr.fn))
      && (m.Scan? ==> fr.pos < |p.body[fr.fn]| && CheckOk(p, fr.fn, fr.pos))
      && (m.Enter? ==> m.fn < |p.body| && AtCall(p, fr, m.fn))
      && (m.Finish? || m.Scan? || m.Enter?)
  {
    if fr.pos < |p.body[fr.fn]| {
      assert CallListed(p, fr.fn, fr.pos);
      assert Pure(p, fr.fn) ==> p.known[fr.fn] || CheckOk(p, fr.fn, fr.pos);
    }
  }

  lemma StepInRange(p: Program, s: State, t: nat)
    requires Inv(p, s) && CanStep(s, t)
    ensures InRange(p, s, t)
  {
    assert ThreadOk(p, s, t);
    var th := s.threads[t];
    assert th.stack != [] ==> FrameOk(p, s, t, Top(th));
  }

  lemma ScanKeeps(p: Program, s: State, t: nat)
    requires Inv(p, s) && CanStep(s, t) && s.threads[t].mode.Scan?
    ensures Inv(p, Next(p, s, t))
  {
    StepInRange(p, s, t);
    var th := s.threads[t];
    assert ThreadOk(p, s, t);
    assert FrameOk(p, s, t, Top(th));
    ScanDecides(p, Top(th));
    if ScanMode(p, Top(th)).Scan? {
      AdvanceKeeps(p, s, t);
    } else {
      ModeMoves(p, s, t, th.(mode := ScanMode(p, Top(th))));
    }
  }

  /** Returning the purity of a callee to the frame that asked for it. */
  lemma ReturnKeeps(p: Program, s: State, t: nat)
    requires Inv(p, s) && CanStep(s, t) && s.threads[t].mode.Return?
    ensures Inv(p, Next(p, s, t))
  {
    StepInRange(p, s, t);
    var th := s.threads[t];
    assert ThreadOk(p, s, t);
    if th.stack == [] {
      var th' := th.(got := th.got + [th.mode.pure], mode := Idle);
      assert ThreadOk(p, s.(threads := s.threads[t := th']), t);
      ThreadMoves(p, s, t, th');
    } else {
      var fr := Top(th);
      assert FrameOk(p, s, t, fr) && AtCall(p, fr, th.mode.fn);
      assert CheckOk(p, fr.fn, fr.pos) == th.mode.pure;
      if th.mode.pure {
        AdvanceKeeps(p, s, t);
      } else {
        assert !Pure(p, fr.fn);
        ModeMoves(p, s, t, th.(mode := Finish(false)));
      }
    }
  }

  /** Claiming an absent entry. */
  lemma ClaimKeeps(p: Program, s: State, t: nat)
    requires Inv(p, s) && CanStep(s, t) && s.threads[t].mode.Enter? && s.threads[t].mode.fn < |s.cache| && s.cache[s.threads[t].mode.fn].Absent?
    ensures Inv(p, Next(p, s, t))
  {
    StepInRange(p, s, t);
    var th, s' := s.threads[t], Next(p, s, t);
    var f, th' := th.mode.fn, s'.threads[t];
    assert ThreadOk(p, s, t);
    forall i | 0 <= i < |th'.stack| ensures FrameOk(p, s', t, th'.stack[i]) {
      if i < |th.stack| { assert FrameOk(p, s, t, th.stack[i]); }
    }
    forall i | 0 <= i < |th'.stack| - 1 ensures Linked(p, th'.stack, i) {
      assert i < |th.stack| - 1 ==> Linked(p, th.stack, i);
    }
    forall i | 0 <= i < |th.stack| ensures th.stack[i].fn != f { assert FrameOk(p, s, t, th.stack[i]); }
    forall u | 0 <= u < |s'.threads| ensures ThreadOk(p, s', u) {
      assert ThreadOk(p, s, u);
      if u != t { OtherThreadOk(p, s, s', t, u); }
    }
    forall h | 0 <= h < |p.body| ensures EntryOk(p, s', h) {
      assert EntryOk(p, s, h);
      if h == f {
        assert th'.stack[|th.stack|].fn == h;
      } else if s.cache[h] == Pending(t) {
        var i :| 0 <= i < |th.stack| && th.stack[i].fn == h;
        assert th'.stack[i].fn == h;
      }
    }
  }

  /** The goroutine that publishes a result goes on with the frame below, which asked for it. */
  lemma FinishThread(p: Program, s: State, t: nat)
    requires Inv(p, s) && CanStep(s, t) && s.threads[t].mode.Finish?
    ensures ThreadOk(p, Next(p, s, t), t)
  {
    StepInRange(p, s, t);
    var th, s' := s.threads[t], Next(p, s, t);
    assert ThreadOk(p, s, t);
    var fr, th' := Top(th), s'.threads[t];
    assert FrameOk(p, s, t, fr);
    forall i | 0 <= i < |th'.stack| ensures FrameOk(p, s', t, th'.stack[i]) {
      assert FrameOk(p, s, t, th.stack[i]);
    }
    forall i | 0 <= i < |th.stack| - 1 ensures Linked(p, th.stack, i) && (i < |th'.stack| - 1 ==> Linked(p, th'.stack, i)) {
    }
    assert |th.stack| > 1 ==> Linked(p, th.stack, |th.stack| - 2);
    assert CalledFrom(p, th', fr.fn);
  }

  /** Publishing a result. */
  lemma FinishKeeps(p: Program, s: State, t: nat)
    requires Inv(p, s) && CanStep(s, t) && s.threads[t].mode.Finish?
    ensures Inv(p, Next(p, s, t))
  {
    StepInRange(p, s, t);
    FinishThread(p, s, t);
    var th, s' := s.threads[t], Next(p, s, t);
    assert ThreadOk(p, s, t);
    var fr, th' := Top(th), s'.threads[t];
    assert FrameOk(p, s, t, fr);
    forall u | 0 <= u < |s'.threads| ensures ThreadOk(p, s', u) {
      assert ThreadOk(p, s, u);
      if u != t { OtherThreadOk(p, s, s', t, u); }
    }
    forall h | 0 <= h < |p.body| ensures EntryOk(p, s', h) {
      assert EntryOk(p, s, h);
      if h != fr.fn && s.cache[h] == Pending(t) {
        var i :| 0 <= i < |th.stack| && th.stack[i].fn == h;
        assert th'.stack[i].fn == h;
      }
    }
  }

  lemma StepKeeps(p: Program, s: State, t: nat)
    requires Inv(p, s) && CanStep(s, t)
    ensures Inv(p, Next(p, s, t))
  {
    StepInRange(p, s, t);
    var th := s.threads[t];
    assert ThreadOk(p, s, t);
    match th.mode
    case Idle => ModeMoves(p, s, t, th.(mode := Enter(th.requests[|th.got|])));
    case Enter(f) =>
      if s.cache[f].Absent? {
        ClaimKeeps(p, s, t);
      } else {
        ModeMoves(p, s, t, th.(mode := Wait(f)));
      }
    case Wait(f) =>
      assert EntryOk(p, s, f);
      ModeMoves(p, s, t, th.(mode := Return(f, s.cache[f].pure)));
    case Scan => ScanKeeps(p, s, t);
    case Finish(v) => FinishKeeps(p, s, t);
    case Return(f, v) => ReturnKeeps(p, s, t);
  }

  // ----- nobody waits forever -----

  lemma {:induction false} StackCalls(p: Program, s: State, t: nat, stack: seq<Frame>, i: nat, j: nat)
    requires ValidProgram(p) && StackOk(p, s, t, stack) && i <= j < |stack|
    ensures Calls(p.cg, stack[i].fn, stack[j].fn)
    decreases j - i
  {
    if i == j {
      CallsSelf(p.cg, stack[i].fn);
    } else {
      StackCalls(p, s, t, stack, i, j - 1);
      assert Linked(p, stack, j - 1);
      EdgeCalls(p, stack[j - 1].fn, stack[j - 1].pos);
      var q :| IsPath(p.cg, stack[j - 1].fn, q, stack[j].fn);
      CallsTransitive(p.cg, stack[i].fn, stack[j - 1].fn, q, stack[j].fn);
    }
  }

  /** Thread t is blocked on the entry of f, which thread u computes. */
  ghost predicate WaitsFor(s: State, t: nat, f: nat, u: nat) {
    t < |s.threads| && s.threads[t].mode == Wait(f) && f < |s.cache| && s.cache[f] == Pending(u)
  }

  /** What the owner of a pending entry waits for itself reaches strictly less. */
  lemma WaitsDecrease(p: Program, s: State, f: nat, u: nat, h: nat)
    requires Inv(p, s) && f < |s.cache| && s.cache[f] == Pending(u) && u < |s.threads| && s.threads[u].mode == Wait(h)
    ensures Reach(p, h) < Reach(p, f)
  {
    assert EntryOk(p, s, f) && ThreadOk(p, s, u);
    var th := s.threads[u];
    var i :| 0 <= i < |th.stack| && th.stack[i].fn == f;
    StackCalls(p, s, u, th.stack, i, |th.stack| - 1);
    ReachWithin(p, f, Top(th).fn);
    ReachShrinks(p, Top(th).fn, Top(th).pos);
  }

  /** A chain of waits: thread c[i] is blocked on d[i], which thread c[i + 1] computes. */
  ghost predicate WaitChain(s: State, c: seq<nat>, d: seq<nat>) {
    |c| == |d| + 1 && forall i :: 0 <= i < |d| ==> WaitsFor(s, c[i], d[i], c[i + 1])
  }

  lemma {:induction false} ChainDecreases(p: Program, s: State, c: seq<nat>, d: seq<nat>, k: nat)
    requires Inv(p, s) && WaitChain(s, c, d) && k < |d|
    ensures Reach(p, d[k]) <= Reach(p, d[0]) && (k > 0 ==> Reach(p, d[k]) < Reach(p, d[0]))
  {
    if k > 0 {
      ChainDecreases(p, s, c, d, k - 1);
      assert WaitsFor(s, c[k - 1], d[k - 1], c[k]) && WaitsFor(s, c[k], d[k], c[k + 1]);
      WaitsDecrease(p, s, d[k - 1], c[k], d[k]);
    }
  }

  /** No cycle of waits, not even of one goroutine with itself, can form. */
  lemma NoWaitCycle(p: Program, s: State, c: seq<nat>, d: seq<nat>)
    requires Inv(p, s) && WaitChain(s, c, d) && |d| > 0
    ensures c[0] != c[|d|]
  {
    var n := |d|;
    if c[0] == c[n] {
      assert WaitsFor(s, c[0], d[0], c[1]) && WaitsFor(s, c[n - 1], d[n - 1], c[n]);
      ChainDecreases(p, s, c, d, n - 1);
      WaitsDecrease(p, s, d[n - 1], c[n], d[0]);
    }
  }

  lemma Unblocked(p: Program, s: State, f: nat) returns (t: nat)
    requires Inv(p, s) && f < |s.cache| && s.cache[f].Pending?
    ensures CanStep(s, t)
    decreases Reach(p, f)
  {
    assert EntryOk(p, s, f);
    t := s.cache[f].owner;
    assert ThreadOk(p, s, t);
    if !CanStep(s, t) {
      var h := s.threads[t].mode.fn;
      WaitsDecrease(p, s, f, t, h);
      t := Unblocked(p, s, h);
    }
  }

  /** All goroutines have their answers. */
  ghost predicate Finished(s: State) {
    forall t :: 0 <= t < |s.threads| ==> s.threads[t].mode.Idle? && |s.threads[t].got| >= |s.threads[t].requests|
  }

  /** As long as a request is open, some goroutine can take a step. */
  lemma NoDeadlock(p: Program, s: State) returns (t: nat)
    requires Inv(p, s) && !Finished(s)
    ensures CanStep(s, t)
  {
    t :| 0 <= t < |s.threads| && !(s.threads[t].mode.Idle? && |s.threads[t].got| >= |s.threads[t].requests|);
    assert ThreadOk(p, s, t);
    if !CanStep(s, t) {
      t := Unblocked(p, s, s.threads[t].mode.fn);
    }
  }

  // ----- every schedule comes to an end -----

  ghost function EntryCost(p: Program, f: nat, e: Entry): (n: nat) {
    if e.Absent? && f < |p.body| then 4 * |p.body[f]| + 4 else 0
  }

  ghost function CacheCost(p: Program, cache: seq<Entry>): (n: nat) {
    if cache == [] then 0 else CacheCost(p, cache[..|cache| - 1]) + EntryCost(p, |cache| - 1, cache[|cache| - 1])
  }

  ghost function FrameCost(p: Program, fr: Frame): (n: nat) {
    if fr.fn < |p.body| && fr.pos <= |p.body[fr.fn]| then 4 * (|p.body[fr.fn]| - fr.pos) + 2 else 0
  }

  ghost function StackCost(p: Program, stack: seq<Frame>): (n: nat) {
    if stack == [] then 0 else StackCost(p, stack[..|stack| - 1]) + FrameCost(p, stack[|stack| - 1])
  }

  ghost function ModeCost(m: Mode): (n: nat) {
    match m case Idle => 5 case Enter(_) => 4 case Wait(_) => 3 case Scan => 5 case Finish(_) => 1 case Return(_, _) => 2
  }

  ghost function ThreadCost(p: Program, th: Thread): (n: nat) {
    (if |th.got| <= |th.requests| then 4 * (|th.requests| - |th.got|) else 0) + ModeCost(th.mode) + StackCost(p, th.stack)
  }

  ghost function ThreadsCost(p: Program, ths: seq<Thread>): (n: nat) {
    if ths == [] then 0 else ThreadsCost(p, ths[..|ths| - 1]) + ThreadCost(p, ths[|ths| - 1])
  }

  /** A bound on the number of steps still to come. */
  ghost function Cost(p: Program, s: State): (n: nat) {
    CacheCost(p, s.cache) + ThreadsCost(p, s.threads)
  }

  lemma {:induction false} CacheCostUpdate(p: Program, cache: seq<Entry>, f: nat, e: Entry)
    requires f < |cache|
    ensures CacheCost(p, cache[f := e]) == CacheCost(p, cache) - EntryCost(p, f, cache[f]) + EntryCost(p, f, e)
  {
    var n := |cache| - 1;
    if f < n {
      assert cache[f := e][..n] == cache[..n][f := e];
      CacheCostUpdate(p, cache[..n], f, e);
    } else {
      assert cache[f := e][..n] == cache[..n];
    }
  }

  lemma {:induction false} ThreadsCostUpdate(p: Program, ths: seq<Thread>, t: nat, th: Thread)
    requires t < |ths|
    ensures ThreadsCost(p, ths[t := th]) == ThreadsCost(p, ths) - ThreadCost(p, ths[t]) + ThreadCost(p, th)
  {
    var n := |ths| - 1;
    if t < n {
      assert ths[t := th][..n] == ths[..n][t := th];
      ThreadsCostUpdate(p, ths[..n], t, th);
    } else {
      assert ths[t := th][..n] == ths[..n];
    }
  }

  lemma AdvanceCost(p: Program, th: Thread)
    requires th.stack != [] && Top(th).fn < |p.body| && Top(th).pos < |p.body[Top(th).fn]|
    ensures StackCost(p, Advance(th).stack) == StackCost(p, th.stack) - 4
  {
    var n := |th.stack| - 1;
    assert Advance(th).stack[..n] == th.stack[..n];
  }

  /** The next step of t claims an entry. */
  ghost predicate Claims(s: State, t: nat) {
    t < |s.threads| && s.threads[t].mode.Enter? && s.threads[t].mode.fn < |s.cache| && s.cache[s.threads[t].mode.fn].Absent?
  }

  /** The step of a thread makes the thread, with the entry it claims, cheaper. */
  lemma ThreadStepCost(p: Program, s: State, t: nat)
    requires Inv(p, s) && CanStep(s, t)
    ensures var th, s' := s.threads[t], Next(p, s, t);
      ThreadCost(p, s'.threads[t]) < ThreadCost(p, th) + (if Claims(s, t) then EntryCost(p, th.mode.fn, Absent) else 0)
  {
    StepInRange(p, s, t);
    var th := s.threads[t];
    assert ThreadOk(p, s, t);
    if th.mode.Enter? {
      assert (th.stack + [Frame(th.mode.fn, 0)])[..|th.stack|] == th.stack;
    } else if th.mode.Scan? {
      assert FrameOk(p, s, t, Top(th));
      ScanDecides(p, Top(th));
      if ScanMode(p, Top(th)).Scan? { AdvanceCost(p, th); }
    } else if th.mode.Finish? {
      assert FrameOk(p, s, t, Top(th));
    } else if th.mode.Return? && th.stack != [] && th.mode.pure {
      AdvanceCost(p, th);
    }
  }

  lemma StepCost(p: Program, s: State, t: nat)
    requires Inv(p, s) && CanStep(s, t)
    ensures Cost(p, Next(p, s, t)) < Cost(p, s)
  {
    StepInRange(p, s, t);
    var th, s' := s.threads[t], Next(p, s, t);
    assert ThreadOk(p, s, t);
    ThreadStepCost(p, s, t);
    ThreadsCostUpdate(p, s.threads, t, s'.threads[t]);
    if Claims(s, t) {
      CacheCostUpdate(p, s.cache, th.mode.fn, Pending(t));
    } else if th.mode.Finish? {
      assert FrameOk(p, s, t, Top(th));
      CacheCostUpdate(p, s.cache, Top(th).fn, Ready(th.mode.pure));
    }
  }

  // ----- whole runs -----

  /** Goroutines about to make their requests, with an empty cache. */
  ghost predicate Initial(p: Program, s: State) {
    && ValidProgram(p) && |s.cache| == |s.computed| == |p.body|
    && (forall f :: 0 <= f < |p.body| ==> s.cache[f].Absent? && s.computed[f] == 0)
    && (forall t :: 0 <= t < |s.threads| ==> InitialThread(p, s.threads[t]))
  }

  ghost predicate InitialThread(p: Program, th: Thread) {
    th.mode.Idle? && th.stack == [] && th.got == [] && forall i :: 0 <= i < |th.requests| ==> th.requests[i] < |p.body|
  }

  /** schedule names the goroutine that takes each step from s, and leads to s'. */
  ghost predicate Runs(p: Program, s: State, schedule: seq<nat>, s': State)
    decreases |schedule|
  {
    if schedule == [] then s == s' else
      CanStep(s, schedule[0]) && Runs(p, Next(p, s, schedule[0]), schedule[1..], s')
  }

  lemma {:induction false} RunKeeps(p: Program, s: State, schedule: seq<nat>, s': State)
    requires Inv(p, s) && Runs(p, s, schedule, s')
    ensures Inv(p, s') && |schedule| + Cost(p, s') <= Cost(p, s)
    ensures |s'.threads| == |s.threads| && forall t :: 0 <= t < |s.threads| ==> s'.threads[t].requests == s.threads[t].requests
    decreases |schedule|
  {
    if schedule != [] {
      StepKeeps(p, s, schedule[0]);
      StepCost(p, s, schedule[0]);
      RunKeeps(p, Next(p, s, schedule[0]), schedule[1..], s');
    }
  }

  lemma InitialInv(p: Program, s: State)
    requires Initial(p, s)
    ensures Inv(p, s)
  {
    forall t | 0 <= t < |s.threads| ensures ThreadOk(p, s, t) {
      assert InitialThread(p, s.threads[t]);
    }
  }

  /** The answers so far are the purity of the functions asked for. */
  ghost predicate Answered(p: Program, requests: seq<nat>, got: seq<bool>) {
    ValidProgram(p) && |got| <= |requests| && forall i :: 0 <= i < |got| ==> requests[i] < |p.body| && got[i] == Pure(p, requests[i])
  }

  ghost predicate HasWaitCycle(s: State) {
    exists c, d :: WaitChain(s, c, d) && |d| > 0 && c[0] == c[|d|]
  }

  /** In every interleaving: no description is computed twice, every answer is the purity of the
      function asked for, no cycle of waits forms, the run is no longer than a bound fixed at the
      start, and it stops only when all requests are answered. */
  lemma GetIsCorrect(p: Program, s: State, schedule: seq<nat>, s': State)
    requires Initial(p, s) && Runs(p, s, schedule, s')
    ensures |s'.computed| == |p.body| && forall f :: 0 <= f < |p.body| ==> s'.computed[f] <= 1
    ensures |s'.threads| == |s.threads| && |schedule| <= Cost(p, s)
    ensures forall t :: 0 <= t < |s.threads| ==> Answered(p, s.threads[t].requests, s'.threads[t].got)
    ensures forall t, i :: 0 <= t < |s.threads| && 0 <= i < |s'.threads[t].got| && i < |s.threads[t].requests| ==>
              (s'.threads[t].got[i] <==> forall q :: CallChain(p, s.threads[t].requests[i], q) ==> Harmless(p, q[|q| - 1]))
    ensures !HasWaitCycle(s')
    ensures (forall t :: !CanStep(s', t)) ==> Finished(s')
  {
    InitialInv(p, s);
    RunKeeps(p, s, schedule, s');
    forall f | 0 <= f < |p.body| ensures s'.computed[f] <= 1 {
      assert EntryOk(p, s', f);
    }
    forall t | 0 <= t < |s.threads| ensures Answered(p, s.threads[t].requests, s'.threads[t].got) {
      assert ThreadOk(p, s', t);
    }
    forall t, i | 0 <= t < |s.threads| && 0 <= i < |s'.threads[t].got| && i < |s.threads[t].requests|
      ensures s'.threads[t].got[i] <==> forall q :: CallChain(p, s.threads[t].requests[i], q) ==> Harmless(p, q[|q| - 1])
    {
      assert Answered(p, s.threads[t].requests, s'.threads[t].got);
      PureMeans(p, s.threads[t].requests[i]);
    }
    if !Finished(s') {
      var t := NoDeadlock(p, s');
    }
    if c, d :| WaitChain(s', c, d) && |d| > 0 && c[0] == c[|d|] {
      NoWaitCycle(p, s', c, d);
    }
  }

  // ----- the static call graph and the test for a path back -----

  /** The edges that the first i checks of f, and all of the earlier functions, give rise to. */
  ghost predicate EdgeUpTo(body: seq<seq<Check>>, f: nat, i: nat, x: Edge) {
    && x.caller < |body| && 0 <= x.site < |body[x.caller]| && body[x.caller][x.site] == CallTo(x.callee)
    && (x.caller < f || (x.caller == f && x.site < i))
  }

  /** CallGraph of package static: an edge for each static call, and for nothing else. */
  method StaticCallGraph(body: seq<seq<Check>>) returns (g: Graph)
    requires forall f: nat, i: nat :: f < |body| && i < |body[f]| && body[f][i].CallTo? ==> body[f][i].callee < |body|
    ensures Consistent(g) && (forall f: nat :: f < |body| ==> f in g.nodes)
    ensures forall x :: Has(g, x) <==> EdgeUpTo(body, |body|, 0, x)
  {
    var cg := new CallGraph(|body|);
    for f := 0 to |body|
      invariant fresh(cg) && Consistent(cg.Value()) && (forall h: nat :: h < f ==> h in cg.nodes)
      invariant forall x :: Has(cg.Value(), x) <==> EdgeUpTo(body, f, 0, x)
    {
      cg.CreateNode(f);
      for i := 0 to |body[f]|
        invariant fresh(cg) && Consistent(cg.Value()) && (forall h: nat :: h <= f ==> h in cg.nodes)
        invariant forall x :: Has(cg.Value(), x) <==> EdgeUpTo(body, f, i, x)
      {
        if body[f][i].CallTo? {
          cg.CreateNode(body[f][i].callee);
          cg.AddEdge(f, i, body[f][i].callee);
        }
      }
    }
    g := Graph(cg.nodes, cg.edges, cg.ins, cg.outs);
    assert g == cg.Value();
  }

  /** With that graph, the assumption that the protocol makes about calls holds. */
  lemma StaticGraphFits(known: seq<bool>, eligible: seq<bool>, body: seq<seq<Check>>, g: Graph)
    requires |known| == |eligible| == |body| && Consistent(g) && (forall f: nat :: f < |body| ==> f in g.nodes)
    requires forall f: nat, i: nat :: f < |body| && i < |body[f]| && body[f][i].CallTo? ==> body[f][i].callee < |body|
    requires forall x :: Has(g, x) <==> EdgeUpTo(body, |body|, 0, x)
    ensures ValidProgram(Program(known, eligible, body, g))
  {
    var p := Program(known, eligible, body, g);
    forall f: nat, i: nat | f < |p.body| && i < |p.body[f]| ensures CallListed(p, f, i) {
      if p.body[f][i].CallTo? {
        assert Has(g, Edge(f, i, p.body[f][i].callee));
      }
    }
  }

  /** checkCall and the scan around it, with the search for a path from the callee back to fn. */
  method LookAt(p: Program, fr: Frame) returns (m: Mode)
    requires ValidProgram(p) && fr.fn < |p.body| && fr.pos <= |p.body[fr.fn]|
    ensures m == ScanMode(p, fr)
  {
    if p.known[fr.fn] { return Finish(true); }
    if !p.eligible[fr.fn] { return Finish(false); }
    if fr.pos == |p.body[fr.fn]| { return Finish(true); }
    match p.body[fr.fn][fr.pos] {
      case Fine => return Scan;
      case Bad => return Finish(false);
      case CallTo(h) =>
        if h == fr.fn { return Scan; }
        assert CallListed(p, fr.fn, fr.pos);
        assert Known(p, h);
        var back := PathSearch(p.cg, h, {fr.fn});
        if back.Found? { return Finish(false); }
        assert fr.fn in {fr.fn};
        return Enter(h);
    }
  }
}
