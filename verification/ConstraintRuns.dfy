/** The widening loop on particular components: one that counts, one where a conversion gets stuck, one
    that never ends, and one of channels. */
module ConstraintRuns {
  import opened Paths
  import opened Intervals
  import opened Widening
  import opened Constraints

  // ----- a counting loop -----

  /** x = phi(k, y) and y = x + one, as for a variable counted up in a loop; k and one are outside. */
  function CountProblem(consts: seq<Z>): (p: Problem) {
    Problem(4, [0, 1], [[2, 1], [0, 3]], [true, true, false, false], [true, true, true, true], consts)
  }

  const COUNT_FORMS: seq<Form> := [Phi([2, 1]), Plus(0, 3)]

  lemma CountFacts(consts: seq<Z>)
    requires Sorted(consts)
    ensures Built(CountProblem(consts), COUNT_FORMS) && StronglyConnected(CountProblem(consts)) && CalmForms(CountProblem(consts), COUNT_FORMS)
    ensures Uses(CountProblem(consts), 0, 1) && Uses(CountProblem(consts), 1, 0)
  {
    var p, E := CountProblem(consts), FlowEdges(CountProblem(consts));
    assert 1 in p.operands[0] && 0 in p.operands[1];
    assert Uses(p, 0, 1) && Uses(p, 1, 0);
    ReachesEdge(E, 0, 1);
    ReachesEdge(E, 1, 0);
    ReachesSelf(E, 0);
    ReachesSelf(E, 1);
  }

  /** Ranges that satisfy both constraints hold every value of the counter. */
  lemma {:induction false} CountsUp(r: seq<Interval>, n: nat)
    requires |r| == 4 && r[2] == Known(Fin(0), Fin(0)) && r[3] == Known(Fin(1), Fin(1)) && r[0].Known?
    requires Covers(r[0], EvalForm(Phi([2, 1]), r)) && Covers(r[1], EvalForm(Plus(0, 3), r))
    ensures Has(r[0], n)
  {
    var rs := AtAll(r, [2, 1]);
    PhiCovers(rs);
    assert rs[0] in rs && rs[1] in rs;
    if n == 0 {
      assert Has(rs[0], 0);
    } else {
      CountsUp(r, n - 1);
      AddContains(r[0], r[3], n - 1, 1);
      assert Has(r[1], n) && Has(rs[1], n);
    }
  }

  lemma StartsAtZero(r: seq<Interval>)
    requires |r| == 4 && r[1].Unknown? && r[2] == Known(Fin(0), Fin(0))
    ensures EvalForm(Phi([2, 1]), r) == Known(Fin(0), Fin(0))
  {
    assert AtAll(r, [2, 1]) == [r[2], r[1]];
    PhiOfTwo(r[1], r[2]);
  }

  /** The loop ends on it for all constants, with every natural number in the range of x. */
  method CountingLoop(consts: seq<Z>) returns (s: Solver)
    requires Sorted(consts)
    ensures s.p == CountProblem(consts) && s.E == FormsEval(COUNT_FORMS) && StronglyConnected(s.p) && |s.ranges| == 4
    ensures forall n: nat :: Has(s.ranges[0], n)
  {
    var p := CountProblem(consts);
    CountFacts(consts);
    s := new Solver(p, FormsEval(COUNT_FORMS), [Unknown, Unknown, Known(Fin(0), Fin(0)), Known(Fin(1), Fin(1))]);
    StartsAtZero(s.ranges);
    s.Propagate(0);
    ghost var start := s.ranges;
    SolveForms(p, COUNT_FORMS, s);
    CountSolved(p, start, s.ranges);
  }

  lemma CountSolved(p: Problem, r: seq<Interval>, r': seq<Interval>)
    requires |r| == 4 && r[0] == r[2] == Known(Fin(0), Fin(0)) && r[3] == Known(Fin(1), Fin(1)) && Grown(r, r') && r'[2] == r[2] && r'[3] == r[3]
    requires Uses(p, 0, 1) && Uses(p, 1, 0)
    requires (Active(p, r', 0) ==> Covers(r'[0], EvalForm(Phi([2, 1]), r'))) && (Active(p, r', 1) ==> Covers(r'[1], EvalForm(Plus(0, 3), r')))
    ensures forall n: nat :: Has(r'[0], n)
  {
    assert Active(p, r', 1);
    ContainedMembers(r[0], r'[0], 0);
    AddContains(r'[0], r'[3], 0, 1);
    assert Has(r'[1], 1) && Active(p, r', 0);
    forall n: nat ensures Has(r'[0], n) {
      CountsUp(r', n);
    }
  }

  // ----- a loop with a conversion -----

  const ZERO: Interval := Known(Fin(0), Fin(0))
  const ONE: Interval := Known(Fin(1), Fin(1))

  /** x = phi(k, w), y = uint64(x), z = y + one, w = uint32(z), as for a 32-bit counter that is counted
      up in 64 bits; k and one are outside. */
  function ConversionProblem(consts: seq<Z>): (p: Problem) {
    Problem(6, [0, 1, 2, 3], [[4, 3], [0], [1, 5], [2]], [true, true, true, true, false, false], [true, true, true, true, true, true], consts)
  }

  const CONVERSION_FORMS: seq<Form> := [Phi([4, 3]), Convert(0, 1, FromUnsigned(0xFFFF_FFFF)), Plus(1, 5), Convert(2, 3, Same)]

  /** What the loop keeps: y never gets beyond 0. */
  ghost predicate StuckAtZero(r: seq<Interval>) {
    && |r| == 6 && r[4] == ZERO && r[5] == ONE
    && r[1] in {Unknown, ZERO} && r[2] in {Unknown, ONE} && r[3] in {Unknown, ONE}
    && (r[1].Unknown? ==> r[2].Unknown?) && (r[2].Unknown? ==> r[3].Unknown?) && (r[3].Unknown? ==> r[0] == ZERO)
    && r[0].Known? && r[0].lower == Fin(0) && Le(Fin(0), r[0].upper)
  }

  lemma ConversionValues(r: seq<Interval>)
    requires StuckAtZero(r)
    ensures EvalForm(CONVERSION_FORMS[0], r) == (if r[3].Unknown? then ZERO else Known(Fin(0), Fin(1)))
    ensures EvalForm(CONVERSION_FORMS[1], r) == ZERO
    ensures EvalForm(CONVERSION_FORMS[2], r) == (if r[1].Unknown? then Unknown else ONE)
    ensures EvalForm(CONVERSION_FORMS[3], r) == r[2]
  {
    assert AtAll(r, [4, 3]) == [r[4], r[3]];
    PhiOfTwo(r[3], r[4]);
    UnionBounds(r[3], r[4]);
  }

  lemma ConversionKeeps(consts: seq<Z>)
    requires Sorted(consts)
    ensures Built(ConversionProblem(consts), CONVERSION_FORMS)
    ensures Keeps(ConversionProblem(consts), FormsEval(CONVERSION_FORMS), r => StuckAtZero(r))
  {
    var p, E, J := ConversionProblem(consts), FormsEval(CONVERSION_FORMS), r => StuckAtZero(r);
    ConversionBuilt(consts);
    forall c: nat, r ensures KeptAt(p, E, J, c, r) {
      if |r| == p.vars && StuckAtZero(r) && Visited(p, c) {
        ConversionStep(consts, c, r);
      }
    }
  }

  lemma ConversionBuilt(consts: seq<Z>)
    requires Sorted(consts)
    ensures Built(ConversionProblem(consts), CONVERSION_FORMS)
  {
  }

  lemma ConversionStep(consts: seq<Z>, c: nat, r: seq<Interval>)
    requires StuckAtZero(r) && c < 4
    ensures r[c] != EMPTY && StuckAtZero(r[c := WidenedTo(r[c], EvalForm(CONVERSION_FORMS[c], r), consts).i])
  {
    ConversionValues(r);
    if c == 0 {
      WidenedFromZero(consts, r[0], EvalForm(CONVERSION_FORMS[0], r));
    }
  }

  lemma WidenedFromZero(consts: seq<Z>, x: Interval, ni: Interval)
    requires x.Known? && x.lower == Fin(0) && Le(Fin(0), x.upper) && ni in {ZERO, Known(Fin(0), Fin(1))}
    ensures var i := WidenedTo(x, ni, consts).i; i.Known? && i.lower == Fin(0) && Le(Fin(0), i.upper) && (x == ni == ZERO ==> i == ZERO)
  {
  }

  /** The program counts up: x, y, z and w are 0, 0, 1 and 1, then x and y are 1. */
  lemma ConversionRuns(consts: seq<Z>, r: seq<Interval>) returns (run: seq<Env>)
    requires |r| == 6 && r[4] == ZERO && r[5] == ONE
    ensures Execution(ConversionProblem(consts), CONVERSION_FORMS, r, run) && 1 in run[|run| - 1] && run[|run| - 1][1] == 1
  {
    var p := ConversionProblem(consts);
    var e0: Env := map[4 := 0, 5 := 1];
    var e1 := e0[0 := 0];
    var e2 := e1[1 := 0];
    var e3 := e2[2 := 1];
    var e4 := e3[3 := 1];
    var e5 := e4[0 := 1];
    var e6 := e5[1 := 1];
    run := [e0, e1, e2, e3, e4, e5, e6];
    assert Gives(CONVERSION_FORMS[0], ValuesOf(e0), 0) by { assert ValuesOf(e0)([4, 3][0], 0); }
    assert Gives(CONVERSION_FORMS[1], ValuesOf(e1), 0);
    assert Gives(CONVERSION_FORMS[2], ValuesOf(e2), 1) by { assert ValuesOf(e2)(1, 0) && ValuesOf(e2)(5, 1); }
    assert Gives(CONVERSION_FORMS[3], ValuesOf(e3), 1);
    assert Gives(CONVERSION_FORMS[0], ValuesOf(e4), 1) by { assert ValuesOf(e4)([4, 3][1], 1); }
    assert Gives(CONVERSION_FORMS[1], ValuesOf(e5), 1);
    forall i | 0 < i < |run| ensures Executes(p, CONVERSION_FORMS, r, run[i - 1], run[i]) {
      var c: nat, n := [0, 0, 1, 2, 3, 0, 1][i], [0, 0, 0, 1, 1, 1, 1][i];
      assert p.target[c] == c && Gives(CONVERSION_FORMS[c], ValuesOf(run[i - 1]), n) && run[i] == run[i - 1][c := n];
    }
  }

  /** The loop ends with y stuck at 0, although the program makes it 1. */
  method ConversionLoop(consts: seq<Z>) returns (s: Solver, ghost run: seq<Env>)
    requires Sorted(consts)
    ensures s.p == ConversionProblem(consts) && s.E == FormsEval(CONVERSION_FORMS) && |s.ranges| == 6
    ensures Execution(s.p, CONVERSION_FORMS, [ZERO, Unknown, Unknown, Unknown, ZERO, ONE], run) && !InRanges(s.ranges, run[|run| - 1])
  {
    s := new Solver(ConversionProblem(consts), FormsEval(CONVERSION_FORMS), [Unknown, Unknown, Unknown, Unknown, ZERO, ONE]);
    ConversionKeeps(consts);
    assert AtAll(s.ranges, [4, 3]) == [ZERO, Unknown];
    PhiOfTwo(Unknown, ZERO);
    s.Propagate(0);
    assert s.ranges == [ZERO, Unknown, Unknown, Unknown, ZERO, ONE];
    run := ConversionRuns(consts, s.ranges);
    s.SolveComponent(r => StuckAtZero(r));
  }

  // ----- a make whose size lies at infinity -----

  const BOTTOM: Interval := Known(NInf, NInf)
  const ODD: Interval := Known(Fin(0), NInf)

  /** x = phi(a, b, x), b = x meet empty, n = x meet [-inf, -inf], s = make(n), a = len(s), where the
      two meets come from comparing x with a variable whose range is empty. The variables are
      x, a, b, n, s in this order. */
  function MakeProblem(consts: seq<Z>): (p: Problem) {
    Problem(5, [0, 2, 3, 4, 1], [[1, 2, 0], [0], [0], [3], [4]], [true, true, true, true, true], [true, true, true, true, true], consts)
  }

  const MAKE_FORMS: seq<Form> := [Phi([1, 2, 0]), Meet(0, EMPTY), Meet(0, BOTTOM), Make(3), Length(4)]

  /** What entries leaves: the two meets have been evaluated, everything else is unknown. */
  const MAKE_START: seq<Interval> := [Unknown, Unknown, EMPTY, BOTTOM, Unknown]

  lemma MakeUses(consts: seq<Z>)
    ensures var p := MakeProblem(consts);
      forall c: nat, v: nat :: Uses(p, c, v) <==> (c == 0 && v in {0, 1, 2}) || (c in {1, 2} && v == 0) || (c == 3 && v == 3) || (c == 4 && v == 4)
  {
    var p := MakeProblem(consts);
    assert 1 in p.operands[0] && 2 in p.operands[0] && 0 in p.operands[0] && 0 in p.operands[1] && 0 in p.operands[2] && 3 in p.operands[3] && 4 in p.operands[4];
    forall c: nat, v: nat
      ensures Uses(p, c, v) <==> (c == 0 && v in {0, 1, 2}) || (c in {1, 2} && v == 0) || (c == 3 && v == 3) || (c == 4 && v == 4)
    {
    }
  }

  lemma MakeBuilt(consts: seq<Z>)
    requires Sorted(consts)
    ensures Built(MakeProblem(consts), MAKE_FORMS)
    ensures MAKE_START == [Unknown, Unknown, EvalForm(MAKE_FORMS[1], [Unknown]), EvalForm(MAKE_FORMS[2], [Unknown]), Unknown]
  {
  }

  /** x flows to every variable and every variable to x. */
  lemma MakeConnected(consts: seq<Z>)
    ensures StronglyConnected(MakeProblem(consts))
  {
    var E := FlowEdges(MakeProblem(consts));
    MakeFlow(consts);
    ReachesSelf(E, 0);
    ReachesEdge(E, 1, 0);
    ReachesEdge(E, 2, 0);
    ReachesEdge(E, 0, 2);
    ReachesEdge(E, 0, 3);
    ReachesEdge(E, 3, 4);
    ReachesEdge(E, 4, 1);
    ReachesTransitive(E, 4, 1, 0);
    ReachesTransitive(E, 3, 4, 0);
    ReachesTransitive(E, 0, 3, 4);
    ReachesTransitive(E, 0, 4, 1);
    forall u: nat, v: nat | u < 5 && v < 5 ensures Reaches(E, u, v) {
      ReachesTransitive(E, u, 0, v);
    }
  }

  lemma MakeFlow(consts: seq<Z>)
    ensures var E := FlowEdges(MakeProblem(consts));
      (1, 0) in E && (2, 0) in E && (0, 2) in E && (0, 3) in E && (3, 4) in E && (4, 1) in E
  {
    var p := MakeProblem(consts);
    MakeUses(consts);
    assert p.target[0] == 0 && p.target[1] == 2 && p.target[2] == 3 && p.target[3] == 4 && p.target[4] == 1;
    assert Uses(p, 0, 1) && Uses(p, 0, 2) && Uses(p, 1, 0) && Uses(p, 2, 0) && Uses(p, 3, 3) && Uses(p, 4, 4);
  }

  /** What the five constraints evaluate to in the ranges of the run. */
  lemma MakeValues(r: seq<Interval>)
    requires |r| == 5 && r[0] in {Unknown, EMPTY, ODD} && r[1] in {Unknown, ODD} && r[2] == EMPTY && r[3] == BOTTOM && r[4] in {Unknown, ODD}
    ensures var E := FormsEval(MAKE_FORMS);
      && E(0, r) == (if r[0] == ODD && r[1] == ODD then EMPTY else if r[0] == ODD || r[1] == ODD then ODD else EMPTY)
      && E(1, r) == EMPTY && E(2, r) == (if r[0].Unknown? then BOTTOM else EMPTY) && E(3, r) == ODD && (r[4] == ODD ==> E(4, r) == ODD)
  {
    var rs := AtAll(r, [1, 2, 0]);
    assert rs == [r[1], r[2], r[0]] && rs[..2] == [r[1], r[2]];
    PhiOfTwo(r[2], r[1]);
    UnionBounds(ODD, ODD);
  }

  /** The ranges of the run: those of x, a and s. */
  function MakeRanges(x: Interval, a: Interval, s: Interval): (r: seq<Interval>) {
    [x, a, EMPTY, BOTTOM, s]
  }

  ghost predicate MakeState(x: Interval, a: Interval, s: Interval, entries: seq<nat>) {
    x in {Unknown, EMPTY, ODD} && a in {Unknown, ODD} && s in {Unknown, ODD} && forall k :: 0 <= k < |entries| ==> entries[k] < 5
  }

  /** The phi in these ranges. */
  lemma MakePhiStep(consts: seq<Z>, x: Interval, a: Interval, s: Interval, entries: seq<nat>)
    requires Sorted(consts) && Spins(consts, ODD) && MakeState(x, a, s, entries)
    ensures var st := Progress(MakeRanges(x, a, s), entries);
      && Fits(MakeProblem(consts), st)
      && WidenBy(MakeProblem(consts), FormsEval(MAKE_FORMS), 0, st) ==
         (if x.Unknown? then Progress(MakeRanges(if a == ODD then ODD else EMPTY, a, s), entries + [0])
          else if x == EMPTY && a == ODD then Progress(st.ranges, entries + [0]) else st)
  {
    MakeValues(MakeRanges(x, a, s));
  }

  /** The other constraints in these ranges; len is not looked at before s is known. */
  lemma MakeStep(consts: seq<Z>, c: nat, x: Interval, a: Interval, s: Interval, entries: seq<nat>)
    requires Sorted(consts) && 0 < c < 5 && MakeState(x, a, s, entries) && (c == 4 ==> s == ODD)
    ensures var st := Progress(MakeRanges(x, a, s), entries);
      && Fits(MakeProblem(consts), st)
      && WidenBy(MakeProblem(consts), FormsEval(MAKE_FORMS), c, st) ==
         (if c == 3 && s.Unknown? then Progress(MakeRanges(x, a, ODD), entries + [4])
          else if c == 4 && a.Unknown? then Progress(MakeRanges(x, ODD, s), entries + [1]) else st)
  {
    MakeValues(MakeRanges(x, a, s));
  }

  /** Constraints that change nothing, however many. */
  lemma {:induction false} NoChange(p: Problem, E: Eval, cs: seq<nat>, n: nat, st: Progress)
    requires Fits(p, st) && n <= |cs| && forall k :: 0 <= k < |cs| ==> cs[k] < |p.target| && WidenBy(p, E, cs[k], st) == st
    ensures WidenFirst(p, E, cs, n, st) == st
  {
    if n > 0 { NoChange(p, E, cs, n - 1, st); }
  }

  /** A constraint that changes something once, however often it is listed. */
  lemma {:induction false} OneChange(p: Problem, E: Eval, cs: seq<nat>, n: nat, c: nat, st: Progress, st': Progress)
    requires Fits(p, st) && Fits(p, st') && 0 < n <= |cs| && c < |p.target| && forall k :: 0 <= k < |cs| ==> cs[k] == c
    requires WidenBy(p, E, c, st) == st' && WidenBy(p, E, c, st') == st'
    ensures WidenFirst(p, E, cs, n, st) == st'
  {
    if n > 1 { OneChange(p, E, cs, n - 1, c, st, st'); } else { assert WidenFirst(p, E, cs, 0, st) == st; }
  }

  /** The constraints that use variable v, in some order. */
  lemma MakeUsesOf(consts: seq<Z>, uses: seq<seq<nat>>, v: nat)
    requires IsUses(MakeProblem(consts), uses) && v < 5
    ensures |uses| == 5 && uses[v] != [] && (v == 0 ==> 0 in uses[v])
    ensures forall k :: 0 <= k < |uses[v]| ==>
              if v == 0 then uses[v][k] < 3 else uses[v][k] == (if v < 3 then 0 else v)
  {
    MakeUses(consts);
    var c: nat := if v < 3 then 0 else v;
    assert Uses(MakeProblem(consts), c, v) && c in uses[v];
    forall k | 0 <= k < |uses[v]| ensures if v == 0 then uses[v][k] < 3 else uses[v][k] == c {
      assert uses[v][k] in uses[v] && Uses(MakeProblem(consts), uses[v][k], v);
    }
  }

  /** A turn that pops v, whose uses have the given effect. */
  lemma TurnIs(p: Problem, E: Eval, uses: seq<seq<nat>>, r: seq<Interval>, entries: seq<nat>, v: nat)
    requires Fits(p, Progress(r, entries + [v])) && IsUses(p, uses)
    ensures v < p.vars && Fits(p, Progress(r, entries)) && (forall k :: 0 <= k < |uses[v]| ==> uses[v][k] < |p.target|)
    ensures Turn(p, E, uses, Progress(r, entries + [v])) == WidenFirst(p, E, uses[v], |uses[v]|, Progress(r, entries))
  {
    var st := Progress(r, entries + [v]);
    assert v == (entries + [v])[|entries|];
    assert Popped(st) == Progress(r, entries);
    UsesBounded(p, uses, v);
    forall k | 0 <= k < |entries| ensures entries[k] < p.vars { assert (entries + [v])[k] == entries[k]; }
  }

  /** A turn that finds x and changes nothing. */
  lemma IdleTurn(consts: seq<Z>, uses: seq<seq<nat>>, x: Interval, a: Interval, s: Interval, entries: seq<nat>, v: nat)
    requires Sorted(consts) && Spins(consts, ODD) && IsUses(MakeProblem(consts), uses) && v in {0, 1, 2}
    requires (x == ODD || (x == EMPTY && a.Unknown?)) && a in {Unknown, ODD} && s in {Unknown, ODD} && forall k :: 0 <= k < |entries| ==> entries[k] < 5
    ensures Fits(MakeProblem(consts), Progress(MakeRanges(x, a, s), entries + [v]))
    ensures Turn(MakeProblem(consts), FormsEval(MAKE_FORMS), uses, Progress(MakeRanges(x, a, s), entries + [v])) == Progress(MakeRanges(x, a, s), entries)
  {
    var p, E, r := MakeProblem(consts), FormsEval(MAKE_FORMS), MakeRanges(x, a, s);
    MakeBuilt(consts);
    TurnIs(p, E, uses, r, entries, v);
    MakeUsesOf(consts, uses, v);
    forall k | 0 <= k < |uses[v]| ensures WidenBy(p, E, uses[v][k], Progress(r, entries)) == Progress(r, entries) {
      if uses[v][k] == 0 { MakePhiStep(consts, x, a, s, entries); } else { MakeStep(consts, uses[v][k], x, a, s, entries); }
    }
    NoChange(p, E, uses[v], |uses[v]|, Progress(r, entries));
  }

  /** A turn that finds v, whose one constraint c changes x, a or s. */
  lemma BusyTurn(consts: seq<Z>, uses: seq<seq<nat>>, v: nat, x: Interval, a: Interval, s: Interval, x': Interval, a': Interval, s': Interval, entries: seq<nat>, y: nat)
    requires Sorted(consts) && Spins(consts, ODD) && IsUses(MakeProblem(consts), uses) && 0 < v < 5 && forall k :: 0 <= k < |entries| ==> entries[k] < 5
    requires x in {Unknown, EMPTY} && a in {Unknown, ODD} && s in {Unknown, ODD}
    requires (v < 3 && x.Unknown? && x' == (if a == ODD then ODD else EMPTY) && a' == a && s' == s && y == 0)
      || (v == 3 && s.Unknown? && x' == x && a' == a && s' == ODD && y == 4)
      || (v == 4 && s == ODD && a.Unknown? && x' == x && a' == ODD && s' == s && y == 1)
    ensures Fits(MakeProblem(consts), Progress(MakeRanges(x, a, s), entries + [v]))
    ensures Turn(MakeProblem(consts), FormsEval(MAKE_FORMS), uses, Progress(MakeRanges(x, a, s), entries + [v])) == Progress(MakeRanges(x', a', s'), entries + [y])
  {
    var p, E, r := MakeProblem(consts), FormsEval(MAKE_FORMS), MakeRanges(x, a, s);
    var c: nat := if v < 3 then 0 else v;
    MakeBuilt(consts);
    TurnIs(p, E, uses, r, entries, v);
    MakeUsesOf(consts, uses, v);
    if c == 0 {
      MakePhiStep(consts, x, a, s, entries);
      MakePhiStep(consts, x', a', s', entries + [y]);
    } else {
      MakeStep(consts, c, x, a, s, entries);
      MakeStep(consts, c, x', a', s', entries + [y]);
    }
    OneChange(p, E, uses[v], |uses[v]|, c, Progress(r, entries), Progress(MakeRanges(x', a', s'), entries + [y]));
  }

  ghost predicate OnlyX(entries: seq<nat>) {
    forall k :: 0 <= k < |entries| ==> entries[k] == 0
  }

  /** x is empty and a is [0, -inf], and only x is in the worklist. */
  ghost predicate Stuck(st: Progress) {
    st.ranges == MakeRanges(EMPTY, ODD, ODD) && OnlyX(st.entries)
  }

  lemma StuckStep(consts: seq<Z>, c: nat, st: Progress)
    requires Sorted(consts) && Spins(consts, ODD) && c < 3 && Stuck(st)
    ensures Fits(MakeProblem(consts), st)
    ensures var st' := WidenBy(MakeProblem(consts), FormsEval(MAKE_FORMS), c, st); Stuck(st') && (st.entries != [] || c == 0 ==> st'.entries != [])
  {
    MakeBuilt(consts);
    if c == 0 { MakePhiStep(consts, EMPTY, ODD, ODD, st.entries); } else { MakeStep(consts, c, EMPTY, ODD, ODD, st.entries); }
  }

  /** Every look at the phi puts x into the worklist again. */
  lemma {:induction false} PhiSpins(consts: seq<Z>, cs: seq<nat>, n: nat, st: Progress)
    requires Sorted(consts) && Spins(consts, ODD) && n <= |cs| && (forall k :: 0 <= k < |cs| ==> cs[k] < 3) && Stuck(st)
    ensures Fits(MakeProblem(consts), st)
    ensures var st' := WidenFirst(MakeProblem(consts), FormsEval(MAKE_FORMS), cs, n, st);
      Stuck(st') && (st.entries != [] || (exists k :: 0 <= k < n && cs[k] == 0) ==> st'.entries != [])
  {
    if n > 0 {
      PhiSpins(consts, cs, n - 1, st);
      var st1 := WidenFirst(MakeProblem(consts), FormsEval(MAKE_FORMS), cs, n - 1, st);
      StuckStep(consts, cs[n - 1], st1);
    } else {
      StuckStep(consts, 0, st);
    }
  }

  /** The states of the run that starts with the worklist n, b. */
  ghost predicate Alive(st: Progress) {
    || st == Progress(MAKE_START, [3, 2])
    || st == Progress(MakeRanges(EMPTY, Unknown, Unknown), [3, 0])
    || st == Progress(MakeRanges(EMPTY, Unknown, Unknown), [3])
    || st == Progress(MakeRanges(EMPTY, Unknown, ODD), [4])
    || st == Progress(MakeRanges(EMPTY, ODD, ODD), [1])
    || (Stuck(st) && st.entries != [])
  }

  lemma AliveTurn(consts: seq<Z>, uses: seq<seq<nat>>, st: Progress)
    requires Sorted(consts) && Spins(consts, ODD) && IsUses(MakeProblem(consts), uses) && Alive(st)
    ensures Fits(MakeProblem(consts), st) && Alive(Turn(MakeProblem(consts), FormsEval(MAKE_FORMS), uses, st))
  {
    MakeBuilt(consts);
    if st == Progress(MAKE_START, [3, 2]) {
      BusyTurn(consts, uses, 2, Unknown, Unknown, Unknown, EMPTY, Unknown, Unknown, [3], 0);
      assert [3] + [2] == [3, 2] && [3] + [0] == [3, 0];
    } else if st == Progress(MakeRanges(EMPTY, Unknown, Unknown), [3, 0]) {
      IdleTurn(consts, uses, EMPTY, Unknown, Unknown, [3], 0);
      assert [3] + [0] == [3, 0];
    } else {
      AliveLater(consts, uses, st);
    }
  }

  lemma AliveLater(consts: seq<Z>, uses: seq<seq<nat>>, st: Progress)
    requires Sorted(consts) && Spins(consts, ODD) && IsUses(MakeProblem(consts), uses)
    requires Alive(st) && st != Progress(MAKE_START, [3, 2]) && st != Progress(MakeRanges(EMPTY, Unknown, Unknown), [3, 0])
    ensures Fits(MakeProblem(consts), st) && Alive(Turn(MakeProblem(consts), FormsEval(MAKE_FORMS), uses, st))
  {
    MakeBuilt(consts);
    if st == Progress(MakeRanges(EMPTY, Unknown, Unknown), [3]) {
      BusyTurn(consts, uses, 3, EMPTY, Unknown, Unknown, EMPTY, Unknown, ODD, [], 4);
      assert [] + [3] == [3] && [] + [4] == [4];
    } else if st == Progress(MakeRanges(EMPTY, Unknown, ODD), [4]) {
      BusyTurn(consts, uses, 4, EMPTY, Unknown, ODD, EMPTY, ODD, ODD, [], 1);
      assert [] + [4] == [4] && [] + [1] == [1];
    } else {
      SpinTurnOf(consts, uses, st.entries);
    }
  }

  lemma SpinTurnOf(consts: seq<Z>, uses: seq<seq<nat>>, entries: seq<nat>)
    requires Sorted(consts) && Spins(consts, ODD) && IsUses(MakeProblem(consts), uses) && entries != [] && (entries == [1] || OnlyX(entries))
    ensures Fits(MakeProblem(consts), Progress(MakeRanges(EMPTY, ODD, ODD), entries))
    ensures Alive(Turn(MakeProblem(consts), FormsEval(MAKE_FORMS), uses, Progress(MakeRanges(EMPTY, ODD, ODD), entries)))
  {
    var rest, v := entries[..|entries| - 1], entries[|entries| - 1];
    assert entries == rest + [v];
    MakeBuilt(consts);
    TurnIs(MakeProblem(consts), FormsEval(MAKE_FORMS), uses, MakeRanges(EMPTY, ODD, ODD), rest, v);
    MakeUsesOf(consts, uses, v);
    assert 0 in uses[v];
    PhiSpins(consts, uses[v], |uses[v]|, Progress(MakeRanges(EMPTY, ODD, ODD), rest));
  }

  lemma {:induction false} AliveForever(consts: seq<Z>, uses: seq<seq<nat>>, st: Progress, n: nat)
    requires Sorted(consts) && Spins(consts, ODD) && IsUses(MakeProblem(consts), uses) && Alive(st)
    ensures Fits(MakeProblem(consts), st) && Alive(Turns(MakeProblem(consts), FormsEval(MAKE_FORMS), uses, st, n))
  {
    AliveTurn(consts, uses, st);
    if n > 0 {
      AliveForever(consts, uses, st, n - 1);
      AliveTurn(consts, uses, Turns(MakeProblem(consts), FormsEval(MAKE_FORMS), uses, st, n - 1));
    }
  }

  /** A strongly connected component of the code's own constraints on which the loop never ends, if b
      comes before n; the constants only need a first one that is finite and not positive. */
  lemma SpinNeverEnds(consts: seq<Z>, uses: seq<seq<nat>>)
    requires Sorted(consts) && consts != [] && consts[0].Fin? && consts[0].n <= 0 && IsUses(MakeProblem(consts), uses)
    ensures Built(MakeProblem(consts), MAKE_FORMS) && StronglyConnected(MakeProblem(consts)) && IsEntries(MakeProblem(consts), MAKE_START, [3, 2])
    ensures !EndsFrom(MakeProblem(consts), FormsEval(MAKE_FORMS), uses, MAKE_START, [3, 2])
  {
    MakeBuilt(consts);
    MakeConnected(consts);
    assert Spins(consts, ODD);
    assert IsEntries(MakeProblem(consts), MAKE_START, [3, 2]);
    forall n: nat ensures Alive(Turns(MakeProblem(consts), FormsEval(MAKE_FORMS), uses, Progress(MAKE_START, [3, 2]), n)) {
      AliveForever(consts, uses, Progress(MAKE_START, [3, 2]), n);
    }
  }

  /** On the same component the loop ends if n comes before b: the iteration order of a map decides. */
  lemma OrderDecides(consts: seq<Z>, uses: seq<seq<nat>>)
    requires Sorted(consts) && consts != [] && consts[0].Fin? && consts[0].n <= 0 && IsUses(MakeProblem(consts), uses)
    ensures Built(MakeProblem(consts), MAKE_FORMS) && IsEntries(MakeProblem(consts), MAKE_START, [2, 3])
    ensures EndsFrom(MakeProblem(consts), FormsEval(MAKE_FORMS), uses, MAKE_START, [2, 3])
  {
    MakeBuilt(consts);
    assert Spins(consts, ODD);
    var p, E := MakeProblem(consts), FormsEval(MAKE_FORMS);
    assert IsEntries(p, MAKE_START, [2, 3]);
    BusyTurn(consts, uses, 3, Unknown, Unknown, Unknown, Unknown, Unknown, ODD, [2], 4);
    BusyTurn(consts, uses, 4, Unknown, Unknown, ODD, Unknown, ODD, ODD, [2], 1);
    BusyTurn(consts, uses, 1, Unknown, ODD, ODD, ODD, ODD, ODD, [2], 0);
    IdleTurn(consts, uses, ODD, ODD, ODD, [2], 0);
    IdleTurn(consts, uses, ODD, ODD, ODD, [], 2);
    assert [] + [2] == [2] && [2] + [3] == [2, 3];
    var st := Progress(MAKE_START, [2, 3]);
    assert Turns(p, E, uses, st, 1) == Progress(MakeRanges(Unknown, Unknown, ODD), [2] + [4]);
    assert Turns(p, E, uses, st, 2) == Progress(MakeRanges(Unknown, ODD, ODD), [2] + [1]);
    assert Turns(p, E, uses, st, 3) == Progress(MakeRanges(ODD, ODD, ODD), [2] + [0]);
    assert Turns(p, E, uses, st, 4) == Progress(MakeRanges(ODD, ODD, ODD), [2]);
    assert Turns(p, E, uses, st, 5) == Progress(MakeRanges(ODD, ODD, ODD), []);
  }

  // ----- channels -----

  /** c = phi(d, e) and d = changetype(c) for channels c, d and e, of which e is outside. */
  function ChannelProblem(consts: seq<Z>): (p: Problem) {
    Problem(3, [0, 1], [[1, 2], [0]], [true, true, false], [false, false, false], consts)
  }

  const CHANNEL_FORMS: seq<Form> := [Phi([1, 2]), Copy(0)]

  /** widen leaves channels alone, so a range that has been propagated into the component stays where
      it is: d keeps no range, and its constraint does not hold at the end. */
  method ChannelLoop(consts: seq<Z>) returns (s: Solver)
    requires Sorted(consts)
    ensures s.p == ChannelProblem(consts) && s.E == FormsEval(CHANNEL_FORMS) && StronglyConnected(s.p)
    ensures ReadsOnly(s.p, s.E, 1) && Active(s.p, s.ranges, 1) && !Satisfied(s.p, s.E, s.ranges, 1)
  {
    var r := [Unknown, Unknown, Known(Fin(0), Fin(5))];
    s := new Solver(ChannelProblem(consts), FormsEval(CHANNEL_FORMS), r);
    ChannelFacts(consts);
    assert AtAll(r, [1, 2]) == [r[1], r[2]];
    PhiOfTwo(r[2], r[1]);
    s.Propagate(0);
    assert s.ranges[0] == Known(Fin(0), Fin(5));
    SolveForms(s.p, CHANNEL_FORMS, s);
    assert Uses(s.p, 1, 0);
  }

  lemma ChannelFacts(consts: seq<Z>)
    requires Sorted(consts)
    ensures var p, E := ChannelProblem(consts), FormsEval(CHANNEL_FORMS);
      Built(p, CHANNEL_FORMS) && TameForms(p, CHANNEL_FORMS) && StronglyConnected(p) && FixedByInput(p, 1) && ReadsOnly(p, E, 1) && Uses(p, 1, 0)
  {
    var p, E := ChannelProblem(consts), FlowEdges(ChannelProblem(consts));
    assert 1 in p.operands[0] && 0 in p.operands[1];
    assert Uses(p, 0, 1) && Uses(p, 1, 0);
    ReachesEdge(E, 0, 1);
    ReachesEdge(E, 1, 0);
    ReachesSelf(E, 0);
    ReachesSelf(E, 1);
    FormReadsOnly(p, CHANNEL_FORMS, 1);
  }

  /** If no channel of the component is known at the start, no constraint between channels is active at
      the end. */
  lemma UnknownStaysIdle(p: Problem, r: seq<Interval>, r': seq<Interval>, c: nat)
    requires Untouched(p, r, r') && c < |p.operands| && forall v: nat :: Uses(p, c, v) ==> v < |r| && !p.widenable[v] && r[v].Unknown?
    ensures !Active(p, r', c)
  {
  }
}
