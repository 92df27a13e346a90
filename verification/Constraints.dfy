/** The constraints of value range propagation, and what the widening loop does on components made of
    them. Strings and slices stand for their lengths, channels for their sizes. */
module Constraints {
  import opened Paths
  import opened Intervals
  import opened Widening

  /** A bound of a slice expression: a variable, or the interval used when there is none. */
  datatype Source = Var(v: nat) | Lit(i: Interval)

  /** How a conversion bounds its result: not at all, or with the greatest value of the narrower type. */
  datatype Rule = Same | FromUnsigned(max: int) | FromSigned(max: int)

  /** The right-hand side of a constraint. Plus also stands for append and concatenation, Meet for the
      three kinds of intersection; Cut is a slice expression. */
  datatype Form =
    | Phi(vars: seq<nat>)
    | Copy(x: nat)
    | Given(i: Interval)
    | Length(x: nat)
    | Plus(a: nat, b: nat)
    | Minus(a: nat, b: nat)
    | Times(a: nat, b: nat)
    | Meet(x: nat, i: Interval)
    | Cut(x: nat, low: Source, high: Source)
    | Make(size: nat)
    | Convert(x: nat, y: nat, rule: Rule)

  function SourceVars(s: Source): (vs: seq<nat>) {
    if s.Var? then [s.v] else []
  }

  /** Operands. A conversion also reads its target, which it does not list. */
  function Rands(f: Form): (vs: seq<nat>) {
    match f
    case Phi(vars) => vars
    case Given(_) => []
    case Plus(a, b) => [a, b]
    case Minus(a, b) => [a, b]
    case Times(a, b) => [a, b]
    case Cut(x, low, high) => [x] + SourceVars(low) + SourceVars(high)
    case Make(size) => [size]
    case Copy(x) => [x]
    case Length(x) => [x]
    case Meet(x, _) => [x]
    case Convert(x, _, _) => [x]
  }

  // ----- evaluation -----

  function At(r: seq<Interval>, v: nat): (i: Interval) {
    if v < |r| then r[v] else Unknown
  }

  function AtAll(r: seq<Interval>, vs: seq<nat>): (rs: seq<Interval>)
    ensures |rs| == |vs| && forall k :: 0 <= k < |vs| ==> rs[k] == At(r, vs[k])
  {
    seq(|vs|, k requires 0 <= k < |vs| => At(r, vs[k]))
  }

  function Bound(r: seq<Interval>, s: Source): (i: Interval) {
    if s.Var? then At(r, s.v) else s.i
  }

  /** A difference of bounds, with 0 for a negative one. */
  function Span(a: Z, b: Z): (z: Z) {
    NoPanic(a, b);
    if Sign(Sub(a, b).z) == -1 then Fin(0) else Sub(a, b).z
  }

  function Spans(high: Interval, low: Interval): (zs: seq<Z>)
    requires high.Known? && low.Known?
  {
    [Span(high.lower, low.lower), Span(high.upper, low.lower), Span(high.lower, low.upper), Span(high.upper, low.upper)]
  }

  /** MakeSliceConstraint.Eval: a negative lower bound of the size becomes 0, the upper bound stays. */
  function MakeEval(i: Interval): (r: Interval) {
    if i.Known? && Sign(i.lower) == -1 then Known(Fin(0), i.upper) else i
  }

  function ConvertEval(from: Interval, to: Interval, rule: Rule): (r: Interval) {
    if from.Unknown? then to
    else if to.Unknown? then from
    else match rule
      case Same => from
      case FromUnsigned(max) => New(MaxOf([Fin(0), from.lower]), MinOf([Fin(max), to.upper]))
      case FromSigned(max) => New(MaxOf([NInf, from.lower]), MinOf([Fin(max), to.upper]))
  }

  function EvalForm(f: Form, r: seq<Interval>): (i: Interval) {
    match f
    case Phi(vars) => PhiEval(AtAll(r, vars))
    case Copy(x) => At(r, x)
    case Given(i) => i
    case Length(x) => if At(r, x).Unknown? then Known(Fin(0), PInf) else At(r, x)
    case Plus(a, b) => if At(r, a).Unknown? || At(r, b).Unknown? then Unknown else AddI(At(r, a), At(r, b))
    case Minus(a, b) => if At(r, a).Unknown? || At(r, b).Unknown? then Unknown else SubI(At(r, a), At(r, b))
    case Times(a, b) => if At(r, a).Unknown? || At(r, b).Unknown? then Unknown else MulI(At(r, a), At(r, b))
    case Meet(x, i) => if At(r, x).Unknown? then i else Intersection(At(r, x), i)
    case Cut(x, low, high) =>
      if Bound(r, low).Unknown? || Bound(r, high).Unknown? then Unknown
      else New(MinOf(Spans(Bound(r, high), Bound(r, low))), MaxOf(Spans(Bound(r, high), Bound(r, low))))
    case Make(size) => MakeEval(At(r, size))
    case Convert(x, y, rule) => ConvertEval(At(r, x), At(r, y), rule)
  }

  function FormsEval(forms: seq<Form>): (E: Eval) {
    (c: nat, r: seq<Interval>) => if c < |forms| then EvalForm(forms[c], r) else Unknown
  }

  /** The constraints of p have these forms. */
  ghost predicate Built(p: Problem, forms: seq<Form>) {
    Valid(p) && |forms| == |p.target| && forall c :: 0 <= c < |forms| ==> p.operands[c] == Rands(forms[c])
  }

  /** Every constraint but a conversion reads only its operands. */
  lemma FormReadsOnly(p: Problem, forms: seq<Form>, c: nat)
    requires Built(p, forms) && c < |forms| && !forms[c].Convert?
    ensures ReadsOnly(p, FormsEval(forms), c)
  {
    var E, f := FormsEval(forms), forms[c];
    forall r, r' | |r| == |r'| == p.vars && AgreeOn(p, c, r, r') ensures E(c, r) == E(c, r') {
      assert forall v: nat :: v in Rands(f) ==> At(r, v) == At(r', v);
      match f
      case Phi(vars) =>
        assert AtAll(r, vars) == AtAll(r', vars) by {
          forall k | 0 <= k < |vars| ensures At(r, vars[k]) == At(r', vars[k]) { assert vars[k] in vars; }
        }
      case Cut(x, low, high) =>
        assert (low.Var? ==> low.v in Rands(f)) && (high.Var? ==> high.v in Rands(f));
      case Plus(a, b) => assert a in Rands(f) && b in Rands(f);
      case Minus(a, b) => assert a in Rands(f) && b in Rands(f);
      case Times(a, b) => assert a in Rands(f) && b in Rands(f);
      case Copy(x) => assert x in Rands(f);
      case Length(x) => assert x in Rands(f);
      case Meet(x, _) => assert x in Rands(f);
      case Make(size) => assert size in Rands(f);
      case Given(_) =>
    }
  }

  // ----- what the constraints mean -----

  /** v may have the value n. */
  type Values = (nat, int) -> bool

  ghost predicate BoundGives(s: Source, P: Values, n: int) {
    if s.Var? then P(s.v, n) else Has(s.i, n)
  }

  /** The instruction behind f can produce n from operands with the values P. An arm of a comparison
      passes on what lies within its bound, make and len see no negative number, and a conversion to a
      wider type keeps the value. */
  ghost predicate Gives(f: Form, P: Values, n: int) {
    match f
    case Phi(vars) => exists k :: 0 <= k < |vars| && P(vars[k], n)
    case Copy(x) => P(x, n)
    case Given(i) => Has(i, n)
    case Length(x) => P(x, n)
    case Plus(a, b) => exists x, y :: P(a, x) && P(b, y) && n == x + y
    case Minus(a, b) => exists x, y :: P(a, x) && P(b, y) && n == x - y
    case Times(a, b) => exists x, y :: P(a, x) && P(b, y) && n == x * y
    case Meet(x, i) => P(x, n) && (i.Known? ==> Has(i, n))
    case Cut(_, low, high) => exists l, h :: BoundGives(low, P, l) && BoundGives(high, P, h) && n == (if h < l then 0 else h - l)
    case Make(size) => P(size, n) && n >= 0
    case Convert(x, _, rule) =>
      P(x, n) && (match rule case Same => true case FromUnsigned(max) => 0 <= n <= max case FromSigned(max) => n <= max)
  }

  /** The values in the ranges. */
  ghost function Members(r: seq<Interval>): (P: Values) {
    (v: nat, n: int) => Has(At(r, v), n)
  }

  lemma {:induction false} GivesWithin(f: Form, P: Values, Q: Values, n: int)
    requires Gives(f, P, n) && forall v: nat, x: int :: v in Rands(f) && P(v, x) ==> Q(v, x)
    ensures Gives(f, Q, n)
  {
    match f
    case Phi(vars) =>
      var k :| 0 <= k < |vars| && P(vars[k], n);
      assert vars[k] in vars && Q(vars[k], n);
    case Plus(a, b) =>
      var x, y :| P(a, x) && P(b, y) && n == x + y;
      assert a in Rands(f) && b in Rands(f) && Q(a, x) && Q(b, y);
    case Minus(a, b) =>
      var x, y :| P(a, x) && P(b, y) && n == x - y;
      assert a in Rands(f) && b in Rands(f) && Q(a, x) && Q(b, y);
    case Times(a, b) =>
      var x, y :| P(a, x) && P(b, y) && n == x * y;
      assert a in Rands(f) && b in Rands(f) && Q(a, x) && Q(b, y);
    case Cut(x, low, high) =>
      var l, h :| BoundGives(low, P, l) && BoundGives(high, P, h) && n == (if h < l then 0 else h - l);
      assert (low.Var? ==> low.v in Rands(f)) && (high.Var? ==> high.v in Rands(f));
      assert BoundGives(low, Q, l) && BoundGives(high, Q, h);
    case Copy(x) => assert x in Rands(f);
    case Length(x) => assert x in Rands(f);
    case Meet(x, _) => assert x in Rands(f);
    case Make(x) => assert x in Rands(f);
    case Convert(x, _, _) => assert x in Rands(f);
    case Given(_) =>
  }

  /** The result of a slice expression, bound by bound. */
  lemma CutHas(high: Interval, low: Interval, h: int, l: int)
    requires Has(high, h) && Has(low, l)
    ensures Has(New(MinOf(Spans(high, low)), MaxOf(Spans(high, low))), if h < l then 0 else h - l)
  {
    var zs := Spans(high, low);
    SpanFacts(high.lower, low.upper);
    SpanFacts(high.upper, low.lower);
    NoPanic(high.lower, low.upper);
    NoPanic(high.upper, low.lower);
    var n := if h < l then 0 else h - l;
    assert Le(MinOf(zs), zs[2]) && Le(zs[1], MaxOf(zs));
    assert Le(zs[2], Fin(n)) && Le(Fin(n), zs[1]);
    InNew(MinOf(zs), MaxOf(zs), n);
  }

  lemma SpanFacts(a: Z, b: Z)
    ensures Le(Fin(0), Span(a, b)) && !Span(a, b).NInf?
    ensures a.Fin? && b.Fin? ==> Span(a, b) == Fin(if a.n < b.n then 0 else a.n - b.n)
    ensures a.NInf? || (a.Fin? && b.PInf?) ==> Span(a, b) == Fin(0)
    ensures a.PInf? || (a.Fin? && b.NInf?) ==> Span(a, b) == PInf
  {
    NoPanic(a, b);
  }

  /** Whatever a constraint can produce from members of its operands' ranges is in its value; only
      conversions are excepted. */
  lemma FormSound(f: Form, r: seq<Interval>, n: int)
    requires Gives(f, Members(r), n) && !f.Convert?
    ensures Has(EvalForm(f, r), n)
  {
    match f
    case Phi(vars) =>
      var k :| 0 <= k < |vars| && Members(r)(vars[k], n);
      var rs := AtAll(r, vars);
      PhiCovers(rs);
      assert rs[k] in rs && Covers(PhiEval(rs), rs[k]) && Has(rs[k], n);
    case Plus(a, b) =>
      var x, y :| Members(r)(a, x) && Members(r)(b, y) && n == x + y;
      AddContains(At(r, a), At(r, b), x, y);
    case Minus(a, b) =>
      var x, y :| Members(r)(a, x) && Members(r)(b, y) && n == x - y;
      SubContains(At(r, a), At(r, b), x, y);
    case Times(a, b) =>
      var x, y :| Members(r)(a, x) && Members(r)(b, y) && n == x * y;
      MulContains(At(r, a), At(r, b), x, y);
    case Meet(x, i) => if i.Known? { IntersectionExact(At(r, x), i, n); }
    case Cut(_, low, high) =>
      var l, h :| BoundGives(low, Members(r), l) && BoundGives(high, Members(r), h) && n == (if h < l then 0 else h - l);
      CutHas(Bound(r, high), Bound(r, low), h, l);
    case Copy(_) =>
    case Given(_) =>
    case Length(_) =>
    case Make(_) =>
  }

  /** Known ranges with members, as New makes them. */
  ghost predicate Live(f: Form, r: seq<Interval>) {
    && (forall v: nat :: v in Rands(f) ==> Inhabited(At(r, v)))
    && (f.Cut? && f.low.Lit? ==> Inhabited(f.low.i)) && (f.Cut? && f.high.Lit? ==> Inhabited(f.high.i))
    && (f.Meet? ==> f.i.Known?)
  }

  /** A member of a sum is a sum of members, and of a difference a difference. */
  lemma SumSplits(i: Interval, j: Interval, n: int)
    requires Inhabited(i) && Inhabited(j) && Has(AddI(i, j), n)
    ensures exists x, y :: Has(i, x) && Has(j, y) && n == x + y
  {
    NoPanic(i.lower, j.lower);
    NoPanic(i.upper, j.upper);
    var x := Nearest(i, n - Nearest(j, 0));
    assert Has(j, n - x) && n == x + (n - x);
  }

  lemma DifferenceSplits(i: Interval, j: Interval, n: int)
    requires Inhabited(i) && Inhabited(j) && Has(SubI(i, j), n)
    ensures exists x, y :: Has(i, x) && Has(j, y) && n == x - y
  {
    NoPanic(i.lower, j.upper);
    NoPanic(i.upper, j.lower);
    var x := Nearest(i, n + Nearest(j, 0));
    assert Has(j, x - n) && n == x - (x - n);
  }

  lemma SpanMono(a: Z, b: Z, a': Z, b': Z)
    requires Le(a, a') && Le(b', b)
    ensures Le(Span(a, b), Span(a', b'))
  {
    SpanFacts(a, b);
    SpanFacts(a', b');
  }

  /** If nothing keeps the difference positive, some upper bound is at most some lower bound. */
  lemma CutToZero(high: Interval, low: Interval)
    requires Inhabited(high) && Inhabited(low) && Le(Span(high.lower, low.upper), Fin(0))
    ensures exists l, h :: Has(low, l) && Has(high, h) && h <= l
  {
    SpanFacts(high.lower, low.upper);
    var l0 := Nearest(low, Nearest(high, 0));
    var h := if high.lower.Fin? then high.lower.n else Nearest(high, l0);
    var l := if high.lower.Fin? then Nearest(low, h) else l0;
    assert Has(low, l) && Has(high, h) && h <= l;
  }

  lemma CutPositive(high: Interval, low: Interval, n: int)
    requires Inhabited(high) && Inhabited(low) && n > 0 && Le(Span(high.lower, low.upper), Fin(n)) && Le(Fin(n), Span(high.upper, low.lower))
    ensures exists l, h :: Has(low, l) && Has(high, h) && n == h - l
  {
    SpanFacts(high.lower, low.upper);
    SpanFacts(high.upper, low.lower);
    NoPanic(high.lower, low.upper);
    NoPanic(high.upper, low.lower);
    DifferenceSplits(high, low, n);
    var h, l :| Has(high, h) && Has(low, l) && n == h - l;
  }

  lemma CutSplits(high: Interval, low: Interval, n: int)
    requires Inhabited(high) && Inhabited(low) && Has(New(MinOf(Spans(high, low)), MaxOf(Spans(high, low))), n)
    ensures exists l, h :: Has(low, l) && Has(high, h) && n == (if h < l then 0 else h - l)
  {
    CutEnds(high, low);
    SpanFacts(high.lower, low.upper);
    if n == 0 {
      CutToZero(high, low);
      var l, h :| Has(low, l) && Has(high, h) && h <= l;
    } else {
      CutPositive(high, low, n);
      var l, h :| Has(low, l) && Has(high, h) && n == h - l;
    }
  }

  /** The least corner is the low end of the upper bound less the high end of the lower bound. */
  lemma CutEnds(high: Interval, low: Interval)
    requires Inhabited(high) && Inhabited(low)
    ensures MinOf(Spans(high, low)) == Span(high.lower, low.upper) && MaxOf(Spans(high, low)) == Span(high.upper, low.lower)
  {
    var zs := Spans(high, low);
    SpanMono(high.lower, low.upper, high.lower, low.lower);
    SpanMono(high.lower, low.upper, high.upper, low.upper);
    SpanMono(high.lower, low.upper, high.upper, low.lower);
    SpanMono(high.lower, low.lower, high.upper, low.lower);
    SpanMono(high.upper, low.upper, high.upper, low.lower);
    var m, t := MinOf(zs), MaxOf(zs);
    assert Le(m, zs[2]) && Le(zs[1], t);
  }

  /** Apart from phis, products and conversions, a constraint evaluates to exactly what it can produce. */
  lemma FormExact(f: Form, r: seq<Interval>, n: int)
    requires Live(f, r) && !f.Phi? && !f.Times? && !f.Convert?
    ensures Has(EvalForm(f, r), n) <==> Gives(f, Members(r), n)
  {
    if Gives(f, Members(r), n) { FormSound(f, r, n); }
    if Has(EvalForm(f, r), n) {
      match f
      case Plus(a, b) =>
        assert a in Rands(f) && b in Rands(f);
        SumSplits(At(r, a), At(r, b), n);
        var x, y :| Has(At(r, a), x) && Has(At(r, b), y) && n == x + y;
        assert Members(r)(a, x) && Members(r)(b, y);
      case Minus(a, b) =>
        assert a in Rands(f) && b in Rands(f);
        DifferenceSplits(At(r, a), At(r, b), n);
        var x, y :| Has(At(r, a), x) && Has(At(r, b), y) && n == x - y;
        assert Members(r)(a, x) && Members(r)(b, y);
      case Cut(_, low, high) =>
        assert (low.Var? ==> low.v in Rands(f)) && (high.Var? ==> high.v in Rands(f));
        CutSplits(Bound(r, high), Bound(r, low), n);
        var l, h :| Has(Bound(r, low), l) && Has(Bound(r, high), h) && n == (if h < l then 0 else h - l);
        assert BoundGives(low, Members(r), l) && BoundGives(high, Members(r), h);
      case Meet(x, i) => assert x in Rands(f); IntersectionExact(At(r, x), i, n);
      case Make(x) => assert x in Rands(f);
      case Length(x) => assert x in Rands(f);
      case Copy(_) =>
      case Given(_) =>
    }
  }

  /** With an unknown operand there is no result, but for a length, which is any natural number, and an
      arm of a comparison, which is any number within its bound. */
  lemma UnknownOperand(f: Form, r: seq<Interval>, v: nat, n: int)
    requires v in Rands(f) && At(r, v).Unknown? && !f.Phi? && !f.Convert? && (f.Cut? ==> f.low == Var(v) || f.high == Var(v))
    ensures Has(EvalForm(f, r), n) <==> (f.Length? && n >= 0) || (f.Meet? && Has(f.i, n))
  {
  }

  /** A phi or a product evaluates to the least interval that holds what it can produce. */
  lemma FormLeast(f: Form, r: seq<Interval>, k: Interval)
    requires Live(f, r) && (f.Phi? || f.Times?) && k.Known? && forall n :: Gives(f, Members(r), n) ==> Has(k, n)
    ensures Covers(k, EvalForm(f, r))
  {
    match f
    case Phi(vars) =>
      var rs := AtAll(r, vars);
      forall i | i in rs ensures Inhabited(i) && Covers(k, i) {
        var j :| 0 <= j < |rs| && rs[j] == i;
        assert vars[j] in Rands(f);
        forall n | Has(i, n) ensures Has(k, n) {
          assert Members(r)(vars[j], n) && Gives(f, Members(r), n);
        }
      }
      AllLiveIsTight(rs);
      TightIsHull(rs);
    case Times(a, b) =>
      assert a in Rands(f) && b in Rands(f);
      var i, j := At(r, a), At(r, b);
      forall x, y ensures ProductIn(i, j, k, x, y) {
        if Has(i, x) && Has(j, y) {
          assert Members(r)(a, x) && Members(r)(b, y) && Gives(f, Members(r), x * y);
        }
      }
      MulLeast(i, j, k, Nearest(i, 0), Nearest(j, 0));
  }

  lemma AllLiveIsTight(rs: seq<Interval>)
    requires forall i :: i in rs ==> Inhabited(i)
    ensures Tight(rs)
  {
    forall x, y | x in rs && y in rs ensures Met(rs, x, y) {
      assert Inhabited(x) && Inhabited(y);
    }
  }

  // ----- conversions -----

  /** A conversion to a wider type takes its upper bound from its own target, so it holds what it can
      produce exactly if the range of the target reaches up that far. */
  lemma ConversionSound(x: nat, y: nat, rule: Rule, r: seq<Interval>)
    requires At(r, x).Known? && At(r, y).Known? && !rule.Same?
    ensures (forall n :: Gives(Convert(x, y, rule), Members(r), n) ==> Has(EvalForm(Convert(x, y, rule), r), n)) <==>
              (var from := At(r, x);
               var kept := Known(if rule.FromUnsigned? && !Le(Fin(0), from.lower) then Fin(0) else from.lower,
                                 if Le(from.upper, Fin(rule.max)) then from.upper else Fin(rule.max));
               Inhabited(kept) ==> Le(kept.upper, At(r, y).upper))
  {
    var f, from, to := Convert(x, y, rule), At(r, x), At(r, y);
    var kept := Known(if rule.FromUnsigned? && !Le(Fin(0), from.lower) then Fin(0) else from.lower,
                      if Le(from.upper, Fin(rule.max)) then from.upper else Fin(rule.max));
    forall n ensures Gives(f, Members(r), n) <==> Has(kept, n) {
    }
    forall n ensures Has(EvalForm(f, r), n) <==> Le(kept.lower, Fin(n)) && n <= rule.max && Le(Fin(n), to.upper) {
      ConversionHas(from, to, rule, n);
    }
    if Inhabited(kept) && !Le(kept.upper, to.upper) {
      var n := kept.upper.n;
      assert Has(kept, n) && Gives(f, Members(r), n) && !Has(EvalForm(f, r), n);
    }
  }

  /** A conversion that does not widen, or whose target is still unknown, passes its operand on; the
      target keeps its range while the operand is unknown. */
  lemma ConversionCopies(x: nat, y: nat, rule: Rule, r: seq<Interval>, n: int)
    ensures At(r, x).Known? && (rule.Same? || At(r, y).Unknown?) ==> (Has(EvalForm(Convert(x, y, rule), r), n) <==> Has(At(r, x), n))
    ensures At(r, x).Unknown? ==> (Has(EvalForm(Convert(x, y, rule), r), n) <==> Has(At(r, y), n))
  {
  }

  lemma ConversionHas(from: Interval, to: Interval, rule: Rule, n: int)
    requires from.Known? && to.Known? && !rule.Same?
    ensures Has(ConvertEval(from, to, rule), n) <==>
              Le(from.lower, Fin(n)) && (rule.FromUnsigned? ==> 0 <= n) && n <= rule.max && Le(Fin(n), to.upper)
  {
    var low := MaxOf([Fin(0), from.lower]);
    assert Le([Fin(0), from.lower][0], low) && Le([Fin(0), from.lower][1], low);
    var neg := MaxOf([NInf, from.lower]);
    assert Le([NInf, from.lower][1], neg);
    var up := MinOf([Fin(rule.max), to.upper]);
    assert Le(up, [Fin(rule.max), to.upper][0]) && Le(up, [Fin(rule.max), to.upper][1]);
  }

  // ----- constraints that keep calm -----

  /** The constraint makes no interval that spins out of ones that do not. */
  predicate CalmForm(consts: seq<Z>, f: Form) {
    match f
    case Given(i) => !Spins(consts, i)
    case Meet(_, i) => !Spins(consts, i)
    case Make(_) => false
    case _ => true
  }

  lemma {:induction false} PhiCalm(consts: seq<Z>, rs: seq<Interval>)
    requires Calm(consts, rs)
    ensures !Spins(consts, PhiEval(rs))
  {
    if rs != [] { PhiCalm(consts, rs[..|rs| - 1]); }
  }

  /** Every constraint but make keeps calm. */
  lemma FormCalm(consts: seq<Z>, f: Form, r: seq<Interval>)
    requires CalmForm(consts, f) && Calm(consts, r)
    ensures !Spins(consts, EvalForm(f, r))
  {
    if f.Phi? { PhiCalm(consts, AtAll(r, f.vars)); }
  }

  ghost predicate CalmForms(p: Problem, forms: seq<Form>) {
    |forms| == |p.target| && forall c: nat :: c < |forms| && Visited(p, c) ==> CalmForm(p.consts, forms[c])
  }

  lemma CalmComponent(p: Problem, forms: seq<Form>)
    requires Built(p, forms) && CalmForms(p, forms)
    ensures Keeps(p, FormsEval(forms), r => Calm(p.consts, r))
  {
    var E := FormsEval(forms);
    forall c: nat, r | Visited(p, c) && |r| == p.vars && Calm(p.consts, r) ensures !Spins(p.consts, E(c, r)) {
      FormCalm(p.consts, forms[c], r);
    }
    CalmKept(p, E, Unknown);
  }

  // ----- make, with sizes that do not lie at infinity -----

  /** No bound is at the wrong infinity, unless the interval is empty. */
  predicate Tame(i: Interval) {
    i.Known? && (i.lower.PInf? || i.upper.NInf?) ==> i == EMPTY
  }

  ghost predicate AllTame(r: seq<Interval>) {
    forall v :: 0 <= v < |r| ==> Tame(r[v])
  }

  /** The constraint makes tame intervals out of tame ones. */
  predicate TameForm(f: Form) {
    match f
    case Given(i) => Tame(i)
    case Meet(_, i) => Tame(i)
    case Cut(_, low, high) => (low.Lit? ==> Tame(low.i)) && (high.Lit? ==> Tame(high.i))
    case Convert(_, _, rule) => !rule.FromSigned?
    case _ => true
  }

  lemma {:induction false} PhiTame(rs: seq<Interval>)
    requires AllTame(rs)
    ensures Tame(PhiEval(rs))
  {
    if rs != [] {
      PhiTame(rs[..|rs| - 1]);
      UnionBounds(rs[|rs| - 1], PhiEval(rs[..|rs| - 1]));
    }
  }

  lemma SumTame(i: Interval, j: Interval)
    requires Tame(i) && Tame(j) && i.Known? && j.Known?
    ensures Tame(AddI(i, j)) && Tame(SubI(i, j))
  {
    NoPanic(i.lower, j.lower);
    NoPanic(i.upper, j.upper);
    NoPanic(i.lower, j.upper);
    NoPanic(i.upper, j.lower);
  }

  lemma MulTame(i: Interval, j: Interval)
    requires Tame(i) && Tame(j) && i.Known? && j.Known?
    ensures Tame(MulI(i, j))
  {
    if i != EMPTY && j != EMPTY {
      CornersBound(i, j, MinOf(Corners(i, j)), MaxOf(Corners(i, j)));
    }
  }

  lemma MeetTame(i: Interval, j: Interval)
    requires Tame(i) && Tame(j)
    ensures Tame(Intersection(i, j))
  {
  }

  lemma CutTame(high: Interval, low: Interval)
    requires Tame(high) && Tame(low) && high.Known? && low.Known?
    ensures Tame(New(MinOf(Spans(high, low)), MaxOf(Spans(high, low))))
  {
    var zs := Spans(high, low);
    NoPanic(high.lower, low.lower);
    NoPanic(high.upper, low.lower);
    NoPanic(high.lower, low.upper);
    NoPanic(high.upper, low.upper);
    assert Le(MinOf(zs), zs[0]) && Le(MinOf(zs), zs[1]) && Le(MinOf(zs), zs[2]) && Le(MinOf(zs), zs[3]);
    assert Le(zs[0], MaxOf(zs));
  }

  lemma FormTame(f: Form, r: seq<Interval>)
    requires TameForm(f) && AllTame(r)
    ensures Tame(EvalForm(f, r))
  {
    match f
    case Phi(vars) => PhiTame(AtAll(r, vars));
    case Plus(a, b) => if At(r, a).Known? && At(r, b).Known? { SumTame(At(r, a), At(r, b)); }
    case Minus(a, b) => if At(r, a).Known? && At(r, b).Known? { SumTame(At(r, a), At(r, b)); }
    case Times(a, b) => if At(r, a).Known? && At(r, b).Known? { MulTame(At(r, a), At(r, b)); }
    case Meet(x, i) => MeetTame(At(r, x), i);
    case Cut(x, low, high) => if Bound(r, low).Known? && Bound(r, high).Known? { CutTame(Bound(r, high), Bound(r, low)); }
    case Copy(_) =>
    case Given(_) =>
    case Length(_) =>
    case Make(_) =>
    case Convert(_, _, _) =>
  }

  lemma WidenedTame(oi: Interval, ni: Interval, consts: seq<Z>)
    requires Tame(oi) && Tame(ni)
    ensures Tame(WidenedTo(oi, ni, consts).i)
  {
  }

  lemma TameIsCalm(consts: seq<Z>, i: Interval)
    requires Tame(i)
    ensures !Spins(consts, i)
  {
  }

  ghost predicate TameForms(p: Problem, forms: seq<Form>) {
    |forms| == |p.target| && forall c: nat :: c < |forms| && Visited(p, c) ==> TameForm(forms[c])
  }

  lemma TameComponent(p: Problem, forms: seq<Form>)
    requires Built(p, forms) && TameForms(p, forms)
    ensures Keeps(p, FormsEval(forms), r => AllTame(r))
  {
    var E, J := FormsEval(forms), r => AllTame(r);
    forall c: nat, r ensures KeptAt(p, E, J, c, r) {
      if |r| == p.vars && J(r) && Visited(p, c) && p.widenable[p.target[c]] {
        FormTame(forms[c], r);
        TameIsCalm(p.consts, E(c, r));
        WidenedTame(r[p.target[c]], E(c, r), p.consts);
      }
    }
  }

  // ----- solving a component -----

  /** The component has no make and starts calm, or its constraints are tame and it starts tame. */
  ghost predicate Peaceful(p: Problem, forms: seq<Form>, r: seq<Interval>) {
    (CalmForms(p, forms) && Calm(p.consts, r)) || (TameForms(p, forms) && AllTame(r))
  }

  /** In whatever order variables and constraints are listed, the loop ends on a peaceful component. */
  lemma PeacefulEnds(p: Problem, forms: seq<Form>, r: seq<Interval>)
    requires Built(p, forms) && |r| == p.vars && Peaceful(p, forms, r)
    ensures Ends(p, FormsEval(forms), r)
  {
    var calm := CalmForms(p, forms) && Calm(p.consts, r);
    if calm { CalmComponent(p, forms); } else { TameComponent(p, forms); }
    forall uses, entries | IsUses(p, uses) && IsEntries(p, r, entries) ensures EndsFrom(p, FormsEval(forms), uses, r, entries) {
      EntriesFit(p, r, entries);
      var n := LoopEnds(p, FormsEval(forms), if calm then r => Calm(p.consts, r) else r => AllTame(r), uses, Progress(r, entries));
    }
  }

  /** On every peaceful component the loop ends with all constraints but conversions satisfied. */
  method SolveForms(p: Problem, forms: seq<Form>, s: Solver)
    requires Built(p, forms) && s.p == p && s.E == FormsEval(forms) && |s.ranges| == p.vars && Peaceful(p, forms, s.ranges)
    modifies s`ranges
    ensures Untouched(p, old(s.ranges), s.ranges) && Grown(old(s.ranges), s.ranges) && Peaceful(p, forms, s.ranges)
    ensures forall c: nat :: c < |forms| && p.widenable[p.target[c]] && !forms[c].Convert? && Active(p, s.ranges, c) ==>
              Covers(s.ranges[p.target[c]], EvalForm(forms[c], s.ranges))
    ensures Plain(p, forms) && Primed(p, forms, old(s.ranges)) ==>
              forall run :: Execution(p, forms, old(s.ranges), run) ==> InRanges(s.ranges, run[|run| - 1])
  {
    ghost var calm := CalmForms(p, forms) && Calm(p.consts, s.ranges);
    if calm { CalmComponent(p, forms); } else { TameComponent(p, forms); }
    s.SolveComponent(if calm then r => Calm(p.consts, r) else r => AllTame(r));
    forall c: nat | c < |forms| && p.widenable[p.target[c]] && !forms[c].Convert? && Active(p, s.ranges, c)
      ensures Covers(s.ranges[p.target[c]], EvalForm(forms[c], s.ranges))
    {
      FormReadsOnly(p, forms, c);
    }
    if Plain(p, forms) && Primed(p, forms, old(s.ranges)) {
      EndClosed(p, forms, old(s.ranges), s.ranges);
      forall run | Execution(p, forms, old(s.ranges), run) ensures InRanges(s.ranges, run[|run| - 1]) {
        StaysInside(p, forms, old(s.ranges), s.ranges, run);
      }
    }
  }

  // ----- executions -----

  /** In the component there are no conversions and no channels. */
  ghost predicate Plain(p: Problem, forms: seq<Form>) {
    && |forms| == |p.target| && |p.member| == |p.widenable|
    && forall c: nat :: c < |forms| && p.target[c] < |p.member| && p.member[p.target[c]] ==> !forms[c].Convert? && p.widenable[p.target[c]]
  }

  /** The values of the variables outside the component. */
  ghost function OutsideValues(p: Problem, r: seq<Interval>): (P: Values) {
    (v: nat, n: int) => v < |p.member| && !p.member[v] && Has(At(r, v), n)
  }

  /** The range of v holds what constraint c can produce from values outside the component alone. */
  ghost predicate PrimedAt(p: Problem, forms: seq<Form>, r: seq<Interval>, c: nat) {
    c < |forms| && c < |p.target| && forall n :: Gives(forms[c], OutsideValues(p, r), n) ==> Has(At(r, p.target[c]), n)
  }

  ghost predicate Primed(p: Problem, forms: seq<Form>, r: seq<Interval>) {
    forall c: nat :: c < |forms| && c < |p.target| && p.target[c] < |p.member| && p.member[p.target[c]] ==> PrimedAt(p, forms, r, c)
  }

  /** Propagating a constraint primes it. */
  lemma PropagatePrimes(p: Problem, forms: seq<Form>, r: seq<Interval>, c: nat)
    requires Built(p, forms) && |r| == p.vars && c < |forms| && p.member[p.target[c]] && !forms[c].Convert?
    ensures PrimedAt(p, forms, r[p.target[c] := EvalForm(forms[c], r)], c)
  {
    var r' := r[p.target[c] := EvalForm(forms[c], r)];
    forall n | Gives(forms[c], OutsideValues(p, r'), n) ensures Has(At(r', p.target[c]), n) {
      GivesWithin(forms[c], OutsideValues(p, r'), Members(r), n);
      FormSound(forms[c], r, n);
    }
  }

  /** The ranges of the component hold what its constraints can produce from them. */
  ghost predicate AllClosed(p: Problem, forms: seq<Form>, r: seq<Interval>) {
    forall c: nat, n {:trigger Gives(forms[c], Members(r), n)} ::
      c < |forms| && c < |p.target| && p.target[c] < |p.member| && p.member[p.target[c]] && Gives(forms[c], Members(r), n) ==> Has(At(r, p.target[c]), n)
  }

  lemma EndClosed(p: Problem, forms: seq<Form>, r: seq<Interval>, r': seq<Interval>)
    requires Built(p, forms) && |r| == p.vars && Plain(p, forms) && Primed(p, forms, r) && Untouched(p, r, r') && Grown(r, r')
    requires forall c: nat :: c < |forms| && p.widenable[p.target[c]] && !forms[c].Convert? && Active(p, r', c) ==>
               Covers(r'[p.target[c]], EvalForm(forms[c], r'))
    ensures AllClosed(p, forms, r')
  {
    forall c: nat, n | c < |forms| && p.member[p.target[c]] && Gives(forms[c], Members(r'), n) ensures Has(At(r', p.target[c]), n) {
      if Active(p, r', c) {
        FormSound(forms[c], r', n);
      } else {
        var P, Q := Members(r'), OutsideValues(p, r);
        OperandsFit(p, c);
        forall v: nat, x: int | v in Rands(forms[c]) && P(v, x) ensures Q(v, x) {
          assert v < p.vars && P(v, x) == Has(At(r', v), x);
          assert r'[v].Known? && (!p.member[v] ==> r'[v] == r[v]);
          assert p.member[v] ==> Uses(p, c, v);
        }
        GivesWithin(forms[c], Members(r'), OutsideValues(p, r), n);
        assert PrimedAt(p, forms, r, c);
        ContainedMembers(r[p.target[c]], r'[p.target[c]], n);
      }
    }
  }

  /** The variables that have a value so far, and their values. */
  type Env = map<nat, int>

  ghost predicate InRanges(r: seq<Interval>, env: Env) {
    forall v: nat :: v in env ==> Has(At(r, v), env[v])
  }

  ghost function ValuesOf(env: Env): (P: Values) {
    (v: nat, n: int) => v in env && env[v] == n
  }

  /** A variable of the component gets a value from a constraint, or one outside takes a value of its range. */
  ghost predicate Executes(p: Problem, forms: seq<Form>, r: seq<Interval>, env: Env, env': Env) {
    || (exists c: nat, n :: c < |forms| && c < |p.target| && p.target[c] < |p.member| && p.member[p.target[c]]
          && Gives(forms[c], ValuesOf(env), n) && env' == env[p.target[c] := n])
    || (exists v: nat, n :: v < |p.member| && !p.member[v] && Has(At(r, v), n) && env' == env[v := n])
  }

  /** run starts with values in the ranges r and goes on step by step. */
  ghost predicate Execution(p: Problem, forms: seq<Form>, r: seq<Interval>, run: seq<Env>) {
    |run| > 0 && InRanges(r, run[0]) && forall i :: 0 < i < |run| ==> Executes(p, forms, r, run[i - 1], run[i])
  }

  /** No execution leaves the ranges. */
  lemma {:induction false} StaysInside(p: Problem, forms: seq<Form>, r: seq<Interval>, r': seq<Interval>, run: seq<Env>)
    requires Built(p, forms) && |r| == p.vars && AllClosed(p, forms, r') && Untouched(p, r, r') && Grown(r, r') && Execution(p, forms, r, run)
    ensures InRanges(r', run[|run| - 1])
    decreases |run|
  {
    var n := |run| - 1;
    if n == 0 {
      forall v: nat | v in run[0] ensures Has(At(r', v), run[0][v]) {
        ContainedMembers(r[v], r'[v], run[0][v]);
      }
    } else {
      StaysInside(p, forms, r, r', run[..n]);
      assert run[..n][n - 1] == run[n - 1] && Executes(p, forms, r, run[n - 1], run[n]);
      StepInside(p, forms, r, r', run[n - 1], run[n]);
    }
  }

  lemma StepInside(p: Problem, forms: seq<Form>, r: seq<Interval>, r': seq<Interval>, env: Env, env': Env)
    requires Built(p, forms) && |r| == p.vars && AllClosed(p, forms, r') && Untouched(p, r, r') && InRanges(r', env) && Executes(p, forms, r, env, env')
    ensures InRanges(r', env')
  {
    if c: nat, n :| c < |forms| && p.member[p.target[c]] && Gives(forms[c], ValuesOf(env), n) && env' == env[p.target[c] := n] {
      GivesWithin(forms[c], ValuesOf(env), Members(r'), n);
    }
  }

  // ----- when a make spins -----

  /** For which sizes the length of a made slice spins: the upper bound is minus infinity and some
      constant is not above the lower bound, or not above 0; or the lower bound is infinity and some
      constant is not below the upper bound. */
  lemma MakeSpins(consts: seq<Z>, i: Interval)
    ensures Spins(consts, MakeEval(i)) <==>
              i.Known? && ((i.upper.NInf? && !i.lower.PInf? && !LowConst(consts, MaxOf([Fin(0), i.lower])).NInf?)
                           || (i.lower.PInf? && i.upper.Fin? && !HighConst(consts, i.upper).PInf?))
  {
  }
}
