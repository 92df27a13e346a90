/** Interval arithmetic over the integers with both infinities, as value range propagation uses it. */
module Intervals {
  datatype Z = NInf | Fin(n: int) | PInf

  /** The result of an operation that may panic. */
  datatype Checked = Value(z: Z) | Panic

  function Cmp(a: Z, b: Z): (c: int)
    ensures c == -1 || c == 0 || c == 1
    ensures c <= 0 <==> Le(a, b)
    ensures c >= 0 <==> Le(b, a)
  {
    if a == b && !a.Fin? then 0
    else if a.PInf? then 1
    else if a.NInf? then -1
    else if b.NInf? then 1
    else if b.PInf? then -1
    else if a.n < b.n then -1 else if a.n == b.n then 0 else 1
  }

  /** The order on the extended integers. */
  predicate Le(a: Z, b: Z) {
    a.NInf? || b.PInf? || (a.Fin? && b.Fin? && a.n <= b.n)
  }

  function Sign(a: Z): (s: int) {
    match a case NInf => -1 case PInf => 1 case Fin(n) => if n < 0 then -1 else if n == 0 then 0 else 1
  }

  function Negate(a: Z): (r: Z) {
    match a case NInf => PInf case PInf => NInf case Fin(n) => Fin(-n)
  }

  /** Z.Add; a negative second operand is subtracted. */
  function Add(a: Z, b: Z): (r: Checked)
    decreases if Sign(b) == -1 then 1 else 0
  {
    if Sign(b) == -1 then Sub(a, Negate(b))
    else if a.NInf? then Value(NInf)
    else if a.PInf? then Value(PInf)
    else if b.PInf? then Value(PInf)
    else if a.Fin? && b.Fin? then Value(Fin(a.n + b.n))
    else Panic
  }

  /** Z.Sub; a negative second operand is added. */
  function Sub(a: Z, b: Z): (r: Checked)
    decreases if Sign(b) == -1 then 1 else 0
  {
    if Sign(b) == -1 then Add(a, Negate(b))
    else if a.Fin? && b.Fin? then Value(Fin(a.n - b.n))
    else if !a.PInf? && b.PInf? then Value(NInf)
    else if !a.Fin? && b.Fin? then Value(a)
    else if a.PInf? && b.PInf? then Value(PInf)
    else Panic
  }

  function Mul(a: Z, b: Z): (r: Z) {
    if a == Fin(0) || b == Fin(0) then Fin(0)
    else if !a.Fin? || !b.Fin? then (if Sign(a) * Sign(b) < 0 then NInf else PInf)
    else Fin(a.n * b.n)
  }

  /** Neither operation ever panics; on integers they are exact, and an infinite operand that is
      not opposed decides. */
  lemma NoPanic(a: Z, b: Z)
    ensures Add(a, b).Value? && Sub(a, b).Value?
    ensures a.Fin? && b.Fin? ==> Add(a, b) == Value(Fin(a.n + b.n)) && Sub(a, b) == Value(Fin(a.n - b.n))
    ensures (a.NInf? && !b.PInf?) || (!a.PInf? && b.NInf?) ==> Add(a, b) == Value(NInf)
    ensures (a.PInf? && !b.NInf?) || (!a.NInf? && b.PInf?) ==> Add(a, b) == Value(PInf)
    ensures (a.NInf? && !b.NInf?) || (!a.PInf? && b.PInf?) ==> Sub(a, b) == Value(NInf)
    ensures (a.PInf? && !b.PInf?) || (!a.NInf? && b.NInf?) ==> Sub(a, b) == Value(PInf)
  {
    if b.Fin? && b.n < 0 {
      assert Sign(Negate(b)) == 1;
    }
  }

  // ----- the least and the greatest of several -----

  function MaxOf(zs: seq<Z>): (r: Z)
    requires zs != []
    ensures r in zs && forall i :: 0 <= i < |zs| ==> Le(zs[i], r)
  {
    if |zs| == 1 then zs[0] else
    var init := zs[..|zs| - 1];
    var m := MaxOf(init);
    assert forall i :: 0 <= i < |init| ==> zs[i] == init[i];
    if Cmp(zs[|zs| - 1], m) == 1 then zs[|zs| - 1] else m
  }

  function MinOf(zs: seq<Z>): (r: Z)
    requires zs != []
    ensures r in zs && forall i :: 0 <= i < |zs| ==> Le(r, zs[i])
  {
    if |zs| == 1 then zs[0] else
    var init := zs[..|zs| - 1];
    var m := MinOf(init);
    assert forall i :: 0 <= i < |init| ==> zs[i] == init[i];
    if Cmp(zs[|zs| - 1], m) == -1 then zs[|zs| - 1] else m
  }

  method MaxZ(zs: seq<Z>) returns (r: Z)
    requires zs != []
    ensures r == MaxOf(zs)
  {
    r := zs[0];
    for i := 1 to |zs|
      invariant r == MaxOf(zs[..i])
    {
      assert zs[..i + 1][..i] == zs[..i];
      if Cmp(zs[i], r) == 1 { r := zs[i]; }
    }
    assert zs[..|zs|] == zs;
  }

  method MinZ(zs: seq<Z>) returns (r: Z)
    requires zs != []
    ensures r == MinOf(zs)
  {
    r := zs[0];
    for i := 1 to |zs|
      invariant r == MinOf(zs[..i])
    {
      assert zs[..i + 1][..i] == zs[..i];
      if Cmp(zs[i], r) == -1 { r := zs[i]; }
    }
    assert zs[..|zs|] == zs;
  }

  // ----- intervals -----

  datatype Interval = Unknown | Known(lower: Z, upper: Z)

  const EMPTY: Interval := Known(PInf, NInf)

  function New(l: Z, u: Z): (i: Interval) {
    if Cmp(u, l) == -1 then EMPTY else Known(l, u)
  }

  /** What New can make, or unknown. */
  predicate Proper(i: Interval) {
    i.Unknown? || i == EMPTY || Le(i.lower, i.upper)
  }

  predicate Has(i: Interval, n: int) {
    i.Known? && Le(i.lower, Fin(n)) && Le(Fin(n), i.upper)
  }

  /** The bounds of i are within those of j. */
  predicate Within(i: Interval, j: Interval) {
    i.Known? && j.Known? && Le(j.lower, i.lower) && Le(i.upper, j.upper)
  }

  function Intersection(i: Interval, j: Interval): (r: Interval) {
    if i.Unknown? then j
    else if j.Unknown? then i
    else if i == EMPTY || j == EMPTY then EMPTY
    else
      var k := New(MaxOf([i.lower, j.lower]), MinOf([i.upper, j.upper]));
      if Cmp(k.lower, k.upper) == 1 then EMPTY else k
  }

  function Union(i: Interval, j: Interval): (r: Interval) {
    if i == EMPTY || i.Unknown? then j
    else if j == EMPTY || j.Unknown? then i
    else New(MinOf([i.lower, j.lower]), MaxOf([i.upper, j.upper]))
  }

  function AddI(i: Interval, j: Interval): (r: Interval)
    requires i.Known? && j.Known?
  {
    if i == EMPTY || j == EMPTY then EMPTY else
    NoPanic(i.lower, j.lower);
    NoPanic(i.upper, j.upper);
    New(Add(i.lower, j.lower).z, Add(i.upper, j.upper).z)
  }

  function SubI(i: Interval, j: Interval): (r: Interval)
    requires i.Known? && j.Known?
  {
    if i == EMPTY || j == EMPTY then EMPTY else
    NoPanic(i.lower, j.upper);
    NoPanic(i.upper, j.lower);
    New(Sub(i.lower, j.upper).z, Sub(i.upper, j.lower).z)
  }

  function Corners(i: Interval, j: Interval): (zs: seq<Z>)
    requires i.Known? && j.Known?
  {
    [Mul(i.lower, j.lower), Mul(i.lower, j.upper), Mul(i.upper, j.lower), Mul(i.upper, j.upper)]
  }

  function MulI(i: Interval, j: Interval): (r: Interval)
    requires i.Known? && j.Known?
  {
    if i == EMPTY || j == EMPTY then EMPTY else New(MinOf(Corners(i, j)), MaxOf(Corners(i, j)))
  }

  /** Nothing added to, subtracted from or multiplied by no number is nothing. */
  lemma EmptyAbsorbs(i: Interval)
    requires i.Known?
    ensures AddI(EMPTY, i) == AddI(i, EMPTY) == EMPTY && SubI(EMPTY, i) == SubI(i, EMPTY) == EMPTY && MulI(EMPTY, i) == MulI(i, EMPTY) == EMPTY
  {
  }

  // ----- intersection and union -----

  /** Some integer lies between the bounds. */
  predicate Inhabited(i: Interval) {
    i.Known? && !i.lower.PInf? && !i.upper.NInf? && Le(i.lower, i.upper)
  }

  /** A member of i: the one nearest to c. */
  function Nearest(i: Interval, c: int): (n: int)
    requires Inhabited(i)
    ensures Has(i, n) && (Le(i.lower, Fin(c)) ==> n <= c) && (Le(Fin(c), i.upper) ==> c <= n)
  {
    if !Le(i.lower, Fin(c)) then i.lower.n else if !Le(Fin(c), i.upper) then i.upper.n else c
  }

  lemma InhabitedByMember(i: Interval, n: int)
    requires Has(i, n)
    ensures Inhabited(i)
  {
  }

  /** The bounds are the wrong way round, as in [0, -3]. */
  predicate Inverted(i: Interval) {
    i.Known? && !Le(i.lower, i.upper)
  }

  /** Every member of i is a member of k. */
  ghost predicate Covers(k: Interval, i: Interval) {
    forall n {:trigger Has(i, n)} :: Has(i, n) ==> Has(k, n)
  }

  lemma IntersectionExact(i: Interval, j: Interval, n: int)
    requires i.Known? && j.Known?
    ensures Has(Intersection(i, j), n) <==> Has(i, n) && Has(j, n)
    ensures Proper(Intersection(i, j))
  {
    if i != EMPTY && j != EMPTY {
      var l, u := MaxOf([i.lower, j.lower]), MinOf([i.upper, j.upper]);
      assert Le([i.lower, j.lower][0], l) && Le([i.lower, j.lower][1], l) && Le(u, [i.upper, j.upper][0]) && Le(u, [i.upper, j.upper][1]);
    }
  }

  /** What a union is, operand by operand; an unknown operand adds nothing. */
  lemma UnionBounds(i: Interval, j: Interval)
    ensures i.Unknown? || i == EMPTY ==> Union(i, j) == j
    ensures j.Unknown? || j == EMPTY ==> Union(i, j) == (if i.Unknown? || i == EMPTY then j else i)
    ensures i.Known? && j.Known? && i != EMPTY && j != EMPTY ==>
              exists l, u :: Union(i, j) == New(l, u) && l in {i.lower, j.lower} && u in {i.upper, j.upper}
                && Le(l, i.lower) && Le(l, j.lower) && Le(i.upper, u) && Le(j.upper, u)
  {
    if i.Known? && j.Known? && i != EMPTY && j != EMPTY {
      var l, u := MinOf([i.lower, j.lower]), MaxOf([i.upper, j.upper]);
      assert Le(l, [i.lower, j.lower][0]) && Le(l, [i.lower, j.lower][1]) && Le([i.upper, j.upper][0], u) && Le([i.upper, j.upper][1], u);
      assert Union(i, j) == New(l, u) && l in {i.lower, j.lower} && u in {i.upper, j.upper};
    }
  }

  lemma UnionCovers(i: Interval, j: Interval)
    ensures Covers(Union(i, j), i) && Covers(Union(i, j), j)
  {
    UnionBounds(i, j);
  }

  /** An operand without members does not stretch the other one; without any members at all, neither
      lower bound makes a member with the other upper bound. */
  predicate Snug(i: Interval, j: Interval) {
    if Inhabited(i) && Inhabited(j) then true
    else if Inhabited(j) then Within(i, j)
    else if Inhabited(i) then Within(j, i)
    else i.Known? && j.Known? ==> !Inhabited(Known(i.lower, j.upper)) && !Inhabited(Known(j.lower, i.upper))
  }

  /** The union has the members of both, and is the least interval that does exactly if the operands
      are snug. */
  lemma UnionLeast(i: Interval, j: Interval)
    requires i.Known? && j.Known?
    ensures Covers(Union(i, j), i) && Covers(Union(i, j), j)
    ensures IsHull(Union(i, j), [j, i]) <==> Snug(i, j)
  {
    var rs := [j, i];
    UnionCovers(i, j);
    PhiOfTwo(i, j);
    assert Snug(i, j) <==> Tight(rs) by { SnugIsTight(i, j); }
    if Tight(rs) {
      TightIsHull(rs);
    } else {
      var x, y :| x in rs && y in rs && !Met(rs, x, y);
      LooseFirst(rs, x, y);
    }
  }

  lemma SnugIsTight(i: Interval, j: Interval)
    requires i.Known? && j.Known?
    ensures Snug(i, j) <==> Tight([j, i])
  {
    var rs := [j, i];
    assert i in rs && j in rs && forall x :: x in rs ==> x == i || x == j;
    if Snug(i, j) {
      forall x, y | x in rs && y in rs ensures Met(rs, x, y) {
        if Inhabited(i) { assert Inhabited(i) && i in rs; }
        if Inhabited(j) { assert Inhabited(j) && j in rs; }
      }
    } else {
      assert !Met(rs, i, j) || !Met(rs, j, i) || !Met(rs, i, i) || !Met(rs, j, j);
    }
  }

  /** An inverted operand can stretch the union beyond the members, as a phi of two slices may meet. */
  lemma UnionTooWide()
    ensures Union(Known(Fin(0), Fin(-3)), Known(Fin(5), Fin(6))) == Known(Fin(0), Fin(6))
    ensures !Snug(Known(Fin(0), Fin(-3)), Known(Fin(5), Fin(6)))
  {
    UnionBounds(Known(Fin(0), Fin(-3)), Known(Fin(5), Fin(6)));
  }

  /** PhiConstraint.Eval: the union of the ranges of the operands, each united with those before it. */
  function PhiEval(rs: seq<Interval>): (r: Interval) {
    if rs == [] then EMPTY else Union(rs[|rs| - 1], PhiEval(rs[..|rs| - 1]))
  }

  method EvalPhi(rs: seq<Interval>) returns (r: Interval)
    ensures r == PhiEval(rs)
  {
    r := EMPTY;
    for k := 0 to |rs|
      invariant r == PhiEval(rs[..k])
    {
      assert rs[..k + 1][..k] == rs[..k];
      r := Union(rs[k], r);
    }
    assert rs[..|rs|] == rs;
  }

  /** u has the members of all the intervals. */
  ghost predicate CoversAll(u: Interval, rs: seq<Interval>) {
    forall r :: r in rs ==> Covers(u, r)
  }

  /** u is the least interval with the members of all the intervals. */
  ghost predicate IsHull(u: Interval, rs: seq<Interval>) {
    CoversAll(u, rs) && forall k :: CoversAll(k, rs) ==> Covers(k, u)
  }

  ghost predicate LowMet(rs: seq<Interval>, l: Z) {
    exists a :: a in rs && Inhabited(a) && Le(a.lower, l)
  }

  ghost predicate HighMet(rs: seq<Interval>, u: Z) {
    exists b :: b in rs && Inhabited(b) && Le(u, b.upper)
  }

  /** If the lower bound of x and the upper bound of y have something between them, then intervals
      with members reach as far. */
  ghost predicate Met(rs: seq<Interval>, x: Interval, y: Interval) {
    x.Known? && y.Known? && Inhabited(Known(x.lower, y.upper)) ==> LowMet(rs, x.lower) && HighMet(rs, y.upper)
  }

  /** No interval without members has a bound that counts. The order of the list does not matter. */
  ghost predicate Tight(rs: seq<Interval>) {
    forall x, y {:trigger Met(rs, x, y)} :: x in rs && y in rs ==> Met(rs, x, y)
  }

  /** A phi is known and covers its operands; unless it is empty, its bounds are bounds of operands. */
  lemma {:induction false} PhiCovers(rs: seq<Interval>)
    ensures PhiEval(rs).Known? && CoversAll(PhiEval(rs), rs)
    ensures PhiEval(rs) == EMPTY || exists x, y :: x in rs && y in rs && x.Known? && y.Known? && PhiEval(rs) == Known(x.lower, y.upper)
  {
    if rs != [] {
      var n := |rs| - 1;
      var i, j := rs[n], PhiEval(rs[..n]);
      PhiCovers(rs[..n]);
      UnionBounds(i, j);
      UnionCovers(i, j);
      assert rs == rs[..n] + [i];
      forall r | r in rs ensures Covers(PhiEval(rs), r) {
        if r != i { assert Covers(j, r); }
      }
      if PhiEval(rs) != EMPTY {
        PhiBounds(rs, i, j);
      }
    }
  }

  lemma PhiBounds(rs: seq<Interval>, i: Interval, j: Interval)
    requires rs != [] && i == rs[|rs| - 1] && j == PhiEval(rs[..|rs| - 1]) && j.Known? && PhiEval(rs) != EMPTY
    requires j == EMPTY || exists x, y :: x in rs[..|rs| - 1] && y in rs[..|rs| - 1] && x.Known? && y.Known? && j == Known(x.lower, y.upper)
    ensures exists x, y :: x in rs && y in rs && x.Known? && y.Known? && PhiEval(rs) == Known(x.lower, y.upper)
  {
    UnionBounds(i, j);
    var u := PhiEval(rs);
    assert i in rs && u == Union(i, j);
    if j == EMPTY {
      assert u == i == Known(i.lower, i.upper);
    } else {
      var x, y :| x in rs[..|rs| - 1] && y in rs[..|rs| - 1] && x.Known? && y.Known? && j == Known(x.lower, y.upper);
      assert x in rs && y in rs;
      if i.Known? && i != EMPTY {
        var x' := if u.lower == i.lower then i else x;
        var y' := if u.upper == i.upper then i else y;
        assert u == Known(x'.lower, y'.upper) && x' in rs && y' in rs;
      } else {
        assert u == Known(x.lower, y.upper);
      }
    }
  }

  lemma Convex(k: Interval, a: int, n: int, b: int)
    requires Has(k, a) && Has(k, b) && a <= n <= b
    ensures Has(k, n)
  {
  }

  lemma TightIsHull(rs: seq<Interval>)
    requires Tight(rs)
    ensures IsHull(PhiEval(rs), rs)
  {
    PhiCovers(rs);
    var u := PhiEval(rs);
    forall k | CoversAll(k, rs) ensures Covers(k, u) {
      forall n | Has(u, n) ensures Has(k, n) {
        var x, y :| x in rs && y in rs && x.Known? && y.Known? && u == Known(x.lower, y.upper);
        assert Met(rs, x, y);
        var a :| a in rs && Inhabited(a) && Le(a.lower, x.lower);
        var b :| b in rs && Inhabited(b) && Le(y.upper, b.upper);
        assert Covers(k, a) && Covers(k, b);
        Convex(k, Nearest(a, n), n, Nearest(b, n));
      }
    }
  }

  /** An integer below all finite lower bounds. */
  ghost function Under(rs: seq<Interval>): (m: int)
    ensures forall r :: r in rs && r.Known? && r.lower.Fin? ==> m < r.lower.n
  {
    if rs == [] then 0 else
    var n := |rs| - 1;
    var m, r := Under(rs[..n]), rs[n];
    assert rs == rs[..n] + [r];
    if r.Known? && r.lower.Fin? && r.lower.n <= m then r.lower.n - 1 else m
  }

  ghost function Over(rs: seq<Interval>): (m: int)
    ensures forall r :: r in rs && r.Known? && r.upper.Fin? ==> r.upper.n < m
  {
    if rs == [] then 0 else
    var n := |rs| - 1;
    var m, r := Over(rs[..n]), rs[n];
    assert rs == rs[..n] + [r];
    if r.Known? && r.upper.Fin? && m <= r.upper.n then r.upper.n + 1 else m
  }

  /** An interval that reaches beyond all members is not the hull. */
  lemma BeyondIsNotHull(u: Interval, rs: seq<Interval>, x: Interval, y: Interval)
    requires x.Known? && y.Known? && !Met(rs, x, y) && Within(Known(x.lower, y.upper), u)
    ensures !IsHull(u, rs)
  {
    var v := Known(x.lower, y.upper);
    if !LowMet(rs, x.lower) {
      var m := if x.lower.Fin? then x.lower.n else Nearest(v, Under(rs));
      assert Has(v, m) && Has(u, m);
      var k := Known(Fin(m + 1), PInf);
      forall r | r in rs ensures Covers(k, r) {
        forall n | Has(r, n) ensures Has(k, n) {
          InhabitedByMember(r, n);
          assert !Le(r.lower, x.lower);
        }
      }
      assert CoversAll(k, rs) && !Has(k, m);
    } else {
      var m := if y.upper.Fin? then y.upper.n else Nearest(v, Over(rs));
      assert Has(v, m) && Has(u, m);
      var k := Known(NInf, Fin(m - 1));
      forall r | r in rs ensures Covers(k, r) {
        forall n | Has(r, n) ensures Has(k, n) {
          InhabitedByMember(r, n);
          assert !Le(y.upper, r.upper);
        }
      }
      assert CoversAll(k, rs) && !Has(k, m);
    }
  }

  /** Once the union has members, its bounds only move apart. */
  lemma {:induction false} PhiGrows(rs: seq<Interval>, v: Interval, n: nat)
    requires Inhabited(v) && n <= |rs| && Within(v, PhiEval(rs[..n]))
    ensures Within(v, PhiEval(rs))
    decreases |rs| - n
  {
    if n < |rs| {
      assert rs[..n + 1][..n] == rs[..n];
      UnionBounds(rs[n], PhiEval(rs[..n]));
      PhiGrows(rs, v, n + 1);
    } else {
      assert rs[..n] == rs;
    }
  }

  lemma PhiOfTwo(i: Interval, j: Interval)
    ensures PhiEval([j, i]) == Union(i, if j.Known? then j else EMPTY)
  {
    assert [j, i][..1] == [j] && [j][..0] == [];
    assert PhiEval([j]) == Union(j, EMPTY);
  }

  lemma PairReaches(i: Interval, j: Interval, x: Interval, y: Interval)
    requires x != y && x in [j, i] && y in [j, i] && x.Known? && y.Known? && Inhabited(Known(x.lower, y.upper))
    ensures Within(Known(x.lower, y.upper), Union(i, j))
  {
    UnionBounds(i, j);
  }

  /** If two operands that are not met come first, the phi is not the hull. */
  lemma LooseFirst(rs: seq<Interval>, x: Interval, y: Interval)
    requires |rs| >= 2 && x in rs[..2] && y in rs[..2] && !Met(rs, x, y)
    ensures !IsHull(PhiEval(rs), rs)
  {
    assert x in rs && y in rs;
    var i, j := rs[1], rs[0];
    assert rs[..2] == [j, i];
    assert x in [j, i] && y in [j, i];
    PhiOfTwo(i, j);
    PairReaches(i, j, x, y);
    PhiGrows(rs, Known(x.lower, y.upper), 2);
    BeyondIsNotHull(PhiEval(rs), rs, x, y);
  }

  lemma Without(rs: seq<Interval>, x: Interval) returns (rest: seq<Interval>)
    requires x in rs
    ensures multiset(rs) == multiset{x} + multiset(rest)
  {
    var i :| 0 <= i < |rs| && rs[i] == x;
    rest := rs[..i] + rs[i + 1..];
    assert rs == rs[..i] + [x] + rs[i + 1..];
  }

  /** The same operands with x and y in front. */
  lemma InFront(rs: seq<Interval>, x: Interval, y: Interval) returns (os: seq<Interval>)
    requires x in rs && y in rs && x != y
    ensures multiset(os) == multiset(rs) && |os| >= 2 && os[0] == x && os[1] == y
  {
    var rest := Without(rs, x);
    assert y in multiset(rs);
    var tail := Without(rest, y);
    os := [x, y] + tail;
    assert multiset(os) == multiset{x} + multiset{y} + multiset(tail);
  }

  lemma TightAnyOrder(rs: seq<Interval>, os: seq<Interval>)
    requires multiset(os) == multiset(rs)
    ensures forall x, y :: Met(os, x, y) <==> Met(rs, x, y)
    ensures Tight(os) <==> Tight(rs)
  {
    assert forall x :: x in os <==> x in multiset(os);
    assert forall x :: x in rs <==> x in multiset(rs);
    forall x, y ensures Met(os, x, y) <==> Met(rs, x, y) {
    }
  }

  /** A phi covers its operands. In whatever order its operands are taken, it is the least interval
      that does exactly if they are tight. */
  lemma PhiLeast(rs: seq<Interval>)
    ensures CoversAll(PhiEval(rs), rs)
    ensures (forall os :: multiset(os) == multiset(rs) ==> IsHull(PhiEval(os), os)) <==> Tight(rs)
  {
    PhiCovers(rs);
    if Tight(rs) {
      forall os | multiset(os) == multiset(rs) ensures IsHull(PhiEval(os), os) {
        TightAnyOrder(rs, os);
        TightIsHull(os);
      }
    } else {
      var x, y :| x in rs && y in rs && !Met(rs, x, y);
      assert x != y;
      var os := InFront(rs, x, y);
      TightAnyOrder(rs, os);
      LooseFirst(os, x, y);
    }
  }

  /** With inverted operands the order can decide: [3, 1] and [5, 2] before [10, 11], or after it. */
  lemma PhiOrderMatters()
    ensures var a, b, c := Known(Fin(3), Fin(1)), Known(Fin(5), Fin(2)), Known(Fin(10), Fin(11));
      PhiEval([a, b, c]) == Known(Fin(10), Fin(11)) && PhiEval([c, a, b]) == Known(Fin(3), Fin(11))
  {
    var a, b, c := Known(Fin(3), Fin(1)), Known(Fin(5), Fin(2)), Known(Fin(10), Fin(11));
    assert [a, b, c][..2] == [a, b] && [c, a, b][..2] == [c, a];
    PhiOfTwo(b, a);
    PhiOfTwo(a, c);
    UnionBounds(b, a);
    UnionBounds(a, c);
    UnionBounds(b, Known(Fin(3), Fin(11)));
  }

  // ----- sums and differences -----

  /** The lower end of an interval with a member m: a member, or nothing bounds the members below. */
  lemma LowEnd(i: Interval, m: int, c: int)
    requires Has(i, m)
    ensures !i.lower.PInf? && !i.upper.NInf? && (i.lower.Fin? ==> Has(i, i.lower.n)) && (i.upper.Fin? ==> Has(i, i.upper.n))
    ensures i.lower.NInf? ==> Has(i, if m < c then m else c)
    ensures i.upper.PInf? ==> Has(i, if m > c then m else c)
  {
  }

  lemma AddContains(i: Interval, j: Interval, a: int, b: int)
    requires Has(i, a) && Has(j, b)
    ensures Has(AddI(i, j), a + b)
  {
    NoPanic(i.lower, j.lower);
    NoPanic(i.upper, j.upper);
  }

  /** The sum is within every interval that contains all sums of members. */
  lemma AddLeast(i: Interval, j: Interval, k: Interval, m: int, p: int)
    requires Has(i, m) && Has(j, p)
    requires forall a, b {:trigger Has(i, a), Has(j, b)} :: Has(i, a) && Has(j, b) ==> Has(k, a + b)
    ensures Within(AddI(i, j), k)
  {
    AddContains(i, j, m, p);
    assert Has(k, m + p);
    NoPanic(i.lower, j.lower);
    NoPanic(i.upper, j.upper);
    var cl := if k.lower.Fin? then k.lower.n else 0;
    var cu := if k.upper.Fin? then k.upper.n else 0;
    LowEnd(i, m, cl - p - 1);
    LowEnd(j, p, cl - m - 1);
    LowEnd(i, m, cu - p + 1);
    LowEnd(j, p, cu - m + 1);
  }

  lemma SubContains(i: Interval, j: Interval, a: int, b: int)
    requires Has(i, a) && Has(j, b)
    ensures Has(SubI(i, j), a - b)
  {
    NoPanic(i.lower, j.upper);
    NoPanic(i.upper, j.lower);
  }

  lemma SubLeast(i: Interval, j: Interval, k: Interval, m: int, p: int)
    requires Has(i, m) && Has(j, p)
    requires forall a, b {:trigger Has(i, a), Has(j, b)} :: Has(i, a) && Has(j, b) ==> Has(k, a - b)
    ensures Within(SubI(i, j), k)
  {
    SubContains(i, j, m, p);
    assert Has(k, m - p);
    NoPanic(i.lower, j.upper);
    NoPanic(i.upper, j.lower);
    var cl := if k.lower.Fin? then k.lower.n else 0;
    var cu := if k.upper.Fin? then k.upper.n else 0;
    LowEnd(i, m, cl + p - 1);
    LowEnd(j, p, m - cl + 1);
    LowEnd(i, m, cu + p + 1);
    LowEnd(j, p, m - cu - 1);
  }

  // ----- products -----

  lemma TimesMono(a: int, b: int, y: int)
    requires a <= b
    ensures y >= 0 ==> a * y <= b * y
    ensures y <= 0 ==> b * y <= a * y
  {
    if y >= 0 {
      assert (b - a) * y >= 0;
    } else {
      assert (b - a) * (-y) >= 0;
    }
  }

  lemma MulCommutes(a: Z, b: Z)
    ensures Mul(a, b) == Mul(b, a)
  {
  }

  /** For a fixed second factor the product is monotone or antitone in the first. */
  lemma MulMonotone(a: Z, b: Z, y: Z)
    requires Le(a, b)
    ensures Sign(y) >= 0 ==> Le(Mul(a, y), Mul(b, y))
    ensures Sign(y) <= 0 ==> Le(Mul(b, y), Mul(a, y))
  {
    if a.Fin? && b.Fin? && y.Fin? {
      TimesMono(a.n, b.n, y.n);
    }
  }

  lemma MulFin(a: int, b: int)
    ensures Mul(Fin(a), Fin(b)) == Fin(a * b)
  {
  }

  /** A product of members lies between two corners. */
  lemma BetweenCorners(i: Interval, j: Interval, a: int, b: int, l: Z, u: Z)
    requires Has(i, a) && Has(j, b)
    requires Le(l, Mul(i.lower, j.lower)) && Le(l, Mul(i.lower, j.upper)) && Le(l, Mul(i.upper, j.lower)) && Le(l, Mul(i.upper, j.upper))
    requires Le(Mul(i.lower, j.lower), u) && Le(Mul(i.lower, j.upper), u) && Le(Mul(i.upper, j.lower), u) && Le(Mul(i.upper, j.upper), u)
    ensures Le(l, Mul(Fin(a), Fin(b))) && Le(Mul(Fin(a), Fin(b)), u)
  {
    var y := Fin(b);
    MulSide(i.lower, j, b);
    MulSide(i.upper, j, b);
    LeThrough(l, Mul(i.lower, j.lower), Mul(i.lower, j.upper), Mul(i.lower, y), u);
    LeThrough(l, Mul(i.upper, j.lower), Mul(i.upper, j.upper), Mul(i.upper, y), u);
    MulMonotone(i.lower, Fin(a), y);
    MulMonotone(Fin(a), i.upper, y);
    LeThrough(l, Mul(i.lower, y), Mul(i.upper, y), Mul(Fin(a), y), u);
  }

  lemma MulContains(i: Interval, j: Interval, a: int, b: int)
    requires Has(i, a) && Has(j, b)
    ensures Has(MulI(i, j), a * b)
  {
    var l, u := MinOf(Corners(i, j)), MaxOf(Corners(i, j));
    CornersBound(i, j, l, u);
    BetweenCorners(i, j, a, b, l, u);
    MulFin(a, b);
    InNew(l, u, a * b);
  }

  lemma InNew(l: Z, u: Z, n: int)
    requires Le(l, Fin(n)) && Le(Fin(n), u)
    ensures Has(New(l, u), n)
  {
  }

  lemma CornersBound(i: Interval, j: Interval, l: Z, u: Z)
    requires i.Known? && j.Known? && l == MinOf(Corners(i, j)) && u == MaxOf(Corners(i, j))
    ensures Le(l, Mul(i.lower, j.lower)) && Le(l, Mul(i.lower, j.upper)) && Le(l, Mul(i.upper, j.lower)) && Le(l, Mul(i.upper, j.upper))
    ensures Le(Mul(i.lower, j.lower), u) && Le(Mul(i.lower, j.upper), u) && Le(Mul(i.upper, j.lower), u) && Le(Mul(i.upper, j.upper), u)
  {
    var zs := Corners(i, j);
    assert Le(l, zs[0]) && Le(l, zs[1]) && Le(l, zs[2]) && Le(l, zs[3]);
    assert Le(zs[0], u) && Le(zs[1], u) && Le(zs[2], u) && Le(zs[3], u);
  }

  /** What lies between x and y, in either order, lies between l and u. */
  lemma LeThrough(l: Z, x: Z, y: Z, z: Z, u: Z)
    requires Le(l, x) && Le(l, y) && Le(x, u) && Le(y, u)
    requires (Le(x, z) || Le(y, z)) && (Le(z, x) || Le(z, y))
    ensures Le(l, z) && Le(z, u)
  {
  }

  lemma MulSide(x: Z, j: Interval, b: int)
    requires Has(j, b)
    ensures Le(Mul(x, j.lower), Mul(x, Fin(b))) || Le(Mul(x, j.upper), Mul(x, Fin(b)))
    ensures Le(Mul(x, Fin(b)), Mul(x, j.lower)) || Le(Mul(x, Fin(b)), Mul(x, j.upper))
  {
    MulCommutes(x, j.lower);
    MulCommutes(x, j.upper);
    MulCommutes(x, Fin(b));
    MulMonotone(j.lower, Fin(b), x);
    MulMonotone(Fin(b), j.upper, x);
  }

  /** A member of i as far out as n, on the side of the end x. */
  function FarMember(i: Interval, x: Z, m: int, n: int): (a: int)
    requires n >= 0 && Has(i, m) && (x == i.lower || x == i.upper)
    ensures Has(i, a) && (x.Fin? ==> a == x.n) && (x.PInf? ==> a >= n) && (x.NInf? ==> a <= -n)
  {
    match x
    case Fin(v) => v
    case PInf => if m >= n then m else n
    case NInf => if m <= -n then m else -n
  }

  lemma FarProduct(a: int, b: int, n: int)
    requires n >= 0 && (a >= n || a <= -n) && b != 0
    ensures (a > 0) == (b > 0) && a != 0 ==> a * b >= n
    ensures (a > 0) != (b > 0) && a != 0 ==> a * b <= -n
  {
    if b > 0 {
      TimesMono(1, b, a);
    } else {
      TimesMono(b, -1, a);
    }
  }

  /** A corner with an infinite factor that is not zero: products go beyond every integer c there. */
  lemma CornerFar(x: Z, y: Z, a: int, b: int, n: int, c: int)
    requires (!x.Fin? || !y.Fin?) && x != Fin(0) && y != Fin(0) && n >= 1 && -n < c < n
    requires (x.Fin? ==> a == x.n) && (x.PInf? ==> a >= n) && (x.NInf? ==> a <= -n)
    requires (y.Fin? ==> b == y.n) && (y.PInf? ==> b >= n) && (y.NInf? ==> b <= -n)
    ensures Mul(x, y) == if Sign(x) == Sign(y) then PInf else NInf
    ensures if Sign(x) == Sign(y) then a * b > c else a * b < c
  {
    if !x.Fin? {
      FarProduct(a, b, n);
    } else {
      FarProduct(b, a, n);
      assert a * b == b * a;
    }
  }

  /** If a and b are members, k has their product. */
  predicate ProductIn(i: Interval, j: Interval, k: Interval, a: int, b: int) {
    Has(i, a) && Has(j, b) ==> Has(k, a * b)
  }

  /** Every corner is within what contains all products. */
  lemma CornerWithin(i: Interval, j: Interval, k: Interval, x: Z, y: Z, m: int, p: int)
    requires Has(i, m) && Has(j, p) && (x == i.lower || x == i.upper) && (y == j.lower || y == j.upper)
    requires forall a, b :: ProductIn(i, j, k, a, b)
    ensures k.Known? && Le(k.lower, Mul(x, y)) && Le(Mul(x, y), k.upper)
  {
    assert ProductIn(i, j, k, m, p);
    var cl := if k.lower.Fin? then k.lower.n else 0;
    var cu := if k.upper.Fin? then k.upper.n else 0;
    var n := 1 + (if cl < 0 then -cl else cl) + (if cu < 0 then -cu else cu);
    var a, b := FarMember(i, x, m, n), FarMember(j, y, p, n);
    var ab := a * b;
    assert ProductIn(i, j, k, a, b);
    if x.Fin? && y.Fin? {
      MulFin(a, b);
    } else if x == Fin(0) || y == Fin(0) {
      assert ab == 0;
    } else {
      CornerFar(x, y, a, b, n, cl);
      CornerFar(x, y, a, b, n, cu);
    }
  }

  /** All corners are between the bounds of k. */
  predicate CornersIn(zs: seq<Z>, k: Interval) {
    k.Known? && forall t :: 0 <= t < |zs| ==> Le(k.lower, zs[t]) && Le(zs[t], k.upper)
  }

  lemma CornersWithin(i: Interval, j: Interval, k: Interval, m: int, p: int)
    requires Has(i, m) && Has(j, p) && forall a, b :: ProductIn(i, j, k, a, b)
    ensures CornersIn(Corners(i, j), k)
  {
    CornerWithin(i, j, k, i.lower, j.lower, m, p);
    CornerWithin(i, j, k, i.lower, j.upper, m, p);
    CornerWithin(i, j, k, i.upper, j.lower, m, p);
    CornerWithin(i, j, k, i.upper, j.upper, m, p);
  }

  /** The product is within every interval that contains all products of members. */
  lemma MulLeast(i: Interval, j: Interval, k: Interval, m: int, p: int)
    requires Has(i, m) && Has(j, p) && forall a, b :: ProductIn(i, j, k, a, b)
    ensures Within(MulI(i, j), k)
  {
    MulContains(i, j, m, p);
    CornersWithin(i, j, k, m, p);
    CornersSuffice(i, j, k, m * p);
  }

  lemma CornersSuffice(i: Interval, j: Interval, k: Interval, n: int)
    requires i.Known? && j.Known? && Has(MulI(i, j), n) && CornersIn(Corners(i, j), k)
    ensures Within(MulI(i, j), k)
  {
    EndsWithin(Corners(i, j), k);
    NewWithin(MinOf(Corners(i, j)), MaxOf(Corners(i, j)), k, n);
  }

  lemma EndsWithin(zs: seq<Z>, k: Interval)
    requires k.Known? && zs != [] && forall t :: 0 <= t < |zs| ==> Le(k.lower, zs[t]) && Le(zs[t], k.upper)
    ensures Le(k.lower, MinOf(zs)) && Le(MaxOf(zs), k.upper)
  {
    var s :| 0 <= s < |zs| && zs[s] == MinOf(zs);
    var t :| 0 <= t < |zs| && zs[t] == MaxOf(zs);
  }

  lemma NewWithin(l: Z, u: Z, k: Interval, n: int)
    requires k.Known? && Le(k.lower, l) && Le(u, k.upper) && Has(New(l, u), n)
    ensures Within(New(l, u), k)
  {
  }
}
