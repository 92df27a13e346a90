/** The widening worklist of value range propagation on one strongly connected component. */
module Widening {
  import opened Paths
  import opened Intervals

  // ----- widening one interval -----

  /** The first constant that is at most z, or minus infinity. */
  function LowConst(consts: seq<Z>, z: Z): (c: Z)
    ensures Le(c, z) && (c.NInf? || c in consts)
  {
    if consts == [] then NInf else if Cmp(consts[0], z) <= 0 then consts[0] else LowConst(consts[1..], z)
  }

  /** The first constant that is at least z, or infinity. */
  function HighConst(consts: seq<Z>, z: Z): (c: Z)
    ensures Le(z, c) && (c.PInf? || c in consts)
  {
    if consts == [] then PInf else if Cmp(consts[0], z) >= 0 then consts[0] else HighConst(consts[1..], z)
  }

  datatype Widened = Widened(i: Interval, changed: bool)

  /** The new range of a variable with range oi when a constraint evaluates to ni. */
  method WidenIntInterval(oi: Interval, ni: Interval, consts: seq<Z>) returns (r: Widened)
    ensures r == WidenedTo(oi, ni, consts)
    ensures ni.Unknown? ==> r == Widened(oi, false)
    ensures ni.Known? && oi.Unknown? ==> r == Widened(ni, true)
    ensures ni.Known? && oi.Known? && Le(oi.lower, ni.lower) && Le(ni.upper, oi.upper) ==> r == Widened(oi, false)
    ensures ni.Known? && oi.Known? && !(Le(oi.lower, ni.lower) && Le(ni.upper, oi.upper)) ==>
              r.changed && WidenedBy(oi, ni, consts, r.i)
  {
    WidenedBounds(oi, ni, consts);
    if ni.Unknown? { return Widened(oi, false); }
    var nlc, nuc := NInf, PInf;
    var k := 0;
    while k < |consts|
      invariant k <= |consts| && nlc.NInf? && LowConst(consts[k..], ni.lower) == LowConst(consts, ni.lower)
    {
      if Cmp(consts[k], ni.lower) <= 0 { nlc := consts[k]; break; }
      k := k + 1;
    }
    k := 0;
    while k < |consts|
      invariant k <= |consts| && nuc.PInf? && HighConst(consts[k..], ni.upper) == HighConst(consts, ni.upper)
    {
      if Cmp(consts[k], ni.upper) >= 0 { nuc := consts[k]; break; }
      k := k + 1;
    }
    if oi.Unknown? { return Widened(ni, true); }
    if Cmp(ni.lower, oi.lower) == -1 && Cmp(ni.upper, oi.upper) == 1 { return Widened(New(nlc, nuc), true); }
    if Cmp(ni.lower, oi.lower) == -1 { return Widened(New(nlc, oi.upper), true); }
    if Cmp(ni.upper, oi.upper) == 1 { return Widened(New(oi.lower, nuc), true); }
    return Widened(oi, false);
  }

  /** c is the first constant that is at most z, or minus infinity if there is none. */
  ghost predicate FirstBelow(consts: seq<Z>, z: Z, c: Z) {
    if exists k :: 0 <= k < |consts| && Le(consts[k], z)
    then exists k :: 0 <= k < |consts| && consts[k] == c && Le(c, z) && forall j :: 0 <= j < k ==> !Le(consts[j], z)
    else c.NInf?
  }

  /** c is the first constant that is at least z, or infinity if there is none. */
  ghost predicate FirstAbove(consts: seq<Z>, z: Z, c: Z) {
    if exists k :: 0 <= k < |consts| && Le(z, consts[k])
    then exists k :: 0 <= k < |consts| && consts[k] == c && Le(z, c) && forall j :: 0 <= j < k ==> !Le(z, consts[j])
    else c.PInf?
  }

  /** i has the bounds of oi, moved out to the first constants beyond those bounds of ni that exceed them. */
  ghost predicate WidenedBy(oi: Interval, ni: Interval, consts: seq<Z>, i: Interval)
    requires oi.Known? && ni.Known?
  {
    exists l, u ::
      && i == (if Le(l, u) then Known(l, u) else EMPTY)
      && (if Le(oi.lower, ni.lower) then l == oi.lower else FirstBelow(consts, ni.lower, l))
      && (if Le(ni.upper, oi.upper) then u == oi.upper else FirstAbove(consts, ni.upper, u))
  }

  lemma {:induction false} LowConstIsFirst(consts: seq<Z>, z: Z)
    ensures FirstBelow(consts, z, LowConst(consts, z))
  {
    if consts != [] {
      var rest := consts[1..];
      if Le(consts[0], z) {
        assert consts[0] == LowConst(consts, z);
      } else {
        LowConstIsFirst(rest, z);
        assert forall k :: 0 <= k < |rest| ==> rest[k] == consts[k + 1];
        if k :| 0 <= k < |rest| && Le(rest[k], z) {
          var m :| 0 <= m < |rest| && rest[m] == LowConst(rest, z) && forall j :: 0 <= j < m ==> !Le(rest[j], z);
          assert consts[m + 1] == LowConst(consts, z);
          forall j | 0 <= j < m + 1 ensures !Le(consts[j], z) { assert j > 0 ==> consts[j] == rest[j - 1]; }
        } else {
          forall k | 0 <= k < |consts| ensures !Le(consts[k], z) { assert k > 0 ==> consts[k] == rest[k - 1]; }
        }
      }
    }
  }

  lemma {:induction false} HighConstIsFirst(consts: seq<Z>, z: Z)
    ensures FirstAbove(consts, z, HighConst(consts, z))
  {
    if consts != [] {
      var rest := consts[1..];
      if Le(z, consts[0]) {
        assert consts[0] == HighConst(consts, z);
      } else {
        HighConstIsFirst(rest, z);
        assert forall k :: 0 <= k < |rest| ==> rest[k] == consts[k + 1];
        if k :| 0 <= k < |rest| && Le(z, rest[k]) {
          var m :| 0 <= m < |rest| && rest[m] == HighConst(rest, z) && forall j :: 0 <= j < m ==> !Le(z, rest[j]);
          assert consts[m + 1] == HighConst(consts, z);
          forall j | 0 <= j < m + 1 ensures !Le(z, consts[j]) { assert j > 0 ==> consts[j] == rest[j - 1]; }
        } else {
          forall k | 0 <= k < |consts| ensures !Le(z, consts[k]) { assert k > 0 ==> consts[k] == rest[k - 1]; }
        }
      }
    }
  }

  /** What the new bounds are, constant by constant. */
  lemma WidenedBounds(oi: Interval, ni: Interval, consts: seq<Z>)
    ensures var r := WidenedTo(oi, ni, consts);
      && (ni.Known? && oi.Known? && Le(oi.lower, ni.lower) && Le(ni.upper, oi.upper) ==> r == Widened(oi, false))
      && (ni.Known? && oi.Known? && !(Le(oi.lower, ni.lower) && Le(ni.upper, oi.upper)) ==>
           r.changed && WidenedBy(oi, ni, consts, r.i))
  {
    if ni.Known? && oi.Known? {
      LowConstIsFirst(consts, ni.lower);
      HighConstIsFirst(consts, ni.upper);
      var l := if Cmp(ni.lower, oi.lower) == -1 then LowConst(consts, ni.lower) else oi.lower;
      var u := if Cmp(ni.upper, oi.upper) == 1 then HighConst(consts, ni.upper) else oi.upper;
      assert New(l, u) == if Le(l, u) then Known(l, u) else EMPTY;
    }
  }

  /** Among sorted constants the first one at least z is the least one at least z. */
  lemma FirstAboveIsLeast(consts: seq<Z>, z: Z, c: Z)
    requires Sorted(consts) && FirstAbove(consts, z, c)
    ensures Le(z, c) && forall k :: 0 <= k < |consts| && Le(z, consts[k]) ==> Le(c, consts[k])
  {
  }

  function WidenedTo(oi: Interval, ni: Interval, consts: seq<Z>): (r: Widened) {
    if ni.Unknown? then Widened(oi, false)
    else if oi.Unknown? then Widened(ni, true)
    else
      var l := if Cmp(ni.lower, oi.lower) == -1 then LowConst(consts, ni.lower) else oi.lower;
      var u := if Cmp(ni.upper, oi.upper) == 1 then HighConst(consts, ni.upper) else oi.upper;
      if l == oi.lower && u == oi.upper then Widened(oi, false) else Widened(New(l, u), true)
  }

  /** As the source sorts the constants. */
  ghost predicate Sorted(consts: seq<Z>) {
    forall i, j :: 0 <= i < j < |consts| ==> Le(consts[i], consts[j])
  }

  /** i is inverted or its bounds are within those of j. */
  predicate Contained(i: Interval, j: Interval) {
    i.Known? && j.Known? && (Inverted(i) || Within(i, j))
  }

  lemma ContainedMembers(i: Interval, j: Interval, n: int)
    requires Contained(i, j) && Has(i, n)
    ensures Has(j, n)
  {
  }

  lemma ContainedOn(i: Interval, j: Interval, k: Interval)
    requires Contained(i, j) && Contained(j, k)
    ensures Contained(i, k)
  {
  }

  /** A result that an empty range does not absorb: one infinite end on the wrong side, the other
      end finite, and a constant beyond the finite end. */
  predicate Spins(consts: seq<Z>, ni: Interval) {
    ni.Known? &&
    ((ni.upper.NInf? && ni.lower.Fin? && !LowConst(consts, ni.lower).NInf?)
     || (ni.lower.PInf? && ni.upper.Fin? && !HighConst(consts, ni.upper).PInf?))
  }

  /** How many of the constants are below l, counting minus infinity. */
  ghost function LowRank(consts: seq<Z>, l: Z): (n: nat) {
    if consts == [] then (if l.NInf? then 0 else 1) else LowRank(consts[1..], l) + (if Le(l, consts[0]) then 0 else 1)
  }

  ghost function HighRank(consts: seq<Z>, u: Z): (n: nat) {
    if consts == [] then (if u.PInf? then 0 else 1) else HighRank(consts[1..], u) + (if Le(consts[0], u) then 0 else 1)
  }

  /** A bound on how often the range can still change: unknown, then perhaps inverted, then perhaps
      empty, then growing from constant to constant. */
  ghost function Rank(consts: seq<Z>, i: Interval): (n: nat) {
    if i.Unknown? then 2 * |consts| + 5
    else if i == EMPTY then 2 * |consts| + 3
    else if Inverted(i) then 2 * |consts| + 4
    else LowRank(consts, i.lower) + HighRank(consts, i.upper)
  }

  lemma {:induction false} LowRankDrops(consts: seq<Z>, l: Z, l': Z)
    requires Le(l', l)
    ensures LowRank(consts, l') <= LowRank(consts, l) <= |consts| + 1
    ensures l' != l && (l'.NInf? || l' in consts) ==> LowRank(consts, l') < LowRank(consts, l)
  {
    if consts != [] {
      LowRankDrops(consts[1..], l, l');
      assert l' in consts ==> l' == consts[0] || l' in consts[1..];
    }
  }

  lemma {:induction false} HighRankDrops(consts: seq<Z>, u: Z, u': Z)
    requires Le(u, u')
    ensures HighRank(consts, u') <= HighRank(consts, u) <= |consts| + 1
    ensures u' != u && (u'.PInf? || u' in consts) ==> HighRank(consts, u') < HighRank(consts, u)
  {
    if consts != [] {
      HighRankDrops(consts[1..], u, u');
      assert u' in consts ==> u' == consts[0] || u' in consts[1..];
    }
  }

  /** Whatever the bounds of ni, the constants picked for them are in order. */
  lemma ConstsInOrder(consts: seq<Z>, l: Z, u: Z)
    requires Sorted(consts)
    ensures Le(LowConst(consts, l), HighConst(consts, u))
  {
    var a, b := LowConst(consts, l), HighConst(consts, u);
    if !a.NInf? && !b.PInf? {
      FirstLow(consts, l);
      var j :| 0 <= j < |consts| && consts[j] == b;
    }
  }

  /** In sorted constants the first one at most z is the first of all. */
  lemma {:induction false} FirstLow(consts: seq<Z>, z: Z)
    requires Sorted(consts)
    ensures LowConst(consts, z).NInf? || LowConst(consts, z) == consts[0]
  {
    if consts != [] && !Le(consts[0], z) {
      FirstLow(consts[1..], z);
      assert |consts| > 1 ==> Le(consts[0], consts[1]);
    }
  }

  /** widen reports a change and leaves the range as it was exactly if the range is empty and the
      result spins. */
  lemma SpinExact(oi: Interval, ni: Interval, consts: seq<Z>)
    requires Sorted(consts)
    ensures WidenedTo(oi, ni, consts) == Widened(oi, true) <==> oi == EMPTY && Spins(consts, ni)
  {
    if oi.Known? && ni.Known? {
      ConstsInOrder(consts, ni.lower, ni.upper);
    }
  }

  /** Widening covers the old and the new range; a change uses up some rank unless it spins, and no
      change means that the new range was covered. */
  lemma WidenCovers(oi: Interval, ni: Interval, consts: seq<Z>)
    requires Sorted(consts)
    ensures var r := WidenedTo(oi, ni, consts);
      && (oi.Known? ==> Contained(oi, r.i)) && (ni.Known? ==> Contained(ni, r.i)) && (!r.changed ==> r.i == oi)
      && (r.changed && !(oi == EMPTY && Spins(consts, ni)) ==> Rank(consts, r.i) < Rank(consts, oi))
  {
    SpinExact(oi, ni, consts);
    if ni.Known? {
      LowRankDrops(consts, ni.lower, ni.lower);
      HighRankDrops(consts, ni.upper, ni.upper);
      if oi.Known? {
        WidenKnown(oi, ni, consts);
      }
    }
  }

  lemma WidenKnown(oi: Interval, ni: Interval, consts: seq<Z>)
    requires Sorted(consts) && oi.Known? && ni.Known?
    ensures var r := WidenedTo(oi, ni, consts);
      && Contained(oi, r.i) && Contained(ni, r.i)
      && (r.changed && r.i != oi ==> Rank(consts, r.i) < Rank(consts, oi))
  {
    var l := if Cmp(ni.lower, oi.lower) == -1 then LowConst(consts, ni.lower) else oi.lower;
    var u := if Cmp(ni.upper, oi.upper) == 1 then HighConst(consts, ni.upper) else oi.upper;
    ConstsInOrder(consts, ni.lower, ni.upper);
    LowRankDrops(consts, oi.lower, l);
    HighRankDrops(consts, oi.upper, u);
    LowRankDrops(consts, l, l);
    HighRankDrops(consts, u, u);
  }

  // ----- the constraints of a component -----

  /** Evaluates a constraint in given ranges; it may read any of them. */
  type Eval = (nat, seq<Interval>) -> Interval

  /** target[c] is the variable constraint c defines and operands[c] those it reads. member tells
      the variables of the component, and widenable those whose ranges widen handles: integers,
      strings and slices but not channels. */
  datatype Problem = Problem(vars: nat, target: seq<nat>, operands: seq<seq<nat>>, member: seq<bool>, widenable: seq<bool>, consts: seq<Z>)

  ghost predicate Valid(p: Problem) {
    && |p.target| == |p.operands| && |p.member| == |p.widenable| == p.vars && Sorted(p.consts)
    && (forall c :: 0 <= c < |p.target| ==> p.target[c] < p.vars)
    && (forall c, k :: 0 <= c < |p.operands| && 0 <= k < |p.operands[c]| ==> p.operands[c][k] < p.vars)
  }

  /** The flow between the variables of the component. */
  ghost function FlowEdges(p: Problem): (E: Edges)
    ensures forall u: nat, v: nat :: (u, v) in E <==> exists c: nat :: c < |p.target| && Uses(p, c, u) && p.target[c] == v
  {
    var E := set c: nat, k: nat | c < |p.target| && c < |p.operands| && k < |p.operands[c]| && Uses(p, c, p.operands[c][k]) :: (p.operands[c][k], p.target[c]);
    assert forall u: nat, v: nat :: (u, v) in E ==> exists c: nat :: c < |p.target| && Uses(p, c, u) && p.target[c] == v;
    E
  }

  /** Every variable of the component flows to every other. */
  ghost predicate StronglyConnected(p: Problem) {
    forall u: nat, v: nat :: u < |p.member| && v < |p.member| && p.member[u] && p.member[v] ==> Reaches(FlowEdges(p), u, v)
  }

  /** Constraint c reads nothing but its operands. */
  ghost predicate ReadsOnly(p: Problem, E: Eval, c: nat) {
    forall r, r' {:trigger E(c, r), E(c, r')} :: |r| == |r'| == p.vars && AgreeOn(p, c, r, r') ==> E(c, r) == E(c, r')
  }

  ghost predicate AgreeOn(p: Problem, c: nat, r: seq<Interval>, r': seq<Interval>) {
    c < |p.operands| && forall v: nat :: v in p.operands[c] ==> v < |r| && v < |r'| && r[v] == r'[v]
  }

  /** The constraint uses v, and both v and its target are in the component. */
  predicate Uses(p: Problem, c: nat, v: nat) {
    && c < |p.target| && c < |p.operands| && v in p.operands[c] && v < |p.member| && p.member[v]
    && p.target[c] < |p.member| && p.member[p.target[c]]
  }

  /** The constraint holds: what it evaluates to is unknown or contained in the range of its target. */
  ghost predicate Satisfied(p: Problem, E: Eval, r: seq<Interval>, c: nat) {
    c < |p.target| && p.target[c] < |r| && (E(c, r).Unknown? || Contained(E(c, r), r[p.target[c]]))
  }

  /** Some used variable of the component is known. */
  ghost predicate Active(p: Problem, r: seq<Interval>, c: nat) {
    exists v: nat :: Uses(p, c, v) && v < |r| && r[v].Known?
  }

  /** The loop visits c: its target and one of its operands are in the component. */
  ghost predicate Visited(p: Problem, c: nat) {
    exists v: nat :: Uses(p, c, v)
  }

  /** Widening by c in the ranges r does not spin. */
  ghost predicate Quiet(p: Problem, E: Eval, c: nat, r: seq<Interval>) {
    && c < |p.target| && p.target[c] < |p.widenable| && p.target[c] < |r|
    && (p.widenable[p.target[c]] && r[p.target[c]] == EMPTY ==> !Spins(p.consts, E(c, r)))
  }

  /** In ranges with J, widening by c does not spin and leaves ranges with J. */
  ghost predicate KeptAt(p: Problem, E: Eval, J: seq<Interval> -> bool, c: nat, r: seq<Interval>)
    requires Valid(p)
  {
    |r| == p.vars && J(r) && Visited(p, c) && p.widenable[p.target[c]] ==>
      Quiet(p, E, c, r) && J(r[p.target[c] := WidenedTo(r[p.target[c]], E(c, r), p.consts).i])
  }

  /** J is kept by the constraints of the component, and none of them spins in ranges with J. */
  ghost predicate Keeps(p: Problem, E: Eval, J: seq<Interval> -> bool)
    requires Valid(p)
  {
    forall c: nat, r {:trigger KeptAt(p, E, J, c, r)} :: KeptAt(p, E, J, c, r)
  }

  // ----- the loop as a function -----

  datatype Progress = Progress(ranges: seq<Interval>, entries: seq<nat>)

  ghost predicate Fits(p: Problem, st: Progress) {
    Valid(p) && |st.ranges| == p.vars && forall k :: 0 <= k < |st.entries| ==> st.entries[k] < p.vars
  }

  /** uses lists for each variable the constraints that use it, in some order. */
  ghost predicate IsUses(p: Problem, uses: seq<seq<nat>>) {
    |uses| == p.vars && forall v: nat, c: nat :: v < p.vars ==> (c in uses[v] <==> Uses(p, c, v))
  }

  /** entries lists the known variables of the component, in some order. */
  ghost predicate IsEntries(p: Problem, r: seq<Interval>, entries: seq<nat>) {
    |r| == |p.member| == p.vars && forall v: nat :: v in entries <==> v < p.vars && p.member[v] && r[v].Known?
  }

  /** widen, and the new entry if it reports a change. */
  ghost function WidenBy(p: Problem, E: Eval, c: nat, st: Progress): (st': Progress)
    requires Fits(p, st) && c < |p.target|
    ensures Fits(p, st')
  {
    var y := p.target[c];
    if !p.widenable[y] then st else
    var w := WidenedTo(st.ranges[y], E(c, st.ranges), p.consts);
    if w.changed then Progress(st.ranges[y := w.i], st.entries + [y]) else st
  }

  /** The first n constraints of a list. */
  ghost function WidenFirst(p: Problem, E: Eval, cs: seq<nat>, n: nat, st: Progress): (st': Progress)
    requires Fits(p, st) && n <= |cs| && forall k :: 0 <= k < |cs| ==> cs[k] < |p.target|
    ensures Fits(p, st')
  {
    if n == 0 then st else WidenBy(p, E, cs[n - 1], WidenFirst(p, E, cs, n - 1, st))
  }

  lemma UsesBounded(p: Problem, uses: seq<seq<nat>>, v: nat)
    requires IsUses(p, uses) && v < p.vars
    ensures forall k :: 0 <= k < |uses[v]| ==> uses[v][k] < |p.target| && Uses(p, uses[v][k], v)
  {
    forall k | 0 <= k < |uses[v]| ensures Uses(p, uses[v][k], v) {
      assert uses[v][k] in uses[v];
    }
  }

  function Popped(st: Progress): (st': Progress)
    requires st.entries != []
  {
    st.(entries := st.entries[..|st.entries| - 1])
  }

  /** One turn of the loop. */
  ghost function Turn(p: Problem, E: Eval, uses: seq<seq<nat>>, st: Progress): (st': Progress)
    requires Fits(p, st) && IsUses(p, uses)
    ensures Fits(p, st')
  {
    if st.entries == [] then st else
    var v := st.entries[|st.entries| - 1];
    UsesBounded(p, uses, v);
    WidenFirst(p, E, uses[v], |uses[v]|, Popped(st))
  }

  ghost function Turns(p: Problem, E: Eval, uses: seq<seq<nat>>, st: Progress, n: nat): (st': Progress)
    requires Fits(p, st) && IsUses(p, uses)
    ensures Fits(p, st')
  {
    if n == 0 then st else Turn(p, E, uses, Turns(p, E, uses, st, n - 1))
  }

  /** In whatever order the maps are iterated, the loop comes to an end. */
  ghost predicate Ends(p: Problem, E: Eval, r: seq<Interval>)
    requires Valid(p) && |r| == p.vars
  {
    forall uses, entries :: IsUses(p, uses) && IsEntries(p, r, entries) ==> EndsFrom(p, E, uses, r, entries)
  }

  ghost predicate EndsFrom(p: Problem, E: Eval, uses: seq<seq<nat>>, r: seq<Interval>, entries: seq<nat>)
    requires Valid(p) && |r| == p.vars && IsUses(p, uses) && IsEntries(p, r, entries)
  {
    EntriesFit(p, r, entries);
    exists n :: Turns(p, E, uses, Progress(r, entries), n).entries == []
  }

  lemma EntriesFit(p: Problem, r: seq<Interval>, entries: seq<nat>)
    requires Valid(p) && IsEntries(p, r, entries)
    ensures Fits(p, Progress(r, entries))
  {
    forall k | 0 <= k < |entries| ensures entries[k] < p.vars {
      assert entries[k] in entries;
    }
  }

  // ----- it ends -----

  ghost function TotalRank(consts: seq<Z>, r: seq<Interval>): (n: nat) {
    if r == [] then 0 else TotalRank(consts, r[..|r| - 1]) + Rank(consts, r[|r| - 1])
  }

  lemma {:induction false} TotalRankDrops(consts: seq<Z>, r: seq<Interval>, v: nat, i: Interval)
    requires v < |r| && Rank(consts, i) < Rank(consts, r[v])
    ensures TotalRank(consts, r[v := i]) < TotalRank(consts, r)
  {
    var n := |r| - 1;
    if v < n {
      assert r[v := i][..n] == r[..n][v := i];
      TotalRankDrops(consts, r[..n], v, i);
    } else {
      assert r[v := i][..n] == r[..n];
    }
  }

  /** None of the first n constraints spins when its turn comes. */
  ghost predicate QuietFirst(p: Problem, E: Eval, cs: seq<nat>, n: nat, st: Progress)
    requires Fits(p, st) && n <= |cs| && forall k :: 0 <= k < |cs| ==> cs[k] < |p.target|
  {
    n > 0 ==> QuietFirst(p, E, cs, n - 1, st) && Quiet(p, E, cs[n - 1], WidenFirst(p, E, cs, n - 1, st).ranges)
  }

  /** Nothing spins in the next turn. */
  ghost predicate QuietTurn(p: Problem, E: Eval, uses: seq<seq<nat>>, st: Progress)
    requires Fits(p, st) && IsUses(p, uses)
  {
    st.entries != [] ==>
      var v := st.entries[|st.entries| - 1];
      UsesBounded(p, uses, v);
      QuietFirst(p, E, uses[v], |uses[v]|, Popped(st))
  }

  /** A change uses up rank. */
  lemma {:induction false} WidenFirstDrops(p: Problem, E: Eval, cs: seq<nat>, n: nat, st: Progress)
    requires Fits(p, st) && n <= |cs| && (forall k :: 0 <= k < |cs| ==> cs[k] < |p.target|) && QuietFirst(p, E, cs, n, st)
    ensures var st' := WidenFirst(p, E, cs, n, st); st' == st || TotalRank(p.consts, st'.ranges) < TotalRank(p.consts, st.ranges)
  {
    if n > 0 {
      WidenFirstDrops(p, E, cs, n - 1, st);
      var st1, c := WidenFirst(p, E, cs, n - 1, st), cs[n - 1];
      var y := p.target[c];
      var oi, ni := st1.ranges[y], E(c, st1.ranges);
      WidenCovers(oi, ni, p.consts);
      var w := WidenedTo(oi, ni, p.consts);
      if p.widenable[y] && w.changed { TotalRankDrops(p.consts, st1.ranges, y, w.i); }
    }
  }

  /** A turn in which nothing spins uses up rank, or shortens the worklist. */
  lemma TurnDrops(p: Problem, E: Eval, uses: seq<seq<nat>>, st: Progress)
    requires Fits(p, st) && IsUses(p, uses) && QuietTurn(p, E, uses, st) && st.entries != []
    ensures var st' := Turn(p, E, uses, st);
      TotalRank(p.consts, st'.ranges) < TotalRank(p.consts, st.ranges) || (st'.ranges == st.ranges && |st'.entries| < |st.entries|)
  {
    var v := st.entries[|st.entries| - 1];
    UsesBounded(p, uses, v);
    WidenFirstDrops(p, E, uses[v], |uses[v]|, Popped(st));
  }

  /** From turn n on nothing spins. */
  ghost predicate QuietFrom(p: Problem, E: Eval, uses: seq<seq<nat>>, st: Progress, n: nat)
    requires Fits(p, st) && IsUses(p, uses)
  {
    forall m: nat {:trigger Turns(p, E, uses, st, m)} :: m >= n ==> QuietTurn(p, E, uses, Turns(p, E, uses, st, m))
  }

  /** A run that is quiet from turn k on ends. */
  lemma {:induction false} QuietEnds(p: Problem, E: Eval, uses: seq<seq<nat>>, st: Progress, k: nat) returns (n: nat)
    requires Fits(p, st) && IsUses(p, uses) && QuietFrom(p, E, uses, st, k)
    ensures Turns(p, E, uses, st, n).entries == []
    decreases TotalRank(p.consts, Turns(p, E, uses, st, k).ranges), |Turns(p, E, uses, st, k).entries|
  {
    n := k;
    if Turns(p, E, uses, st, k).entries != [] {
      TurnDrops(p, E, uses, Turns(p, E, uses, st, k));
      assert Turns(p, E, uses, st, k + 1) == Turn(p, E, uses, Turns(p, E, uses, st, k));
      n := QuietEnds(p, E, uses, st, k + 1);
    }
  }

  lemma {:induction false} EndedStays(p: Problem, E: Eval, uses: seq<seq<nat>>, st: Progress, n: nat, m: nat)
    requires Fits(p, st) && IsUses(p, uses) && n <= m && Turns(p, E, uses, st, n).entries == []
    ensures Turns(p, E, uses, st, m).entries == []
  {
    if n < m { EndedStays(p, E, uses, st, n, m - 1); }
  }

  /** The loop ends exactly if it spins only finitely often. */
  lemma EndsIffSpinsStop(p: Problem, E: Eval, uses: seq<seq<nat>>, st: Progress)
    requires Fits(p, st) && IsUses(p, uses)
    ensures (exists n :: Turns(p, E, uses, st, n).entries == []) <==> (exists k :: QuietFrom(p, E, uses, st, k))
  {
    if n :| Turns(p, E, uses, st, n).entries == [] {
      forall m: nat | m >= n ensures QuietTurn(p, E, uses, Turns(p, E, uses, st, m)) {
        EndedStays(p, E, uses, st, n, m);
      }
      assert QuietFrom(p, E, uses, st, n);
    }
    if k :| QuietFrom(p, E, uses, st, k) {
      var n := QuietEnds(p, E, uses, st, k);
    }
  }

  // ----- what the loop keeps -----

  lemma {:induction false} FirstKeepsJ(p: Problem, E: Eval, J: seq<Interval> -> bool, cs: seq<nat>, n: nat, st: Progress)
    requires Fits(p, st) && n <= |cs| && (forall k :: 0 <= k < |cs| ==> cs[k] < |p.target| && Visited(p, cs[k])) && Keeps(p, E, J) && J(st.ranges)
    ensures QuietFirst(p, E, cs, n, st) && J(WidenFirst(p, E, cs, n, st).ranges)
  {
    if n > 0 {
      FirstKeepsJ(p, E, J, cs, n - 1, st);
      var st1 := WidenFirst(p, E, cs, n - 1, st);
      assert KeptAt(p, E, J, cs[n - 1], st1.ranges);
      assert st1.ranges[p.target[cs[n - 1]] := st1.ranges[p.target[cs[n - 1]]]] == st1.ranges;
    }
  }

  lemma TurnKeepsJ(p: Problem, E: Eval, J: seq<Interval> -> bool, uses: seq<seq<nat>>, st: Progress)
    requires Fits(p, st) && IsUses(p, uses) && Keeps(p, E, J) && J(st.ranges)
    ensures QuietTurn(p, E, uses, st) && J(Turn(p, E, uses, st).ranges)
  {
    if st.entries != [] {
      var v := st.entries[|st.entries| - 1];
      UsesBounded(p, uses, v);
      FirstKeepsJ(p, E, J, uses[v], |uses[v]|, Popped(st));
    }
  }

  lemma {:induction false} TurnsKeepJ(p: Problem, E: Eval, J: seq<Interval> -> bool, uses: seq<seq<nat>>, st: Progress, n: nat)
    requires Fits(p, st) && IsUses(p, uses) && Keeps(p, E, J) && J(st.ranges)
    ensures QuietTurn(p, E, uses, Turns(p, E, uses, st, n)) && J(Turns(p, E, uses, st, n).ranges)
  {
    if n > 0 {
      TurnsKeepJ(p, E, J, uses, st, n - 1);
      TurnKeepsJ(p, E, J, uses, Turns(p, E, uses, st, n - 1));
    }
    TurnKeepsJ(p, E, J, uses, Turns(p, E, uses, st, n));
  }

  /** From ranges with J the loop ends, whatever the constraints read. */
  lemma LoopEnds(p: Problem, E: Eval, J: seq<Interval> -> bool, uses: seq<seq<nat>>, st: Progress) returns (n: nat)
    requires Fits(p, st) && IsUses(p, uses) && Keeps(p, E, J) && J(st.ranges)
    ensures Turns(p, E, uses, st, n).entries == []
  {
    forall m: nat | m >= 0 ensures QuietTurn(p, E, uses, Turns(p, E, uses, st, m)) {
      TurnsKeepJ(p, E, J, uses, st, m);
    }
    n := QuietEnds(p, E, uses, st, 0);
  }

  // ----- how often a variable changes -----

  /** Widening by c changes the range of v. */
  ghost predicate ChangesBy(p: Problem, E: Eval, c: nat, st: Progress, v: nat)
    requires Fits(p, st) && c < |p.target|
  {
    p.target[c] == v && p.widenable[v] && WidenedTo(st.ranges[v], E(c, st.ranges), p.consts).changed
  }

  ghost function ChangesFirst(p: Problem, E: Eval, cs: seq<nat>, n: nat, st: Progress, v: nat): (k: nat)
    requires Fits(p, st) && n <= |cs| && forall k :: 0 <= k < |cs| ==> cs[k] < |p.target|
  {
    if n == 0 then 0
    else ChangesFirst(p, E, cs, n - 1, st, v) + (if ChangesBy(p, E, cs[n - 1], WidenFirst(p, E, cs, n - 1, st), v) then 1 else 0)
  }

  ghost function ChangesInTurn(p: Problem, E: Eval, uses: seq<seq<nat>>, st: Progress, v: nat): (k: nat)
    requires Fits(p, st) && IsUses(p, uses)
  {
    if st.entries == [] then 0 else
    var x := st.entries[|st.entries| - 1];
    UsesBounded(p, uses, x);
    ChangesFirst(p, E, uses[x], |uses[x]|, Popped(st), v)
  }

  /** How often v changes in the first n turns. */
  ghost function Changes(p: Problem, E: Eval, uses: seq<seq<nat>>, st: Progress, n: nat, v: nat): (k: nat)
    requires Fits(p, st) && IsUses(p, uses)
  {
    if n == 0 then 0 else Changes(p, E, uses, st, n - 1, v) + ChangesInTurn(p, E, uses, Turns(p, E, uses, st, n - 1), v)
  }

  lemma {:induction false} FirstChanges(p: Problem, E: Eval, cs: seq<nat>, n: nat, st: Progress, v: nat)
    requires Fits(p, st) && n <= |cs| && (forall k :: 0 <= k < |cs| ==> cs[k] < |p.target|) && QuietFirst(p, E, cs, n, st) && v < p.vars
    ensures ChangesFirst(p, E, cs, n, st, v) + Rank(p.consts, WidenFirst(p, E, cs, n, st).ranges[v]) <= Rank(p.consts, st.ranges[v])
  {
    if n > 0 {
      FirstChanges(p, E, cs, n - 1, st, v);
      var st1, c := WidenFirst(p, E, cs, n - 1, st), cs[n - 1];
      WidenCovers(st1.ranges[p.target[c]], E(c, st1.ranges), p.consts);
    }
  }

  /** As long as nothing spins, a variable changes at most 2n + 5 times if there are n constants. */
  lemma {:induction false} ChangesBounded(p: Problem, E: Eval, uses: seq<seq<nat>>, st: Progress, n: nat, v: nat)
    requires Fits(p, st) && IsUses(p, uses) && v < p.vars
    requires forall m: nat {:trigger Turns(p, E, uses, st, m)} :: m < n ==> QuietTurn(p, E, uses, Turns(p, E, uses, st, m))
    ensures Changes(p, E, uses, st, n, v) + Rank(p.consts, Turns(p, E, uses, st, n).ranges[v]) <= Rank(p.consts, st.ranges[v])
    ensures Changes(p, E, uses, st, n, v) <= 2 * |p.consts| + 5
  {
    RankAtMost(p.consts, st.ranges[v]);
    if n > 0 {
      ChangesBounded(p, E, uses, st, n - 1, v);
      var st1 := Turns(p, E, uses, st, n - 1);
      if st1.entries != [] {
        var x := st1.entries[|st1.entries| - 1];
        UsesBounded(p, uses, x);
        FirstChanges(p, E, uses[x], |uses[x]|, Popped(st1), v);
      }
    }
  }

  lemma RankAtMost(consts: seq<Z>, i: Interval)
    ensures Rank(consts, i) <= 2 * |consts| + 5
  {
    if i.Known? {
      LowRankDrops(consts, i.lower, i.lower);
      HighRankDrops(consts, i.upper, i.upper);
    }
  }

  // ----- what holds at the end -----

  /** c will be looked at again. */
  ghost predicate Pending(p: Problem, entries: seq<nat>, c: nat) {
    exists v: nat :: Uses(p, c, v) && v in entries
  }

  ghost predicate ConstraintOk(p: Problem, E: Eval, st: Progress, rest: seq<nat>, c: nat) {
    c < |p.target| && p.target[c] < |p.widenable| &&
    (p.widenable[p.target[c]] && ReadsOnly(p, E, c) && Active(p, st.ranges, c) ==> Satisfied(p, E, st.ranges, c) || Pending(p, st.entries, c) || c in rest)
  }

  /** Every active constraint that reads only its operands holds or will be looked at again, for one
      of its variables in entries or as one of the rest. */
  ghost predicate Inv(p: Problem, E: Eval, st: Progress, rest: seq<nat>) {
    Fits(p, st) && forall c: nat {:trigger ConstraintOk(p, E, st, rest, c)} :: c < |p.target| ==> ConstraintOk(p, E, st, rest, c)
  }

  /** A constraint that does not use y evaluates to the same; its target's range only grew. */
  lemma UnusedSame(p: Problem, E: Eval, r: seq<Interval>, y: nat, i: Interval, d: nat)
    requires Valid(p) && ReadsOnly(p, E, d) && |r| == p.vars && y < p.vars && d < |p.target| && p.member[y] && p.member[p.target[d]] && !Uses(p, d, y)
    requires r[y].Known? ==> Contained(r[y], i)
    ensures E(d, r[y := i]) == E(d, r)
    ensures Satisfied(p, E, r, d) ==> Satisfied(p, E, r[y := i], d)
  {
    assert y !in p.operands[d];
    assert AgreeOn(p, d, r, r[y := i]) by {
      forall v | v in p.operands[d] ensures v < |r| && r[v] == r[y := i][v] {
        var k :| 0 <= k < |p.operands[d]| && p.operands[d][k] == v;
      }
    }
    if Satisfied(p, E, r, d) && p.target[d] == y && E(d, r).Known? { ContainedOn(E(d, r), r[y], i); }
  }

  /** Widening the target of c to i: what used the target is pending, everything else as before. */
  lemma WidenKeeps(p: Problem, E: Eval, st: Progress, rest: seq<nat>, c: nat, i: Interval)
    requires Inv(p, E, st, [c] + rest) && c < |p.target| && p.member[p.target[c]]
    requires (st.ranges[p.target[c]].Known? ==> Contained(st.ranges[p.target[c]], i)) && Contained(E(c, st.ranges), i)
    ensures Inv(p, E, Progress(st.ranges[p.target[c] := i], st.entries + [p.target[c]]), rest)
  {
    var y := p.target[c];
    var st' := Progress(st.ranges[y := i], st.entries + [y]);
    forall d: nat | d < |p.target| ensures ConstraintOk(p, E, st', rest, d) {
      assert ConstraintOk(p, E, st, [c] + rest, d);
      if p.widenable[p.target[d]] && ReadsOnly(p, E, d) && Active(p, st'.ranges, d) {
        var v: nat :| Uses(p, d, v) && v < |st'.ranges| && st'.ranges[v].Known?;
        if Uses(p, d, y) {
          assert y in st'.entries;
        } else {
          assert Uses(p, d, v) && v < |st.ranges| && st.ranges[v].Known?;
          UnusedSame(p, E, st.ranges, y, i, d);
          if Pending(p, st.entries, d) {
            var w: nat :| Uses(p, d, w) && w in st.entries;
            assert w in st'.entries;
          }
        }
      }
    }
  }

  /** One constraint less to look at. */
  lemma WidenByKeeps(p: Problem, E: Eval, c: nat, st: Progress, rest: seq<nat>)
    requires Inv(p, E, st, [c] + rest) && c < |p.target| && p.member[p.target[c]]
    ensures Inv(p, E, WidenBy(p, E, c, st), rest)
  {
    var y := p.target[c];
    var oi, ni := st.ranges[y], E(c, st.ranges);
    WidenCovers(oi, ni, p.consts);
    var w := WidenedTo(oi, ni, p.consts);
    if p.widenable[y] && w.changed {
      WidenKeeps(p, E, st, rest, c, w.i);
    } else {
      forall d: nat | d < |p.target| ensures ConstraintOk(p, E, st, rest, d) {
        assert ConstraintOk(p, E, st, [c] + rest, d);
      }
    }
  }

  lemma {:induction false} WidenFirstKeeps(p: Problem, E: Eval, cs: seq<nat>, n: nat, st: Progress)
    requires Inv(p, E, st, cs) && n <= |cs| && forall k :: 0 <= k < |cs| ==> cs[k] < |p.target| && p.target[cs[k]] < |p.member| && p.member[p.target[cs[k]]]
    ensures Inv(p, E, WidenFirst(p, E, cs, n, st), cs[n..])
  {
    if n > 0 {
      WidenFirstKeeps(p, E, cs, n - 1, st);
      assert cs[n - 1..] == [cs[n - 1]] + cs[n..];
      WidenByKeeps(p, E, cs[n - 1], WidenFirst(p, E, cs, n - 1, st), cs[n..]);
    } else {
      assert cs[0..] == cs;
    }
  }

  lemma TurnKeeps(p: Problem, E: Eval, uses: seq<seq<nat>>, st: Progress)
    requires Inv(p, E, st, []) && IsUses(p, uses)
    ensures Inv(p, E, Turn(p, E, uses, st), [])
  {
    if st.entries != [] {
      var n := |st.entries| - 1;
      var v := st.entries[n];
      UsesBounded(p, uses, v);
      forall c: nat | c < |p.target| ensures ConstraintOk(p, E, Popped(st), uses[v], c) {
        assert ConstraintOk(p, E, st, [], c);
        if Pending(p, st.entries, c) {
          var w: nat :| Uses(p, c, w) && w in st.entries;
          assert st.entries == st.entries[..n] + [v];
        }
      }
      WidenFirstKeeps(p, E, uses[v], |uses[v]|, Popped(st));
      assert uses[v][|uses[v]|..] == [];
    }
  }

  lemma StartInv(p: Problem, E: Eval, r: seq<Interval>, entries: seq<nat>)
    requires Valid(p) && IsEntries(p, r, entries)
    ensures Inv(p, E, Progress(r, entries), [])
  {
    EntriesFit(p, r, entries);
    forall c: nat | c < |p.target| ensures ConstraintOk(p, E, Progress(r, entries), [], c) {
      if Active(p, r, c) {
        var v: nat :| Uses(p, c, v) && v < |r| && r[v].Known?;
        assert v in entries;
      }
    }
  }

  /** Channels and variables outside the component keep their ranges. */
  ghost predicate Untouched(p: Problem, r: seq<Interval>, r': seq<Interval>) {
    |r| == |r'| == |p.member| == |p.widenable| && forall v :: 0 <= v < |r| && (!p.widenable[v] || !p.member[v]) ==> r'[v] == r[v]
  }

  lemma {:induction false} WidenFirstTouches(p: Problem, E: Eval, cs: seq<nat>, n: nat, st: Progress)
    requires Fits(p, st) && n <= |cs| && forall k :: 0 <= k < |cs| ==> cs[k] < |p.target| && p.member[p.target[cs[k]]]
    ensures Untouched(p, st.ranges, WidenFirst(p, E, cs, n, st).ranges)
  {
    if n > 0 { WidenFirstTouches(p, E, cs, n - 1, st); }
  }

  lemma TurnTouches(p: Problem, E: Eval, uses: seq<seq<nat>>, st: Progress)
    requires Fits(p, st) && IsUses(p, uses)
    ensures Untouched(p, st.ranges, Turn(p, E, uses, st).ranges)
  {
    if st.entries != [] {
      var v := st.entries[|st.entries| - 1];
      UsesBounded(p, uses, v);
      WidenFirstTouches(p, E, uses[v], |uses[v]|, Popped(st));
    }
  }

  /** Known ranges stay known and lose no member. */
  ghost predicate Grown(r: seq<Interval>, r': seq<Interval>) {
    |r| == |r'| && forall v :: 0 <= v < |r| && r[v].Known? ==> Contained(r[v], r'[v])
  }

  lemma GrownOn(r: seq<Interval>, r': seq<Interval>, r'': seq<Interval>)
    requires Grown(r, r') && Grown(r', r'')
    ensures Grown(r, r'')
  {
    forall v | 0 <= v < |r| && r[v].Known? ensures Contained(r[v], r''[v]) {
      ContainedOn(r[v], r'[v], r''[v]);
    }
  }

  lemma {:induction false} WidenFirstGrows(p: Problem, E: Eval, cs: seq<nat>, n: nat, st: Progress)
    requires Fits(p, st) && n <= |cs| && forall k :: 0 <= k < |cs| ==> cs[k] < |p.target|
    ensures Grown(st.ranges, WidenFirst(p, E, cs, n, st).ranges)
  {
    if n > 0 {
      WidenFirstGrows(p, E, cs, n - 1, st);
      var st1 := WidenFirst(p, E, cs, n - 1, st);
      WidenCovers(st1.ranges[p.target[cs[n - 1]]], E(cs[n - 1], st1.ranges), p.consts);
      GrownOn(st.ranges, st1.ranges, WidenFirst(p, E, cs, n, st).ranges);
    }
  }

  lemma TurnGrows(p: Problem, E: Eval, uses: seq<seq<nat>>, st: Progress)
    requires Fits(p, st) && IsUses(p, uses)
    ensures Grown(st.ranges, Turn(p, E, uses, st).ranges)
  {
    if st.entries != [] {
      var v := st.entries[|st.entries| - 1];
      UsesBounded(p, uses, v);
      WidenFirstGrows(p, E, uses[v], |uses[v]|, Popped(st));
    }
  }

  /** All that the loop relies on for one turn. */
  lemma TurnFacts(p: Problem, E: Eval, J: seq<Interval> -> bool, uses: seq<seq<nat>>, r: seq<Interval>, st: Progress)
    requires Inv(p, E, st, []) && IsUses(p, uses) && Keeps(p, E, J) && J(st.ranges) && st.entries != [] && Untouched(p, r, st.ranges) && Grown(r, st.ranges)
    ensures var st' := Turn(p, E, uses, st);
      && Inv(p, E, st', []) && Untouched(p, r, st'.ranges) && Grown(r, st'.ranges) && J(st'.ranges)
      && (TotalRank(p.consts, st'.ranges) < TotalRank(p.consts, st.ranges) || (st'.ranges == st.ranges && |st'.entries| < |st.entries|))
  {
    TurnKeepsJ(p, E, J, uses, st);
    TurnDrops(p, E, uses, st);
    TurnKeeps(p, E, uses, st);
    TurnTouches(p, E, uses, st);
    TurnGrows(p, E, uses, st);
    GrownOn(r, st.ranges, Turn(p, E, uses, st).ranges);
  }

  /** The constraint defines a channel from channels and variables outside the component. */
  ghost predicate FixedByInput(p: Problem, c: nat) {
    && c < |p.target| && c < |p.operands| && p.target[c] < |p.widenable| && !p.widenable[p.target[c]]
    && forall v: nat :: v in p.operands[c] ==> v < |p.member| && v < |p.widenable| && (!p.widenable[v] || !p.member[v])
  }

  /** Such a constraint holds at the end exactly if it held at the start. */
  lemma ChannelsDecided(p: Problem, E: Eval, r: seq<Interval>, r': seq<Interval>, c: nat)
    requires Valid(p) && |r| == p.vars && Untouched(p, r, r') && FixedByInput(p, c) && ReadsOnly(p, E, c)
    ensures Satisfied(p, E, r', c) <==> Satisfied(p, E, r, c)
  {
    assert AgreeOn(p, c, r, r');
  }

  class Solver {
    const p: Problem
    const E: Eval
    var ranges: seq<Interval>

    constructor (p: Problem, E: Eval, ranges: seq<Interval>)
      ensures this.p == p && this.E == E && this.ranges == ranges
    {
      this.p, this.E, this.ranges := p, E, ranges;
    }

    /** widen: evaluates a constraint and widens the range of its target; channels are left alone. */
    method Widen(c: nat, ghost entries: seq<nat>) returns (changed: bool)
      requires Fits(p, Progress(ranges, entries)) && c < |p.target|
      modifies this`ranges
      ensures Progress(ranges, if changed then entries + [p.target[c]] else entries) == WidenBy(p, E, c, Progress(old(ranges), entries))
    {
      var y := p.target[c];
      if !p.widenable[y] { return false; }
      var w := WidenIntInterval(ranges[y], E(c, ranges), p.consts);
      changed := w.changed;
      if changed {
        ranges := ranges[y := w.i];
      }
    }

    /** entries: the variables of the component whose range is known. */
    method Entries() returns (entries: seq<nat>)
      requires Valid(p) && |ranges| == p.vars
      ensures IsEntries(p, ranges, entries)
    {
      entries := [];
      for v := 0 to p.vars
        invariant forall u: nat :: u in entries <==> u < v && p.member[u] && ranges[u].Known?
      {
        if p.member[v] && ranges[v].Known? {
          entries := entries + [v];
        }
      }
    }

    /** uses: for each variable the constraints of the component that use it. */
    method UsesOf() returns (uses: seq<seq<nat>>)
      requires Valid(p)
      ensures IsUses(p, uses)
    {
      uses := seq(p.vars, _ => []);
      for c := 0 to |p.target|
        invariant |uses| == p.vars && forall v: nat, d: nat :: v < p.vars ==> (d in uses[v] <==> d < c && Uses(p, d, v))
      {
        for k := 0 to |p.operands[c]|
          invariant |uses| == p.vars
          invariant forall v: nat, d: nat :: v < p.vars ==> (d in uses[v] <==> (d < c && Uses(p, d, v)) || (d == c && Uses(p, c, v) && v in p.operands[c][..k]))
        {
          var v := p.operands[c][k];
          assert v in p.operands[c] && p.operands[c][..k + 1] == p.operands[c][..k] + [v];
          if p.member[v] && p.member[p.target[c]] {
            uses := uses[v := uses[v] + [c]];
          }
        }
        assert p.operands[c][..|p.operands[c]|] == p.operands[c];
      }
    }

    /** The body of the loop. */
    method VisitUses(v: nat, uses: seq<seq<nat>>, entries: seq<nat>) returns (entries': seq<nat>)
      requires Fits(p, Progress(ranges, entries + [v])) && IsUses(p, uses)
      modifies this`ranges
      ensures Progress(ranges, entries') == Turn(p, E, uses, Progress(old(ranges), entries + [v]))
    {
      ghost var st := Progress(ranges, entries);
      assert Popped(Progress(ranges, entries + [v])) == st;
      assert v == (entries + [v])[|entries|];
      UsesBounded(p, uses, v);
      forall k | 0 <= k < |entries| ensures entries[k] < p.vars { assert (entries + [v])[k] == entries[k]; }
      entries' := entries;
      for k := 0 to |uses[v]|
        invariant Progress(ranges, entries') == WidenFirst(p, E, uses[v], k, st)
      {
        var changed := Widen(uses[v][k], entries');
        if changed {
          entries' := entries' + [p.target[uses[v][k]]];
        }
      }
    }

    /** The loop ends from ranges with a property J that keeps the constraints from spinning, whatever
        they read. Then every constraint that reads only its operands, has a known variable in the
        component and a target that can be widened holds; a constraint on a channel that reads only
        channels and outside variables holds exactly if it held before. */
    method SolveComponent(ghost J: seq<Interval> -> bool)
      requires Valid(p) && |ranges| == p.vars && Keeps(p, E, J) && J(ranges)
      modifies this`ranges
      ensures |ranges| == p.vars && J(ranges) && Untouched(p, old(ranges), ranges) && Grown(old(ranges), ranges)
      ensures exists uses, entries, n :: IsUses(p, uses) && IsEntries(p, old(ranges), entries) && IsOutcome(p, E, uses, old(ranges), entries, n, ranges)
      ensures forall c: nat :: c < |p.target| && p.widenable[p.target[c]] && ReadsOnly(p, E, c) && Active(p, ranges, c) ==>
                Satisfied(p, E, ranges, c) && Covers(ranges[p.target[c]], E(c, ranges))
      ensures forall c: nat :: FixedByInput(p, c) && ReadsOnly(p, E, c) ==> (Satisfied(p, E, ranges, c) <==> Satisfied(p, E, old(ranges), c))
    {
      var uses := UsesOf();
      var entries := Entries();
      StartInv(p, E, ranges, entries);
      ghost var n := Loop(uses, entries, J);
      AllSatisfied(p, E, ranges);
      AllDecided(p, E, old(ranges), ranges);
    }

    method Loop(uses: seq<seq<nat>>, entries: seq<nat>, ghost J: seq<Interval> -> bool) returns (ghost n: nat)
      requires Inv(p, E, Progress(ranges, entries), []) && IsUses(p, uses) && Keeps(p, E, J) && J(ranges)
      modifies this`ranges
      ensures Inv(p, E, Progress(ranges, []), []) && J(ranges) && Untouched(p, old(ranges), ranges) && Grown(old(ranges), ranges)
      ensures IsOutcome(p, E, uses, old(ranges), entries, n, ranges)
    {
      var entries' := entries;
      n := 0;
      while entries' != []
        invariant LoopAt(p, E, uses, old(ranges), entries, n, Progress(ranges, entries')) && J(ranges)
        decreases TotalRank(p.consts, ranges), |entries'|
      {
        entries' := TakeTurn(uses, entries', J, old(ranges), entries, n);
        n := n + 1;
      }
    }

    method TakeTurn(uses: seq<seq<nat>>, entries: seq<nat>, ghost J: seq<Interval> -> bool, ghost r0: seq<Interval>, ghost entries0: seq<nat>, ghost n: nat)
      returns (entries': seq<nat>)
      requires LoopAt(p, E, uses, r0, entries0, n, Progress(ranges, entries)) && Keeps(p, E, J) && J(ranges) && entries != []
      modifies this`ranges
      ensures LoopAt(p, E, uses, r0, entries0, n + 1, Progress(ranges, entries')) && J(ranges)
      ensures TotalRank(p.consts, ranges) < TotalRank(p.consts, old(ranges)) || (ranges == old(ranges) && |entries'| < |entries|)
    {
      TurnFacts(p, E, J, uses, r0, Progress(ranges, entries));
      var v := entries[|entries| - 1];
      assert entries == entries[..|entries| - 1] + [v];
      entries' := VisitUses(v, uses, entries[..|entries| - 1]);
    }

    /** What Solve does when the component of an operand of c is done: the target of c gets the
        value of c in the ranges so far. */
    method Propagate(c: nat)
      requires Valid(p) && |ranges| == p.vars && c < |p.target|
      modifies this`ranges
      ensures ranges == old(ranges)[p.target[c] := E(c, old(ranges))]
      ensures ReadsOnly(p, E, c) && p.target[c] !in p.operands[c] ==> Satisfied(p, E, ranges, c)
    {
      ranges := ranges[p.target[c] := E(c, ranges)];
      assert p.target[c] !in p.operands[c] ==> AgreeOn(p, c, old(ranges), ranges) by {
        OperandsFit(p, c);
      }
    }
  }

  lemma OperandsFit(p: Problem, c: nat)
    requires Valid(p) && c < |p.target|
    ensures forall v: nat :: v in p.operands[c] ==> v < p.vars
  {
    forall v: nat | v in p.operands[c] ensures v < p.vars {
      var k :| 0 <= k < |p.operands[c]| && p.operands[c][k] == v;
    }
  }

  /** After n turns from the given start. */
  ghost predicate LoopAt(p: Problem, E: Eval, uses: seq<seq<nat>>, r: seq<Interval>, entries: seq<nat>, n: nat, st: Progress) {
    && Inv(p, E, st, []) && IsUses(p, uses) && Untouched(p, r, st.ranges) && Grown(r, st.ranges)
    && Fits(p, Progress(r, entries)) && st == Turns(p, E, uses, Progress(r, entries), n)
  }

  lemma AllSatisfied(p: Problem, E: Eval, r: seq<Interval>)
    requires Inv(p, E, Progress(r, []), [])
    ensures forall c: nat :: c < |p.target| && p.widenable[p.target[c]] && ReadsOnly(p, E, c) && Active(p, r, c) ==>
              Satisfied(p, E, r, c) && Covers(r[p.target[c]], E(c, r))
  {
    forall c: nat | c < |p.target| && p.widenable[p.target[c]] && ReadsOnly(p, E, c) && Active(p, r, c)
      ensures Satisfied(p, E, r, c) && Covers(r[p.target[c]], E(c, r))
    {
      assert ConstraintOk(p, E, Progress(r, []), [], c);
      forall n | Has(E(c, r), n) ensures Has(r[p.target[c]], n) {
        ContainedMembers(E(c, r), r[p.target[c]], n);
      }
    }
  }

  lemma AllDecided(p: Problem, E: Eval, r: seq<Interval>, r': seq<Interval>)
    requires Valid(p) && |r| == p.vars && Untouched(p, r, r')
    ensures forall c: nat :: FixedByInput(p, c) && ReadsOnly(p, E, c) ==> (Satisfied(p, E, r', c) <==> Satisfied(p, E, r, c))
  {
    forall c: nat | FixedByInput(p, c) && ReadsOnly(p, E, c) ensures Satisfied(p, E, r', c) <==> Satisfied(p, E, r, c) {
      ChannelsDecided(p, E, r, r', c);
    }
  }

  /** n turns lead from the given start to an empty worklist with ranges r'. */
  ghost predicate IsOutcome(p: Problem, E: Eval, uses: seq<seq<nat>>, r: seq<Interval>, entries: seq<nat>, n: nat, r': seq<Interval>) {
    Fits(p, Progress(r, entries)) && IsUses(p, uses) && Turns(p, E, uses, Progress(r, entries), n) == Progress(r', [])
  }

  // ----- a result that spins -----

  /** Two variables that define each other, the second from itself too: its constraint evaluates to
      the empty range first and to ni from then on. */
  function SpinProblem(consts: seq<Z>): (p: Problem) {
    Problem(2, [1, 0], [[0, 1], [1]], [true, true], [true, true], consts)
  }

  function SpinEval(ni: Interval): (E: Eval) {
    (c: nat, r: seq<Interval>) => if c == 1 then Known(Fin(0), Fin(0)) else if |r| == 2 && r[1].Unknown? then EMPTY else ni
  }

  const SPIN_START: seq<Interval> := [Known(Fin(0), Fin(0)), Unknown]

  /** The second variable is unknown and the first in the worklist, or empty and itself in the worklist. */
  ghost predicate Spinning(st: Progress) {
    && |st.ranges| == 2 && st.ranges[0] == Known(Fin(0), Fin(0)) && (forall k :: 0 <= k < |st.entries| ==> st.entries[k] < 2)
    && if st.ranges[1].Unknown? then 0 in st.entries && 1 !in st.entries else st.ranges[1] == EMPTY && 1 in st.entries
  }

  /** While the uses of a variable are visited. */
  ghost predicate SpinningOn(st: Progress, armed: bool) {
    && |st.ranges| == 2 && st.ranges[0] == Known(Fin(0), Fin(0)) && (forall k :: 0 <= k < |st.entries| ==> st.entries[k] < 2)
    && (st.ranges[1].Unknown? || st.ranges[1] == EMPTY) && (st.ranges[1].Unknown? ==> 1 !in st.entries && !armed) && (armed ==> 1 in st.entries)
  }

  lemma SpinOnce(consts: seq<Z>, ni: Interval, c: nat, st: Progress, armed: bool)
    requires Sorted(consts) && Spins(consts, ni) && SpinningOn(st, armed) && c < 2
    ensures Fits(SpinProblem(consts), st)
    ensures SpinningOn(WidenBy(SpinProblem(consts), SpinEval(ni), c, st), armed || c == 0)
  {
    SpinExact(EMPTY, ni, consts);
  }

  lemma {:induction false} SpinFirst(consts: seq<Z>, ni: Interval, cs: seq<nat>, n: nat, st: Progress, armed: bool)
    requires Sorted(consts) && Spins(consts, ni) && SpinningOn(st, armed) && n <= |cs| && forall k :: 0 <= k < |cs| ==> cs[k] < 2
    ensures Fits(SpinProblem(consts), st)
    ensures SpinningOn(WidenFirst(SpinProblem(consts), SpinEval(ni), cs, n, st), armed || 0 in cs[..n])
  {
    if n > 0 {
      SpinFirst(consts, ni, cs, n - 1, st, armed);
      assert cs[..n] == cs[..n - 1] + [cs[n - 1]];
      SpinOnce(consts, ni, cs[n - 1], WidenFirst(SpinProblem(consts), SpinEval(ni), cs, n - 1, st), armed || 0 in cs[..n - 1]);
    }
  }

  /** Every turn finds the loop spinning again. */
  lemma SpinTurn(consts: seq<Z>, ni: Interval, uses: seq<seq<nat>>, st: Progress)
    requires Sorted(consts) && Spins(consts, ni) && IsUses(SpinProblem(consts), uses) && Spinning(st)
    ensures Fits(SpinProblem(consts), st) && Spinning(Turn(SpinProblem(consts), SpinEval(ni), uses, st))
  {
    var p := SpinProblem(consts);
    var v := st.entries[|st.entries| - 1];
    assert st.entries == Popped(st).entries + [v];
    UsesBounded(p, uses, v);
    assert Uses(p, 0, v) by { assert 0 in p.operands[0] && 1 in p.operands[0]; }
    assert uses[v][..|uses[v]|] == uses[v];
    SpinFirst(consts, ni, uses[v], |uses[v]|, Popped(st), false);
  }

  lemma {:induction false} SpinForever(consts: seq<Z>, ni: Interval, uses: seq<seq<nat>>, st: Progress, n: nat)
    requires Sorted(consts) && Spins(consts, ni) && IsUses(SpinProblem(consts), uses) && Spinning(st)
    ensures Fits(SpinProblem(consts), st) && Spinning(Turns(SpinProblem(consts), SpinEval(ni), uses, st, n))
  {
    if n > 0 {
      SpinForever(consts, ni, uses, st, n - 1);
      SpinTurn(consts, ni, uses, Turns(SpinProblem(consts), SpinEval(ni), uses, st, n - 1));
    }
  }

  lemma SpinComponent(consts: seq<Z>, ni: Interval)
    requires Sorted(consts)
    ensures Valid(SpinProblem(consts)) && StronglyConnected(SpinProblem(consts))
    ensures ReadsOnly(SpinProblem(consts), SpinEval(ni), 0) && ReadsOnly(SpinProblem(consts), SpinEval(ni), 1)
  {
    var p, E := SpinProblem(consts), FlowEdges(SpinProblem(consts));
    assert 1 in p.operands[0] && 0 in p.operands[0] && 1 in p.operands[1];
    assert Uses(p, 0, 0) && Uses(p, 0, 1) && Uses(p, 1, 1);
    ReachesEdge(E, 0, 1);
    ReachesEdge(E, 1, 0);
    ReachesSelf(E, 0);
    ReachesSelf(E, 1);
  }

  /** A result that spins keeps the loop running forever, in every order. */
  lemma SpinEvalNeverEnds(consts: seq<Z>, ni: Interval, uses: seq<seq<nat>>, entries: seq<nat>)
    requires Sorted(consts) && Spins(consts, ni) && IsUses(SpinProblem(consts), uses) && IsEntries(SpinProblem(consts), SPIN_START, entries)
    ensures Valid(SpinProblem(consts)) && !EndsFrom(SpinProblem(consts), SpinEval(ni), uses, SPIN_START, entries)
  {
    SpinComponent(consts, ni);
    EntriesFit(SpinProblem(consts), SPIN_START, entries);
    assert 0 in entries;
    forall n: nat ensures Turns(SpinProblem(consts), SpinEval(ni), uses, Progress(SPIN_START, entries), n).entries != [] {
      SpinForever(consts, ni, uses, Progress(SPIN_START, entries), n);
    }
  }

  /** No range is one that spins. */
  ghost predicate Calm(consts: seq<Z>, r: seq<Interval>) {
    forall v :: 0 <= v < |r| ==> !Spins(consts, r[v])
  }

  /** In ranges that are calm a constraint evaluates to ni or to something that does not spin. */
  ghost predicate CalmBut(p: Problem, E: Eval, ni: Interval) {
    forall c: nat, r {:trigger E(c, r)} :: Visited(p, c) && |r| == p.vars && Calm(p.consts, r) ==> E(c, r) == ni || !Spins(p.consts, E(c, r))
  }

  lemma WidenedCalm(oi: Interval, ni: Interval, consts: seq<Z>)
    requires !Spins(consts, oi) && !Spins(consts, ni)
    ensures !Spins(consts, WidenedTo(oi, ni, consts).i)
  {
  }

  /** If in calm ranges no constraint evaluates to a result that spins, the ranges stay calm. */
  lemma CalmKept(p: Problem, E: Eval, ni: Interval)
    requires Valid(p) && CalmBut(p, E, ni) && !Spins(p.consts, ni)
    ensures Keeps(p, E, r => Calm(p.consts, r))
  {
    var J := r => Calm(p.consts, r);
    forall c: nat, r ensures KeptAt(p, E, J, c, r) {
      if |r| == p.vars && J(r) && Visited(p, c) && p.widenable[p.target[c]] {
        WidenedCalm(r[p.target[c]], E(c, r), p.consts);
      }
    }
  }

  /** From calm ranges the loop ends on every problem, for every evaluation that keeps calm but for the
      possible result ni, exactly if ni does not spin. */
  lemma EndsExactly(consts: seq<Z>, ni: Interval)
    requires Sorted(consts)
    ensures (forall p: Problem, E: Eval, r: seq<Interval> :: Valid(p) && p.consts == consts && |r| == p.vars && Calm(consts, r) && CalmBut(p, E, ni) ==> Ends(p, E, r))
      <==> !Spins(consts, ni)
  {
    if Spins(consts, ni) {
      var p, E := SpinProblem(consts), SpinEval(ni);
      SpinComponent(consts, ni);
      var uses, entries := [[0], [0, 1]], [0];
      assert IsUses(p, uses) by {
        assert 1 in p.operands[0] && 0 in p.operands[0] && 1 in p.operands[1];
      }
      assert IsEntries(p, SPIN_START, entries);
      SpinEvalNeverEnds(consts, ni, uses, entries);
      assert !Ends(p, E, SPIN_START);
      assert CalmBut(p, E, ni) && Calm(consts, SPIN_START);
    } else {
      forall p: Problem, E: Eval, r: seq<Interval> | Valid(p) && p.consts == consts && |r| == p.vars && Calm(consts, r) && CalmBut(p, E, ni)
        ensures Ends(p, E, r)
      {
        CalmKept(p, E, ni);
        forall uses, entries | IsUses(p, uses) && IsEntries(p, r, entries) ensures EndsFrom(p, E, uses, r, entries) {
          EntriesFit(p, r, entries);
          var n := LoopEnds(p, E, r => Calm(p.consts, r), uses, Progress(r, entries));
        }
      }
    }
  }
}
