/** The stages of lowering a switch, clause by clause, on graphs. */
module Switches {
  import opened Flowgraphs
  import opened LoweringModel
  import opened LoweringCode
  import opened Statements

  /** A switch being lowered: g1 and b1 are the graph and the current block after the tag. */
  datatype Work = Work(st: Stmt, tag: Val, done: nat, g1: Graph, b1: nat)

  /** b is an empty block made since g1. */
  ghost predicate Spare(g1: Graph, g: Graph, b: int) {
    |g1.instrs| <= b < |g.instrs| && Open(g, b) && g.instrs[b] == []
  }

  /** Nothing but the current block and new ones was touched since the tag; done is still empty. */
  ghost predicate Framed(w: Work, g: Graph, cur: int) {
    && w.st.Switch? && OneDefault(w.st.clauses) && WellFormed(w.g1) && w.b1 < |w.g1.instrs| && Exists(w.g1, w.tag)
    && WellFormed(g) && Only(w.g1, g, w.b1, {}) && Open(g, cur) && (cur == w.b1 || cur >= |w.g1.instrs|)
    && Spare(w.g1, g, w.done) && cur != w.done
  }

  ghost predicate BodiesRun(w: Work, g: Graph, bodies: seq<nat>, i: nat) {
    w.st.Switch? && i <= |w.st.clauses| && forall j :: 0 <= j < i && w.st.clauses[j].Case? ==> BodyRuns(g, w.g1, w.st.clauses, bodies, w.done, j)
  }

  /** The block of the default, if it was among the first i clauses, is still to be filled. */
  ghost predicate DefaultKept(w: Work, g: Graph, cur: int, bodies: seq<nat>, i: nat, dflt: int, dfltNext: int) {
    w.st.Switch? && i <= |w.st.clauses| &&
    var d := DefaultIndex(w.st.clauses, i);
    if d < 0 then dflt == NIL else
      && d < |bodies| && dflt == bodies[d] && Spare(w.g1, g, dflt) && dflt != cur
      && dfltNext == NextBody(w.st.clauses, bodies, w.done, d) && PhiFree(g, dfltNext)
  }

  ghost predicate Allotted(w: Work, bodies: seq<nat>) {
    Distinct(bodies) && w.done !in bodies && forall k :: 0 <= k < |bodies| ==> bodies[k] >= |w.g1.instrs|
  }

  /** Before clause i; from the second clause on, its body block is there already. */
  ghost predicate Clausing(w: Work, g: Graph, cur: int, bodies: seq<nat>, i: nat, fallthru: int, dflt: int, dfltNext: int) {
    && Framed(w, g, cur) && i <= |w.st.clauses| && Allotted(w, bodies) && AllBelow(bodies, |g.instrs|)
    && |bodies| == (if i == 0 then 0 else if i < |w.st.clauses| then i + 1 else i)
    && fallthru == (if i == 0 then NIL else if i < |w.st.clauses| then bodies[i] else w.done)
    && (0 < i < |w.st.clauses| ==> Spare(w.g1, g, bodies[i]) && cur != bodies[i])
    && Chosen(w, g, cur, bodies, i) && BodiesRun(w, g, bodies, i) && DefaultKept(w, g, cur, bodies, i, dflt, dfltNext)
  }

  /** The tests so far lead to the bodies or on to the current block. */
  ghost predicate Chosen(w: Work, g: Graph, cur: int, bodies: seq<nat>, i: nat) {
    && w.st.Switch? && i <= |w.st.clauses| && 0 <= cur < |g.instrs| && w.b1 < |w.g1.instrs|
    && Selects(g, w.g1, w.b1, |w.g1.instrs[w.b1]|, w.tag, w.st.clauses, i, bodies, cur, |g.instrs[cur]|)
  }

  /** In clause i, when its block and the one it may fall through to have been made. */
  ghost predicate Prepared(w: Work, g: Graph, cur: int, bodies: seq<nat>, i: nat, dflt: int, dfltNext: int) {
    && Framed(w, g, cur) && i < |w.st.clauses| && Allotted(w, bodies) && AllBelow(bodies, |g.instrs|)
    && |bodies| == (if i + 1 < |w.st.clauses| then i + 2 else i + 1)
    && Spare(w.g1, g, bodies[i]) && cur != bodies[i]
    && (i + 1 < |w.st.clauses| ==> Spare(w.g1, g, bodies[i + 1]) && cur != bodies[i + 1])
    && Chosen(w, g, cur, bodies, i) && BodiesRun(w, g, bodies, i) && DefaultKept(w, g, cur, bodies, i, dflt, dfltNext)
  }

  // ----- what stays -----

  lemma SpareStays(g1: Graph, g: Graph, g': Graph, c: nat, T: set<nat>, b: int)
    requires Spare(g1, g, b) && OnlyOrPhi(g, g', c, T) && b != c
    ensures Spare(g1, g', b)
  {
    Untouched(g, g', c, T, b);
  }

  lemma BodiesStay(w: Work, g: Graph, g': Graph, bodies: seq<nat>, bodies': seq<nat>, i: nat)
    requires BodiesRun(w, g, bodies, i) && Grows(g, g') && bodies <= bodies' && (i == 0 || i < |bodies| || |bodies| == |w.st.clauses|)
    ensures BodiesRun(w, g', bodies', i)
  {
    forall j | 0 <= j < i && w.st.clauses[j].Case? ensures BodyRuns(g', w.g1, w.st.clauses, bodies', w.done, j) {
      assert BodyRuns(g, w.g1, w.st.clauses, bodies, w.done, j);
      ExecutesStable(g, g', w.g1, bodies[j], 0, Means(w.st.clauses[j].body), w.done, NextBody(w.st.clauses, bodies, w.done, j), w.done, 0);
    }
  }

  lemma DefaultStays(w: Work, g: Graph, g': Graph, cur: int, cur': int, bodies: seq<nat>, bodies': seq<nat>, i: nat, dflt: int, dfltNext: int, c: nat, T: set<nat>)
    requires DefaultKept(w, g, cur, bodies, i, dflt, dfltNext) && Only(g, g', c, T) && bodies <= bodies' && (i == 0 || i < |bodies| || |bodies| == |w.st.clauses|)
    requires DefaultIndex(w.st.clauses, i) >= 0 ==> dflt != c && dflt != cur'
    ensures DefaultKept(w, g', cur', bodies', i, dflt, dfltNext)
  {
    if DefaultIndex(w.st.clauses, i) >= 0 {
      SpareStays(w.g1, g, g', c, T, dflt);
      StillFree(g, g', c, T, {dfltNext});
    }
  }

  lemma FrameStays(w: Work, g: Graph, g': Graph, cur: int, cur': int, c: nat, T: set<nat>)
    requires Framed(w, g, cur) && WellFormed(g') && Only(g, g', c, T) && (c == w.b1 || c >= |w.g1.instrs|) && c != w.done
    requires forall t :: t in T ==> t >= |w.g1.instrs|
    requires Open(g', cur') && (cur' == w.b1 || cur' >= |w.g1.instrs|) && cur' != w.done
    ensures Framed(w, g', cur')
  {
    OnlyOn(w.g1, g, g', w.b1, {}, c, T, {});
    SpareStays(w.g1, g, g', c, T, w.done);
  }

  // ----- making blocks -----

  /** A new block takes the next place in bodies. */
  lemma BodyAdded(w: Work, g: Graph, cur: int, bodies: seq<nat>, i: nat, dflt: int, dfltNext: int)
    requires Framed(w, g, cur) && Allotted(w, bodies) && AllBelow(bodies, |g.instrs|)
    requires i <= |w.st.clauses| && (i == 0 || i < |bodies| || |bodies| == |w.st.clauses|)
    requires Chosen(w, g, cur, bodies, i) && BodiesRun(w, g, bodies, i) && DefaultKept(w, g, cur, bodies, i, dflt, dfltNext)
    ensures var g', bodies' := WithBlock(g), bodies + [|g.instrs|];
      && Framed(w, g', cur) && Allotted(w, bodies') && Spare(w.g1, g', |g.instrs|) && cur != |g.instrs|
      && Chosen(w, g', cur, bodies', i) && BodiesRun(w, g', bodies', i) && DefaultKept(w, g', cur, bodies', i, dflt, dfltNext)
      && AllBelow(bodies', |g'.instrs|)
  {
    var g', bodies', n := WithBlock(g), bodies + [|g.instrs|], |g.instrs|;
    BlockAdded(g);
    Untouched(g, g', n, {}, cur);
    FrameStays(w, g, g', cur, cur, n, {});
    DistinctAppend(bodies, n);
    SelectsStable(g, g', w.g1, w.b1, |w.g1.instrs[w.b1]|, w.tag, w.st.clauses, i, bodies, bodies', cur, |g.instrs[cur]|);
    BodiesStay(w, g, g', bodies, bodies', i);
    DefaultStays(w, g, g', cur, cur, bodies, bodies', i, dflt, dfltNext, n, {});
  }

  // ----- the default clause -----

  lemma DefaultDone(w: Work, g: Graph, cur: int, bodies: seq<nat>, i: nat, dflt: int, dfltNext: int)
    requires Prepared(w, g, cur, bodies, i, dflt, dfltNext) && w.st.clauses[i].Default? && DefaultIndex(w.st.clauses, i) < 0
    ensures var next := NextBody(w.st.clauses, bodies, w.done, i); Clausing(w, g, cur, bodies, i + 1, next, bodies[i], next)
  {
    SelectsDefault(g, w.g1, w.b1, |w.g1.instrs[w.b1]|, w.tag, w.st.clauses, i, bodies, cur, |g.instrs[cur]|);
    assert DefaultIndex(w.st.clauses, i + 1) == i;
    var next := NextBody(w.st.clauses, bodies, w.done, i);
    assert PhiFree(g, next);
  }

  // ----- a case clause -----

  /** g2 after the tests with the next test at cur2, g3 after the body. */
  ghost predicate CaseBuilt(w: Work, g: Graph, g2: Graph, g3: Graph, cur: int, cur2: int, bodies: seq<nat>, i: nat) {
    && w.st.Switch? && i < |w.st.clauses| && w.st.clauses[i].Case? && i < |bodies| && 0 <= cur < |g.instrs| && 0 <= cur2 < |g2.instrs|
    && WellFormed(g2) && WellFormed(g3) && Open(g2, cur2) && (cur2 == cur || cur2 >= |g.instrs|)
    && Only(g, g2, cur, {bodies[i]}) && Only(g2, g3, bodies[i], {w.done, NextBody(w.st.clauses, bodies, w.done, i)} + {w.done})
    && Tests(g2, g, cur, |g.instrs[cur]|, w.tag, w.st.clauses[i].conds, |w.st.clauses[i].conds|, bodies[i], cur2, |g2.instrs[cur2]|)
    && Executes(g3, g2, bodies[i], 0, Means(w.st.clauses[i].body), w.done, NextBody(w.st.clauses, bodies, w.done, i), w.done, 0)
  }

  lemma CaseFrames(w: Work, g: Graph, g2: Graph, g3: Graph, cur: int, cur2: int, bodies: seq<nat>, i: nat, dflt: int, dfltNext: int)
    requires Prepared(w, g, cur, bodies, i, dflt, dfltNext) && CaseBuilt(w, g, g2, g3, cur, cur2, bodies, i)
    ensures Framed(w, g3, cur2) && g3.instrs[cur2] == g2.instrs[cur2] && Grows(g, g2) && Grows(g2, g3) && Grows(w.g1, g) && Grows(w.g1, g2)
    ensures i + 1 < |bodies| ==> Spare(w.g1, g3, bodies[i + 1]) && cur2 != bodies[i + 1]
    ensures cur2 != bodies[i]
  {
    var body, next := bodies[i], NextBody(w.st.clauses, bodies, w.done, i);
    FrameStays(w, g, g2, cur, cur2, cur, {body});
    Untouched(g2, g3, body, {w.done, next} + {w.done}, cur2);
    FrameStays(w, g2, g3, cur2, cur2, body, {w.done, next} + {w.done});
    if i + 1 < |bodies| {
      SpareStays(w.g1, g, g2, cur, {body}, bodies[i + 1]);
      SpareStays(w.g1, g2, g3, body, {w.done, next} + {w.done}, bodies[i + 1]);
    }
  }

  lemma CaseChosen(w: Work, g: Graph, g2: Graph, g3: Graph, cur: int, cur2: int, bodies: seq<nat>, i: nat, dflt: int, dfltNext: int)
    requires Prepared(w, g, cur, bodies, i, dflt, dfltNext) && CaseBuilt(w, g, g2, g3, cur, cur2, bodies, i)
    ensures Chosen(w, g3, cur2, bodies, i + 1)
  {
    CaseFrames(w, g, g2, g3, cur, cur2, bodies, i, dflt, dfltNext);
    SelectsCase(w.g1, g, g2, w.b1, |w.g1.instrs[w.b1]|, w.tag, w.st.clauses, i, bodies, cur, |g.instrs[cur]|, cur2, |g2.instrs[cur2]|);
    SelectsStable(g2, g3, w.g1, w.b1, |w.g1.instrs[w.b1]|, w.tag, w.st.clauses, i + 1, bodies, bodies, cur2, |g2.instrs[cur2]|);
  }

  lemma CaseRuns(w: Work, g: Graph, g2: Graph, g3: Graph, cur: int, cur2: int, bodies: seq<nat>, i: nat, dflt: int, dfltNext: int)
    requires Prepared(w, g, cur, bodies, i, dflt, dfltNext) && CaseBuilt(w, g, g2, g3, cur, cur2, bodies, i)
    ensures BodiesRun(w, g3, bodies, i + 1)
  {
    CaseFrames(w, g, g2, g3, cur, cur2, bodies, i, dflt, dfltNext);
    GrowsOn(g, g2, g3);
    BodiesStay(w, g, g3, bodies, bodies, i);
    ExecutesLess(g3, w.g1, g2, bodies[i], 0, Means(w.st.clauses[i].body), w.done, NextBody(w.st.clauses, bodies, w.done, i), w.done, 0);
  }

  lemma CaseDone(w: Work, g: Graph, g2: Graph, g3: Graph, cur: int, cur2: int, bodies: seq<nat>, i: nat, dflt: int, dfltNext: int)
    requires Prepared(w, g, cur, bodies, i, dflt, dfltNext) && CaseBuilt(w, g, g2, g3, cur, cur2, bodies, i)
    ensures Clausing(w, g3, cur2, bodies, i + 1, NextBody(w.st.clauses, bodies, w.done, i), dflt, dfltNext)
  {
    CaseFrames(w, g, g2, g3, cur, cur2, bodies, i, dflt, dfltNext);
    CaseChosen(w, g, g2, g3, cur, cur2, bodies, i, dflt, dfltNext);
    CaseRuns(w, g, g2, g3, cur, cur2, bodies, i, dflt, dfltNext);
    DefaultStays(w, g, g2, cur, cur2, bodies, bodies, i, dflt, dfltNext, cur, {bodies[i]});
    DefaultStays(w, g2, g3, cur2, cur2, bodies, bodies, i, dflt, dfltNext, bodies[i], {w.done, NextBody(w.st.clauses, bodies, w.done, i)} + {w.done});
    assert DefaultIndex(w.st.clauses, i + 1) == DefaultIndex(w.st.clauses, i);
  }

  // ----- the end -----

  /** The whole switch does what it means and leaves from the start of done. */
  ghost predicate SwitchDone(w: Work, g0: Graph, b0: nat, pc0: nat, g3: Graph, brk: int, ft: int) {
    && Only(w.g1, g3, w.b1, {}) && Spare(w.g1, g3, w.done)
    && Executes(g3, g0, b0, pc0, Means(w.st), brk, ft, w.done, 0)
  }

  ghost predicate TagDone(w: Work, g0: Graph, b0: nat, pc0: nat) {
    && w.st.Switch? && w.b1 < |w.g1.instrs| && Grows(g0, w.g1)
    && TagEvaluates(w.g1, g0, b0, pc0, w.st.tag, w.tag, w.b1, |w.g1.instrs[w.b1]|)
  }

  /** Without a default the last test ends at done. */
  lemma FinishPlain(w: Work, g0: Graph, b0: nat, pc0: nat, g: Graph, cur: int, bodies: seq<nat>, fallthru: int, dflt: int, dfltNext: int, g3: Graph, brk: int, ft: int)
    requires TagDone(w, g0, b0, pc0) && Clausing(w, g, cur, bodies, |w.st.clauses|, fallthru, dflt, dfltNext) && DefaultIndex(w.st.clauses, |w.st.clauses|) < 0
    requires Only(g, g3, cur, {w.done}) && g3.instrs[cur] == g.instrs[cur] + [Jump] && g3.succs[cur] == [w.done]
    ensures SwitchDone(w, g0, b0, pc0, g3, brk, ft)
  {
    OnlyOn(w.g1, g, g3, w.b1, {}, cur, {w.done}, {});
    SpareStays(w.g1, g, g3, cur, {w.done}, w.done);
    BodiesStay(w, g, g3, bodies, bodies, |w.st.clauses|);
    ExecutesJump(g, g3, cur, w.done, Skip(), NIL, NIL, w.done, 0);
    SwitchExecutes(g0, w.g1, g, g3, b0, pc0, w.st, w.tag, w.b1, |w.g1.instrs[w.b1]|, bodies, w.done, cur, |g.instrs[cur]|, brk, ft);
  }

  /** With a default the last test ends at its body, which is lowered last. */
  lemma FinishDefault(w: Work, g0: Graph, b0: nat, pc0: nat, g: Graph, cur: int, bodies: seq<nat>, fallthru: int, dflt: int, dfltNext: int, g2: Graph, g3: Graph, brk: int, ft: int)
    requires TagDone(w, g0, b0, pc0) && Clausing(w, g, cur, bodies, |w.st.clauses|, fallthru, dflt, dfltNext) && DefaultIndex(w.st.clauses, |w.st.clauses|) >= 0
    requires Only(g, g2, cur, {dflt}) && g2.instrs[cur] == g.instrs[cur] + [Jump] && g2.succs[cur] == [dflt]
    requires Only(g2, g3, dflt, {w.done, dfltNext} + {w.done})
    requires Executes(g3, g2, dflt, 0, Means(w.st.clauses[DefaultIndex(w.st.clauses, |w.st.clauses|)].body), w.done, dfltNext, w.done, 0)
    ensures SwitchDone(w, g0, b0, pc0, g3, brk, ft)
  {
    var n, d := |w.st.clauses|, DefaultIndex(w.st.clauses, |w.st.clauses|);
    OnlyOn(w.g1, g, g2, w.b1, {}, cur, {dflt}, {});
    OnlyOn(w.g1, g2, g3, w.b1, {}, dflt, {w.done, dfltNext} + {w.done}, {});
    SpareStays(w.g1, g, g2, cur, {dflt}, w.done);
    SpareStays(w.g1, g2, g3, dflt, {w.done, dfltNext} + {w.done}, w.done);
    GrowsOn(g, g2, g3);
    BodiesStay(w, g, g3, bodies, bodies, n);
    ExecutesLess(g3, w.g1, g2, dflt, 0, Means(w.st.clauses[d].body), w.done, dfltNext, w.done, 0);
    forall j | 0 <= j < n ensures BodyRuns(g3, w.g1, w.st.clauses, bodies, w.done, j) {
      assert j != d ==> w.st.clauses[j].Case?;
    }
    ExecutesJump(g, g2, cur, dflt, Skip(), NIL, NIL, dflt, 0);
    ExecutesStable(g2, g3, g, cur, |g.instrs[cur]|, Skip(), NIL, NIL, dflt, 0);
    SwitchExecutes(g0, w.g1, g, g3, b0, pc0, w.st, w.tag, w.b1, |w.g1.instrs[w.b1]|, bodies, w.done, cur, |g.instrs[cur]|, brk, ft);
  }

  // ----- what the steps need -----

  lemma StartClauses(w: Work, g: Graph)
    requires w.st.Switch? && OneDefault(w.st.clauses) && WellFormed(w.g1) && Open(w.g1, w.b1) && Exists(w.g1, w.tag)
    requires g == WithBlock(w.g1) && w.done == |w.g1.instrs|
    ensures Clausing(w, g, w.b1, [], 0, NIL, NIL, NIL)
  {
    BlockAdded(w.g1);
    OnlyNew(w.g1, g, w.b1, w.done);
    SelectsNothing(w.g1, w.b1, |w.g1.instrs[w.b1]|, w.tag, w.st.clauses, []);
    SelectsStable(w.g1, g, w.g1, w.b1, |w.g1.instrs[w.b1]|, w.tag, w.st.clauses, 0, [], [], w.b1, |w.g1.instrs[w.b1]|);
  }

  lemma BodyReady(w: Work, g: Graph, g2: Graph, cur: int, bodies: seq<nat>, i: nat, dflt: int, dfltNext: int)
    requires Prepared(w, g, cur, bodies, i, dflt, dfltNext) && Only(g, g2, cur, {bodies[i]})
    ensures var next := NextBody(w.st.clauses, bodies, w.done, i);
      Spare(w.g1, g2, bodies[i]) && Spare(w.g1, g2, w.done) && Spare(w.g1, g2, next) && bodies[i] != w.done && next != bodies[i]
  {
    SpareStays(w.g1, g, g2, cur, {bodies[i]}, bodies[i]);
    SpareStays(w.g1, g, g2, cur, {bodies[i]}, w.done);
    SpareStays(w.g1, g, g2, cur, {bodies[i]}, NextBody(w.st.clauses, bodies, w.done, i));
  }

  lemma TagThere(w: Work, g: Graph, cur: int)
    requires Framed(w, g, cur)
    ensures Exists(g, w.tag)
  {
    if w.tag.Reg? { assert BlockGrows(w.g1, g, w.tag.block); }
  }

  lemma DefaultReady(w: Work, g: Graph, g2: Graph, cur: int, bodies: seq<nat>, fallthru: int, dflt: int, dfltNext: int)
    requires w.st.Switch? && Clausing(w, g, cur, bodies, |w.st.clauses|, fallthru, dflt, dfltNext) && dflt != NIL && Only(g, g2, cur, {dflt})
    ensures Spare(w.g1, g2, dflt) && Spare(w.g1, g2, w.done) && dfltNext >= 0 && PhiFree(g2, dfltNext) && dflt != w.done && dfltNext != dflt
  {
    SpareStays(w.g1, g, g2, cur, {dflt}, dflt);
    SpareStays(w.g1, g, g2, cur, {dflt}, w.done);
    StillFree(g, g2, cur, {dflt}, {dfltNext});
  }
}
