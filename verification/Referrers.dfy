/** Referrer lists: every value knows the instructions that use it. An instruction is named by its
    register, a new phi by its own name; constants have no list. */
module Referrers {
  import opened Lifting

  type Refs = map<Value, seq<Value>>

  function RefsOf(refs: Refs, x: Value): (us: seq<Value>) {
    if x in refs then refs[x] else []
  }

  /** All operands of an instruction, those of a phi included. */
  function Rands(ins: Instr): (vs: seq<Value>) {
    if ins.Phi? then ins.edges else Operands(ins)
  }

  // ----- what the lists should hold -----

  ghost predicate UsedByInstr(code: seq<seq<Option<Instr>>>, u: Value, x: Value) {
    u.Reg? && u.b < |code| && u.j < |code[u.b]| && code[u.b][u.j].Some? && x in Rands(code[u.b][u.j].value)
  }

  ghost predicate UsedByPhi(phis: seq<seq<NewPhi>>, u: Value, x: Value) {
    u.PhiOf? && u.b < |phis| && exists m :: 0 <= m < |phis[u.b]| && phis[u.b][m].k == u.k && Some(x) in phis[u.b][m].edges
  }

  /** The surviving instruction or new phi u has the operand x. */
  ghost predicate UsesValue(code: seq<seq<Option<Instr>>>, phis: seq<seq<NewPhi>>, u: Value, x: Value) {
    UsedByInstr(code, u, x) || UsedByPhi(phis, u, x)
  }

  /** The list of x holds exactly the users of x. The list of a cell that is being lifted is not kept
      up to date; it holds no new phi. */
  ghost predicate ListOk(cells: set<Value>, code: seq<seq<Option<Instr>>>, phis: seq<seq<NewPhi>>, refs: Refs, x: Value) {
    if x.Const? then RefsOf(refs, x) == []
    else if x in cells then forall u :: u in RefsOf(refs, x) ==> !u.PhiOf?
    else forall u :: u in RefsOf(refs, x) <==> UsesValue(code, phis, u, x)
  }

  ghost predicate RefsOk(cells: set<Value>, code: seq<seq<Option<Instr>>>, phis: seq<seq<NewPhi>>, refs: Refs) {
    forall x {:trigger ListOk(cells, code, phis, refs, x)} :: ListOk(cells, code, phis, refs, x)
  }

  /** The cells of a plan, as values. */
  ghost function Cells(pl: Plan): (cells: set<Value>)
    ensures forall v :: v in cells <==> pl.IsCell(v)
  {
    set p | p in pl.index :: Reg(p.0, p.1)
  }

  // ----- building them -----

  /** Reg(b, j) with the operand x comes before operand k of instruction i of block a. */
  ghost predicate Seen(blocks: seq<seq<Instr>>, u: Value, x: Value, a: nat, i: nat, k: nat) {
    && u.Reg? && u.b < |blocks| && u.j < |blocks[u.b]|
    && if u.b == a && u.j == i then k <= |Rands(blocks[a][i])| && x in Rands(blocks[a][i])[..k]
       else (u.b < a || (u.b == a && u.j < i)) && x in Rands(blocks[u.b][u.j])
  }

  ghost predicate BuiltTo(blocks: seq<seq<Instr>>, refs: Refs, a: nat, i: nat, k: nat) {
    forall x, u {:trigger u in RefsOf(refs, x)} :: u in RefsOf(refs, x) <==> !x.Const? && Seen(blocks, u, x, a, i, k)
  }

  /** buildReferrers. */
  method BuildReferrers(blocks: seq<seq<Instr>>) returns (refs: Refs)
    ensures IsReferrers(blocks, refs)
  {
    refs := map[];
    for a := 0 to |blocks|
      invariant BuiltTo(blocks, refs, a, 0, 0)
    {
      for i := 0 to |blocks[a]|
        invariant BuiltTo(blocks, refs, a, i, 0)
      {
        var rands := Rands(blocks[a][i]);
        for k := 0 to |rands|
          invariant BuiltTo(blocks, refs, a, i, k)
        {
          ghost var was := refs;
          if !rands[k].Const? {
            refs := refs[rands[k] := RefsOf(refs, rands[k]) + [Reg(a, i)]];
          }
          BuiltNext(blocks, was, refs, a, i, k);
        }
        assert rands[..|rands|] == rands;
        BuiltSame(blocks, refs, a, i, |rands|, a, i + 1);
      }
      BuiltSame(blocks, refs, a, |blocks[a]|, 0, a + 1, 0);
    }
    forall x, u ensures u in RefsOf(refs, x) <==> !x.Const? && UsedInBlocks(blocks, u, x) {
      assert u in RefsOf(refs, x) <==> !x.Const? && Seen(blocks, u, x, |blocks|, 0, 0);
    }
  }

  ghost predicate UsedInBlocks(blocks: seq<seq<Instr>>, u: Value, x: Value) {
    u.Reg? && u.b < |blocks| && u.j < |blocks[u.b]| && x in Rands(blocks[u.b][u.j])
  }

  /** The lists of a function before lifting. */
  ghost predicate IsReferrers(blocks: seq<seq<Instr>>, refs: Refs) {
    forall x, u {:trigger u in RefsOf(refs, x)} :: u in RefsOf(refs, x) <==> !x.Const? && UsedInBlocks(blocks, u, x)
  }

  lemma BuiltNext(blocks: seq<seq<Instr>>, refs: Refs, refs': Refs, a: nat, i: nat, k: nat)
    requires a < |blocks| && i < |blocks[a]| && k < |Rands(blocks[a][i])| && BuiltTo(blocks, refs, a, i, k)
    requires var r := Rands(blocks[a][i])[k]; refs' == if r.Const? then refs else refs[r := RefsOf(refs, r) + [Reg(a, i)]]
    ensures BuiltTo(blocks, refs', a, i, k + 1)
  {
    var rands := Rands(blocks[a][i]);
    assert rands[..k + 1] == rands[..k] + [rands[k]];
    forall x, u ensures u in RefsOf(refs', x) <==> !x.Const? && Seen(blocks, u, x, a, i, k + 1) {
      assert u in RefsOf(refs, x) <==> !x.Const? && Seen(blocks, u, x, a, i, k);
      assert RefsOf(refs', x) == if x == rands[k] && !x.Const? then RefsOf(refs, x) + [Reg(a, i)] else RefsOf(refs, x);
    }
  }

  /** Two positions with nothing between them. */
  lemma BuiltSame(blocks: seq<seq<Instr>>, refs: Refs, a: nat, i: nat, k: nat, a': nat, i': nat)
    requires a < |blocks| && BuiltTo(blocks, refs, a, i, k)
    requires (i < |blocks[a]| && k == |Rands(blocks[a][i])| && a' == a && i' == i + 1) || (i == |blocks[a]| && k == 0 && a' == a + 1 && i' == 0)
    ensures BuiltTo(blocks, refs, a', i', 0)
  {
    forall x, u ensures u in RefsOf(refs, x) <==> !x.Const? && Seen(blocks, u, x, a', i', 0) {
      assert u in RefsOf(refs, x) <==> !x.Const? && Seen(blocks, u, x, a, i, k);
      if i < |blocks[a]| { assert Rands(blocks[a][i])[..k] == Rands(blocks[a][i]); }
    }
  }

  // ----- removing an instruction from a list -----

  function WithoutUser(us: seq<Value>, u: Value): (r: seq<Value>)
    ensures forall w :: w in r <==> w in us && w != u
  {
    if us == [] then [] else
    var n := |us| - 1;
    assert us == us[..n] + [us[n]];
    if us[n] == u then WithoutUser(us[..n], u) else WithoutUser(us[..n], u) + [us[n]]
  }

  /** One turn of the compaction. */
  lemma RemoveStep(refs: seq<Value>, r: seq<Value>, i: nat, k: nat, u: Value)
    requires i <= k < |refs| == |r| && r[k..] == refs[k..] && r[..i] == WithoutUser(refs[..k], u)
    ensures r[k] == refs[k]
    ensures if r[k] != u then r[i := r[k]][k + 1..] == refs[k + 1..] && r[i := r[k]][..i + 1] == WithoutUser(refs[..k + 1], u)
            else r[k + 1..] == refs[k + 1..] && r[..i] == WithoutUser(refs[..k + 1], u)
  {
    assert r[k] == r[k..][0] == refs[k] && r[k + 1..] == r[k..][1..] && refs[k + 1..] == refs[k..][1..];
    assert refs[..k + 1][..k] == refs[..k];
    if r[k] != u {
      assert r[i := r[k]][..i + 1] == r[..i] + [r[k]];
    }
  }

  /** removeInstr: compacts the list in place. */
  method RemoveInstr(refs: seq<Value>, instr: Value) returns (r: seq<Value>)
    ensures r == WithoutUser(refs, instr)
  {
    var i := 0;
    r := refs;
    for k := 0 to |refs|
      invariant i <= k && |r| == |refs| && r[k..] == refs[k..] && r[..i] == WithoutUser(refs[..k], instr)
    {
      RemoveStep(refs, r, i, k, instr);
      if r[k] != instr {
        r := r[i := r[k]];
        i := i + 1;
      }
    }
    assert refs[..|refs|] == refs;
    r := r[..i];
  }

  // ----- replacing a value -----

  function Replace(v: Value, x: Value, y: Value): (w: Value) {
    if v == x then y else v
  }

  function ReplaceList(vs: seq<Value>, x: Value, y: Value): (ws: seq<Value>)
    ensures |ws| == |vs| && forall i :: 0 <= i < |vs| ==> ws[i] == Replace(vs[i], x, y)
  {
    seq(|vs|, i requires 0 <= i < |vs| => Replace(vs[i], x, y))
  }

  function ReplaceInstr(ins: Instr, x: Value, y: Value): (r: Instr) {
    match ins
    case Alloc(_) => ins
    case Load(a) => Load(Replace(a, x, y))
    case Store(a, v) => Store(Replace(a, x, y), Replace(v, x, y))
    case Phi(edges) => Phi(ReplaceList(edges, x, y))
    case Op(args) => Op(ReplaceList(args, x, y))
  }

  function ReplaceSlot(c: Option<Instr>, x: Value, y: Value): (r: Option<Instr>) {
    if c.Some? then Some(ReplaceInstr(c.value, x, y)) else c
  }

  function ReplaceEdges(es: seq<Option<Value>>, x: Value, y: Value): (fs: seq<Option<Value>>)
    ensures |fs| == |es| && forall e :: 0 <= e < |es| ==> fs[e] == if es[e].Some? then Some(Replace(es[e].value, x, y)) else None
  {
    seq(|es|, e requires 0 <= e < |es| => if es[e].Some? then Some(Replace(es[e].value, x, y)) else None)
  }

  function ReplacePhi(np: NewPhi, x: Value, y: Value): (r: NewPhi) {
    NewPhi(np.k, ReplaceEdges(np.edges, x, y))
  }

  lemma RandsReplaced(ins: Instr, x: Value, y: Value)
    ensures Rands(ReplaceInstr(ins, x, y)) == ReplaceList(Rands(ins), x, y)
  {
  }

  /** What a replaced list holds. */
  lemma ListReplaced(vs: seq<Value>, x: Value, y: Value, z: Value)
    requires x != y
    ensures z in ReplaceList(vs, x, y) <==> (z in vs && z != x) || (z == y && x in vs)
  {
    var ws := ReplaceList(vs, x, y);
    if z in vs && z != x {
      var i :| 0 <= i < |vs| && vs[i] == z;
      assert ws[i] == z;
    }
    if z == y && x in vs {
      var i :| 0 <= i < |vs| && vs[i] == x;
      assert ws[i] == z;
    }
  }

  lemma EdgesReplaced(es: seq<Option<Value>>, x: Value, y: Value, z: Value)
    requires x != y
    ensures Some(z) in ReplaceEdges(es, x, y) <==> (Some(z) in es && z != x) || (z == y && Some(x) in es)
  {
    var fs := ReplaceEdges(es, x, y);
    if Some(z) in es && z != x {
      var i :| 0 <= i < |es| && es[i] == Some(z);
      assert fs[i] == Some(z);
    }
    if z == y && Some(x) in es {
      var i :| 0 <= i < |es| && es[i] == Some(x);
      assert fs[i] == Some(z);
    }
  }

  /** Where x is not used nothing changes, and replacing twice is replacing once. */
  lemma ReplaceSlotFacts(c: Option<Instr>, x: Value, y: Value)
    requires x != y
    ensures c.Some? && x !in Rands(c.value) ==> ReplaceSlot(c, x, y) == c
    ensures ReplaceSlot(ReplaceSlot(c, x, y), x, y) == ReplaceSlot(c, x, y)
  {
    if c.Some? {
      var vs := Rands(c.value);
      if x !in vs { assert ReplaceList(vs, x, y) == vs; }
      assert ReplaceList(ReplaceList(vs, x, y), x, y) == ReplaceList(vs, x, y);
      assert x !in vs ==> forall v :: v in vs ==> v != x;
    }
  }

  lemma ReplacePhiFacts(np: NewPhi, x: Value, y: Value)
    requires x != y
    ensures Some(x) !in np.edges ==> ReplacePhi(np, x, y) == np
    ensures ReplacePhi(ReplacePhi(np, x, y), x, y) == ReplacePhi(np, x, y)
  {
    var es := np.edges;
    if Some(x) !in es { assert ReplaceEdges(es, x, y) == es; }
    assert ReplaceEdges(ReplaceEdges(es, x, y), x, y) == ReplaceEdges(es, x, y);
  }

  /** x has been replaced by y in every instruction. */
  ghost predicate SlotsReplaced(code: seq<seq<Option<Instr>>>, code': seq<seq<Option<Instr>>>, x: Value, y: Value) {
    && |code'| == |code| && (forall b :: 0 <= b < |code| ==> |code'[b]| == |code[b]|)
    && forall b, j :: 0 <= b < |code| && 0 <= j < |code[b]| ==> code'[b][j] == ReplaceSlot(code[b][j], x, y)
  }

  ghost predicate PhisReplaced(phis: seq<seq<NewPhi>>, phis': seq<seq<NewPhi>>, x: Value, y: Value) {
    && |phis'| == |phis| && (forall v :: 0 <= v < |phis| ==> |phis'[v]| == |phis[v]|)
    && forall v, m :: 0 <= v < |phis| && 0 <= m < |phis[v]| ==> phis'[v][m] == ReplacePhi(phis[v][m], x, y)
  }

  lemma InstrUsesReplaced(code: seq<seq<Option<Instr>>>, code': seq<seq<Option<Instr>>>, x: Value, y: Value, u: Value, z: Value)
    requires x != y && SlotsReplaced(code, code', x, y)
    ensures UsedByInstr(code', u, z) <==> (UsedByInstr(code, u, z) && z != x) || (z == y && UsedByInstr(code, u, x))
  {
    if u.Reg? && u.b < |code| && u.j < |code[u.b]| && code[u.b][u.j].Some? {
      RandsReplaced(code[u.b][u.j].value, x, y);
      ListReplaced(Rands(code[u.b][u.j].value), x, y, z);
    }
  }

  lemma PhiUsesReplaced(phis: seq<seq<NewPhi>>, phis': seq<seq<NewPhi>>, x: Value, y: Value, u: Value, z: Value)
    requires x != y && PhisReplaced(phis, phis', x, y)
    ensures UsedByPhi(phis', u, z) <==> (UsedByPhi(phis, u, z) && z != x) || (z == y && UsedByPhi(phis, u, x))
  {
    if u.PhiOf? && u.b < |phis| {
      forall m | 0 <= m < |phis[u.b]|
        ensures Some(z) in phis'[u.b][m].edges <==> (Some(z) in phis[u.b][m].edges && z != x) || (z == y && Some(x) in phis[u.b][m].edges)
      {
        EdgesReplaced(phis[u.b][m].edges, x, y, z);
      }
    }
  }

  /** The users us have been added to the list of y, and nothing else has changed. */
  ghost predicate Moved(refs: Refs, refs': Refs, us: seq<Value>, y: Value) {
    forall z {:trigger MovedAt(refs, refs', us, y, z)} :: MovedAt(refs, refs', us, y, z)
  }

  ghost predicate MovedAt(refs: Refs, refs': Refs, us: seq<Value>, y: Value, z: Value) {
    RefsOf(refs', z) == if z == y && !y.Const? then RefsOf(refs, y) + us else RefsOf(refs, z)
  }

  lemma MovedNext(refs: Refs, refs': Refs, us: seq<Value>, u: Value, y: Value)
    requires Moved(refs, refs', us, y)
    ensures Moved(refs, AddUser(refs', u, y), us + [u], y)
  {
    var added, us' := AddUser(refs', u, y), us + [u];
    forall z ensures MovedAt(refs, added, us', y, z) {
      assert MovedAt(refs, refs', us, y, z);
    }
  }

  /** Appends u to the list of y, if y has one. */
  function AddUser(refs: Refs, u: Value, y: Value): (r: Refs) {
    if y.Const? then refs else refs[y := RefsOf(refs, y) + [u]]
  }

  /** Moving the list of x to y is right once x has been replaced by y everywhere. */
  lemma MovedOk(cells: set<Value>, code: seq<seq<Option<Instr>>>, code': seq<seq<Option<Instr>>>, phis: seq<seq<NewPhi>>, phis': seq<seq<NewPhi>>,
                refs: Refs, refs': Refs, x: Value, y: Value)
    requires x != y && !x.Const? && x !in cells && y !in cells && RefsOk(cells, code, phis, refs)
    requires SlotsReplaced(code, code', x, y) && PhisReplaced(phis, phis', x, y)
    requires Moved(refs, refs', RefsOf(refs, x), y)
    ensures RefsOk(cells, code', phis', refs'[x := []])
  {
    var cleared := refs'[x := []];
    forall z ensures ListOk(cells, code', phis', cleared, z) {
      assert ListOk(cells, code, phis, refs, z) && ListOk(cells, code, phis, refs, x);
      assert MovedAt(refs, refs', RefsOf(refs, x), y, z);
      assert RefsOf(cleared, z) == if z == x then [] else RefsOf(refs', z);
      forall u | !z.Const? && z !in cells ensures u in RefsOf(cleared, z) <==> UsesValue(code', phis', u, z) {
        InstrUsesReplaced(code, code', x, y, u, z);
        PhiUsesReplaced(phis, phis', x, y, u, z);
      }
    }
  }

  // ----- replaceAll, user by user -----

  /** The uses of x in the instructions us have been replaced. */
  ghost predicate SlotsReplacedIn(code: seq<seq<Option<Instr>>>, code': seq<seq<Option<Instr>>>, us: seq<Value>, x: Value, y: Value) {
    && |code'| == |code| && (forall b :: 0 <= b < |code| ==> |code'[b]| == |code[b]|)
    && forall b, j :: 0 <= b < |code| && 0 <= j < |code[b]| ==>
         code'[b][j] == if Reg(b, j) in us then ReplaceSlot(code[b][j], x, y) else code[b][j]
  }

  ghost predicate PhisReplacedIn(phis: seq<seq<NewPhi>>, phis': seq<seq<NewPhi>>, us: seq<Value>, x: Value, y: Value) {
    && |phis'| == |phis| && (forall v :: 0 <= v < |phis| ==> |phis'[v]| == |phis[v]|)
    && forall v, m :: 0 <= v < |phis| && 0 <= m < |phis[v]| ==>
         phis'[v][m] == if PhiOf(v, phis[v][m].k) in us then ReplacePhi(phis[v][m], x, y) else phis[v][m]
  }

  /** Replaces x in the operands of the instruction u. */
  function ReplaceInSlot(code: seq<seq<Option<Instr>>>, u: Value, x: Value, y: Value): (r: seq<seq<Option<Instr>>>) {
    if u.Reg? && u.b < |code| && u.j < |code[u.b]|
    then code[u.b := code[u.b][u.j := ReplaceSlot(code[u.b][u.j], x, y)]] else code
  }

  /** Replaces x in the edges of the new phi u. */
  function ReplaceInPhi(phis: seq<seq<NewPhi>>, u: Value, x: Value, y: Value): (r: seq<seq<NewPhi>>) {
    if u.PhiOf? && u.b < |phis|
    then
      var ps := phis[u.b];
      phis[u.b := seq(|ps|, m requires 0 <= m < |ps| => if ps[m].k == u.k then ReplacePhi(ps[m], x, y) else ps[m])]
    else phis
  }

  lemma ReplacedNext(code: seq<seq<Option<Instr>>>, code': seq<seq<Option<Instr>>>, us: seq<Value>, u: Value, x: Value, y: Value)
    requires x != y && SlotsReplacedIn(code, code', us, x, y)
    ensures SlotsReplacedIn(code, ReplaceInSlot(code', u, x, y), us + [u], x, y)
  {
    var c := ReplaceInSlot(code', u, x, y);
    forall b, j | 0 <= b < |code| && 0 <= j < |code[b]|
      ensures c[b][j] == if Reg(b, j) in us + [u] then ReplaceSlot(code[b][j], x, y) else code[b][j]
    {
      ReplaceSlotFacts(code[b][j], x, y);
    }
  }

  lemma PhiReplacedNext(phis: seq<seq<NewPhi>>, phis': seq<seq<NewPhi>>, us: seq<Value>, u: Value, x: Value, y: Value)
    requires x != y && PhisReplacedIn(phis, phis', us, x, y)
    ensures PhisReplacedIn(phis, ReplaceInPhi(phis', u, x, y), us + [u], x, y)
  {
    var ps := ReplaceInPhi(phis', u, x, y);
    forall v, m | 0 <= v < |phis| && 0 <= m < |phis[v]|
      ensures ps[v][m] == if PhiOf(v, phis[v][m].k) in us + [u] then ReplacePhi(phis[v][m], x, y) else phis[v][m]
    {
      ReplacePhiFacts(phis[v][m], x, y);
    }
  }

  /** The list of x leads to every use of x, so replacing x there replaces it everywhere. */
  lemma ListReachesAll(cells: set<Value>, code: seq<seq<Option<Instr>>>, code': seq<seq<Option<Instr>>>, phis: seq<seq<NewPhi>>, phis': seq<seq<NewPhi>>,
                       refs: Refs, x: Value, y: Value)
    requires x != y && !x.Const? && x !in cells && ListOk(cells, code, phis, refs, x)
    requires SlotsReplacedIn(code, code', RefsOf(refs, x), x, y) && PhisReplacedIn(phis, phis', RefsOf(refs, x), x, y)
    ensures SlotsReplaced(code, code', x, y) && PhisReplaced(phis, phis', x, y)
  {
    forall b, j | 0 <= b < |code| && 0 <= j < |code[b]| ensures code'[b][j] == ReplaceSlot(code[b][j], x, y) {
      assert Reg(b, j) in RefsOf(refs, x) <==> UsesValue(code, phis, Reg(b, j), x);
      ReplaceSlotFacts(code[b][j], x, y);
    }
    forall v, m | 0 <= v < |phis| && 0 <= m < |phis[v]| ensures phis'[v][m] == ReplacePhi(phis[v][m], x, y) {
      var u := PhiOf(v, phis[v][m].k);
      assert u in RefsOf(refs, x) <==> UsesValue(code, phis, u, x);
      assert Some(x) in phis[v][m].edges ==> UsedByPhi(phis, u, x);
      ReplacePhiFacts(phis[v][m], x, y);
    }
  }

  // ----- deleting an instruction, setting an edge -----

  /** Deleting an instruction is right once it is off the lists of its operands. */
  lemma DeletedOk(cells: set<Value>, code: seq<seq<Option<Instr>>>, phis: seq<seq<NewPhi>>, refs: Refs, refs': Refs, b: nat, j: nat)
    requires b < |code| && j < |code[b]| && code[b][j].Some? && RefsOk(cells, code, phis, refs)
    requires forall x {:trigger RefsOf(refs', x)} :: RefsOf(refs', x) ==
               if x in Rands(code[b][j].value) && x !in cells && !x.Const? then WithoutUser(RefsOf(refs, x), Reg(b, j)) else RefsOf(refs, x)
    ensures RefsOk(cells, code[b := code[b][j := None]], phis, refs')
  {
    var code' := code[b := code[b][j := None]];
    forall x ensures ListOk(cells, code', phis, refs', x) {
      assert ListOk(cells, code, phis, refs, x);
      forall u | !x.Const? && x !in cells ensures u in RefsOf(refs', x) <==> UsesValue(code', phis, u, x) {
        assert UsedByInstr(code', u, x) <==> UsedByInstr(code, u, x) && u != Reg(b, j);
      }
    }
  }

  /** Setting an edge of a new phi is right once the phi is on the list of the new operand. */
  lemma EdgeSetOk(cells: set<Value>, code: seq<seq<Option<Instr>>>, phis: seq<seq<NewPhi>>, refs: Refs, refs': Refs, v: nat, m: nat, e: nat, y: Value)
    requires v < |phis| && m < |phis[v]| && e < |phis[v][m].edges| && RefsOk(cells, code, phis, refs)
    requires phis[v][m].edges[e] in {None, Some(y)} && y !in cells
    requires refs' == AddUser(refs, PhiOf(v, phis[v][m].k), y)
    ensures RefsOk(cells, code, phis[v := phis[v][m := NewPhi(phis[v][m].k, phis[v][m].edges[e := Some(y)])]], refs')
  {
    var np := phis[v][m];
    var np' := NewPhi(np.k, np.edges[e := Some(y)]);
    var phis' := phis[v := phis[v][m := np']];
    forall x ensures ListOk(cells, code, phis', refs', x) {
      assert ListOk(cells, code, phis, refs, x);
      EdgeAdded(np.edges, e, x, y);
      assert RefsOf(refs', x) == RefsOf(refs, x) + if x == y && !x.Const? then [PhiOf(v, np.k)] else [];
      forall u | !x.Const? && x !in cells ensures u in RefsOf(refs', x) <==> UsesValue(code, phis', u, x) {
        PhiUseAdded(phis, v, m, np', u, x, x == y);
      }
    }
  }

  lemma EdgeAdded(es: seq<Option<Value>>, e: nat, x: Value, y: Value)
    requires e < |es| && es[e] in {None, Some(y)}
    ensures Some(x) in es[e := Some(y)] <==> Some(x) in es || x == y
  {
    var fs := es[e := Some(y)];
    if Some(x) in es {
      var i :| 0 <= i < |es| && es[i] == Some(x);
      assert fs[i] == Some(x);
    }
    assert fs[e] == Some(y);
  }

  lemma PhiUseAdded(phis: seq<seq<NewPhi>>, v: nat, m: nat, np': NewPhi, u: Value, x: Value, more: bool)
    requires v < |phis| && m < |phis[v]| && np'.k == phis[v][m].k
    requires Some(x) in np'.edges <==> Some(x) in phis[v][m].edges || more
    ensures UsedByPhi(phis[v := phis[v][m := np']], u, x) <==> UsedByPhi(phis, u, x) || (more && u == PhiOf(v, np'.k))
  {
    var phis' := phis[v := phis[v][m := np']];
    assert phis'[v][m] == np';
    if u.PhiOf? && u.b == v {
      forall n | 0 <= n < |phis[v]| && n != m ensures phis'[v][n] == phis[v][n] {
      }
    }
  }
}
