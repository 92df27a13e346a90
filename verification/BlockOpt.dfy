/** optimizeBlocks: dead block elimination, block fusion and jump threading on the blocks of a
    function, in place. */
module BlockOpt {
  import opened Flowgraphs
  import opened Cfgs
  import opened BlockPasses

  /** The blocks of a list that may hold nils. */
  ghost function LiveOf(blocks: seq<int>): (S: set<nat>)
    ensures forall x: nat :: x in S <==> x in blocks
  {
    set i: nat | i < |blocks| && blocks[i] >= 0 :: blocks[i] as nat
  }

  /** A list without its nils. */
  function Compact(blocks: seq<int>): (r: seq<int>)
    ensures forall i :: 0 <= i < |r| ==> r[i] >= 0
    ensures forall x :: x >= 0 ==> (x in r <==> x in blocks)
    ensures |r| <= |blocks|
  {
    if blocks == [] then [] else
    var n := |blocks| - 1;
    assert blocks == blocks[..n] + [blocks[n]];
    if blocks[n] < 0 then Compact(blocks[..n]) else Compact(blocks[..n]) + [blocks[n]]
  }

  lemma {:induction false} CompactShrinks(blocks: seq<int>, i: nat)
    requires i < |blocks| && blocks[i] >= 0
    ensures |Compact(blocks[i := NIL])| == |Compact(blocks)| - 1
  {
    var n := |blocks| - 1;
    if i < n {
      CompactShrinks(blocks[..n], i);
      assert blocks[i := NIL][..n] == blocks[..n][i := NIL];
    } else {
      assert blocks[i := NIL][..n] == blocks[..n];
    }
  }

  lemma {:induction false} CompactFirst(blocks: seq<int>)
    requires blocks != [] && blocks[0] >= 0
    ensures Compact(blocks) != [] && Compact(blocks)[0] == blocks[0]
  {
    var n := |blocks| - 1;
    if n > 0 { CompactFirst(blocks[..n]); }
  }

  /** Every block knows its place in the list. */
  ghost predicate Listed(blocks: seq<int>, index: seq<int>) {
    forall i :: 0 <= i < |blocks| && blocks[i] >= 0 ==> blocks[i] < |index| && index[blocks[i]] == i
  }

  ghost predicate NoRepeats(blocks: seq<int>) {
    forall i, j :: 0 <= i < j < |blocks| && blocks[i] >= 0 ==> blocks[i] != blocks[j]
  }

  // ----- marking -----

  /** How many blocks are white. */
  ghost function Whites(index: seq<int>): (n: nat) {
    if index == [] then 0 else Whites(index[..|index| - 1]) + (if index[|index| - 1] == 0 then 1 else 0)
  }

  lemma {:induction false} WhitesShrink(a: seq<int>, b: seq<int>)
    requires |a| == |b| && forall x :: 0 <= x < |a| && b[x] == 0 ==> a[x] == 0
    ensures Whites(b) <= Whites(a)
    ensures (exists x :: 0 <= x < |a| && a[x] == 0 && b[x] != 0) ==> Whites(b) < Whites(a)
  {
    if a != [] {
      WhitesShrink(a[..|a| - 1], b[..|b| - 1]);
      if x :| 0 <= x < |a| && a[x] == 0 && b[x] != 0 {
        assert x < |a| - 1 ==> a[..|a| - 1][x] == 0 && b[..|b| - 1][x] != 0;
      }
    }
  }

  /** x was marked between the two markings. */
  ghost predicate NewlyMarked(index: seq<int>, index': seq<int>, x: nat) {
    x < |index| == |index'| && index[x] != -1 && index'[x] == -1
  }

  /** All successors of x are marked. */
  ghost predicate Passed(succs: seq<seq<nat>>, index: seq<int>, x: nat) {
    x < |succs| && forall v: nat :: v in succs[x] ==> v < |index| && index[v] == -1
  }

  /** Marks only grow, within live. */
  ghost predicate Marks(index: seq<int>, index': seq<int>, live: set<nat>) {
    && |index| == |index'|
    && (forall x :: 0 <= x < |index| && index'[x] != index[x] ==> index'[x] == -1 && x in live)
  }

  ghost predicate SuccClosed(succs: seq<seq<nat>>, S: set<nat>) {
    forall u: nat, v: nat :: u in S && u < |succs| && v in succs[u] ==> v in S
  }

  /** Whatever is closed under successors and contains b contains the new marks. */
  ghost predicate OnlyReached(succs: seq<seq<nat>>, index: seq<int>, index': seq<int>, b: nat) {
    forall S: set<nat>, x: nat {:trigger SuccClosed(succs, S), NewlyMarked(index, index', x)} ::
      SuccClosed(succs, S) && b in S && NewlyMarked(index, index', x) ==> x in S
  }

  ghost predicate Markable(succs: seq<seq<nat>>, index: seq<int>, live: set<nat>) {
    && |succs| == |index| && (forall x :: x in live && x < |index| ==> index[x] == 0 || index[x] == -1)
    && (forall u :: u in live ==> u < |succs| && forall v :: v in succs[u] ==> v in live)
  }

  /** After marking b and its first k successors. */
  ghost predicate Marking(succs: seq<seq<nat>>, index: seq<int>, index': seq<int>, live: set<nat>, b: nat, k: nat) {
    && Markable(succs, index', live) && b in live && k <= |succs[b]| && Marks(index, index', live) && index'[b] == -1
    && (forall x {:trigger Passed(succs, index', x)} :: x != b && NewlyMarked(index, index', x) ==> Passed(succs, index', x))
    && (forall j :: 0 <= j < k ==> succs[b][j] < |index'| && index'[succs[b][j]] == -1)
    && OnlyReached(succs, index, index', b)
  }

  lemma MarkingCalled(succs: seq<seq<nat>>, i0: seq<int>, i1: seq<int>, i2: seq<int>, live: set<nat>, b: nat, k: nat)
    requires Marking(succs, i0, i1, live, b, k) && k < |succs[b]| && succs[b][k] < |i1| == |succs| && i1[succs[b][k]] == 0
    requires Marking(succs, i1, i2, live, succs[b][k], |succs[succs[b][k]]|)
    ensures Marking(succs, i0, i2, live, b, k + 1)
  {
    var c := succs[b][k];
    forall x: nat | x != b && NewlyMarked(i0, i2, x) ensures Passed(succs, i2, x) {
      if x == c {
        forall v: nat | v in succs[c] ensures v < |i2| && i2[v] == -1 {
          var j :| 0 <= j < |succs[c]| && succs[c][j] == v;
        }
      } else if NewlyMarked(i1, i2, x) {
        assert Passed(succs, i2, x);
      } else {
        assert NewlyMarked(i0, i1, x) && Passed(succs, i1, x);
      }
    }
    forall S: set<nat>, x: nat | SuccClosed(succs, S) && b in S && NewlyMarked(i0, i2, x) ensures x in S {
      assert c in succs[b];
      assert NewlyMarked(i0, i1, x) || NewlyMarked(i1, i2, x);
    }
  }

  // ----- deleting unreachable blocks -----

  /** The predecessors in gone have been struck out of c. */
  ghost predicate Struck(g0: Cfg, g: Cfg, gone: set<nat>, c: nat) {
    && c < |g.instrs| == |g.preds| == |g.succs| && c < |g0.preds|
    && Shaped(g, c) && Distinct(g.preds[c])
    && (forall x :: x in g.preds[c] <==> x in g0.preds[c] && x !in gone)
  }

  ghost predicate AllStruck(g0: Cfg, g: Cfg, gone: set<nat>, M: set<nat>) {
    forall c {:trigger Struck(g0, g, gone, c)} :: c in M ==> Struck(g0, g, gone, c)
  }

  /** M is the set of reached blocks: closed and contained in every closed set. */
  ghost predicate IsReached(g: Cfg, live: set<nat>, roots: set<nat>, M: set<nat>) {
    && M <= live && Closed(g, live, roots, M)
    && (forall S: set<nat> :: Closed(g, live, roots, S) ==> M <= S)
  }

  lemma SameHistoriesChain(g0: Cfg, g1: Cfg, g2: Cfg, roots: set<nat>)
    requires SameHistories(g0, g1, roots) && SameHistories(g1, g2, roots)
    ensures SameHistories(g0, g2, roots)
  {
    forall root, br: Branches, h | root in roots ensures Shows(g0, br, root, h) <==> Shows(g2, br, root, h) {
      assert Shows(g0, br, root, h) <==> Shows(g1, br, root, h);
    }
  }

  lemma HasElement(s: seq<nat>)
    ensures s == [] || s[0] in s
  {
  }

  /** Once the unreached blocks are struck out everywhere, the reached ones are well formed. */
  lemma ReachedWellFormed(g0: Cfg, g: Cfg, live: set<nat>, roots: set<nat>, entry: nat, M: set<nat>)
    requires WellFormed(g0, live, roots, entry) && IsReached(g0, live, roots, M)
    requires SameSize(g0, g) && g.succs == g0.succs && AllStruck(g0, g, live - M, M)
    ensures WellFormed(g, M, roots, entry) && AllReached(g, M, roots)
  {
    forall u | u in M ensures Dual(g, M, u) && Shaped(g, u) {
      assert Dual(g0, live, u) && Struck(g0, g, live - M, u);
      forall v: nat | v in g.succs[u] ensures v in M && u in g.preds[v] {
        assert Struck(g0, g, live - M, v);
      }
    }
    forall r | r in roots ensures g.preds[r] == [] {
      assert Struck(g0, g, live - M, r);
      HasElement(g.preds[r]);
    }
    forall S: set<nat> | Closed(g, M, roots, S) ensures M <= S {
      assert Closed(g0, live, roots, S * M);
    }
  }

  class Func {
    const entry: nat
    const recover: int
    var instrs: seq<seq<Instr>>
    var preds: seq<seq<nat>>
    var succs: seq<seq<nat>>
    var index: seq<int>
    var blocks: seq<int>

    constructor (instrs: seq<seq<Instr>>, preds: seq<seq<nat>>, succs: seq<seq<nat>>, blocks: seq<int>, entry: nat, recover: int)
      ensures this.instrs == instrs && this.preds == preds && this.succs == succs && this.blocks == blocks
      ensures this.entry == entry && this.recover == recover && |index| == |instrs|
    {
      this.instrs, this.preds, this.succs, this.blocks := instrs, preds, succs, blocks;
      this.entry, this.recover := entry, recover;
      index := seq(|instrs|, _ => 0);
    }

    ghost function Graph(): (g: Cfg)
      reads this
    {
      Cfg(instrs, preds, succs)
    }

    ghost function Roots(): (R: set<nat>) {
      if recover >= 0 then {entry, recover as nat} else {entry}
    }

    ghost predicate Ready()
      reads this
    {
      && WellFormed(Graph(), LiveOf(blocks), Roots(), entry) && |index| == |instrs|
      && blocks != [] && blocks[0] == entry && NoRepeats(blocks)
    }

    /** Ready, with all blocks reached and each at its place. */
    ghost predicate Valid()
      reads this
    {
      Ready() && AllReached(Graph(), LiveOf(blocks), Roots()) && Listed(blocks, index)
    }

    // ----- Preds and phis -----

    /** phis: the number of phis at the head of a block, none if there is nothing else in it. */
    method Phis(b: nat) returns (n: nat)
      requires b < |instrs|
      ensures n <= |instrs[b]| && forall i :: 0 <= i < n ==> instrs[b][i].Phi?
      ensures (n < |instrs[b]| && !instrs[b][n].Phi?) || (n == 0 && forall i :: 0 <= i < |instrs[b]| ==> instrs[b][i].Phi?)
    {
      for i := 0 to |instrs[b]|
        invariant forall k :: 0 <= k < i ==> instrs[b][k].Phi?
      {
        if !instrs[b][i].Phi? { return i; }
      }
      return 0;
    }

    /** removePred: compacts the predecessors of c and, at the same places, the operands of its phis. */
    method RemovePred(c: nat, p: nat)
      requires |instrs| == |preds| == |succs| && c < |instrs| && Shaped(Graph(), c)
      modifies this`instrs, this`preds
      ensures Graph() == PredRemoved(old(Graph()), c, p)
    {
      var n := Phis(c);
      var ps, code := preds[c], instrs[c];
      var j := 0;
      ghost var ps0, code0 := ps, code;
      assert forall m :: n <= m < |code0| ==> !code0[m].Phi?;
      for i := 0 to |ps|
        invariant |ps| == |ps0| && j <= i && ps[i..] == ps0[i..] && ps[..j] == Without(ps0[..i], p)
        invariant AllCompacted(code0, code, n, ps0, p, i, j) && preds == old(preds) && instrs == old(instrs)
      {
        CompactStep(ps, ps0, i, j, p);
        if ps[i] != p {
          ps := ps[j := ps[i]];
          code := MoveEdges(code, n, i, j, code0, ps0, p);
          j := j + 1;
        } else {
          forall m | 0 <= m < n ensures Compacted(code0[m], code[m], ps0, p, i + 1, j) {
            CompactedSkips(code0[m], code[m], ps0, p, i, j);
          }
        }
      }
      assert ps0[..|ps0|] == ps0;
      code := CutEdges(code, n, j, code0, ps0, p);
      preds, instrs := preds[c := ps[..j]], instrs[c := code];
    }

    /** replacePred. */
    method ReplacePred(b: nat, p: nat, q: nat)
      requires b < |preds|
      modifies this`preds
      ensures preds == old(preds)[b := Replaced(old(preds)[b], p, q)]
    {
      for i := 0 to |preds[b]|
        invariant |preds| == |old(preds)| && |preds[b]| == |old(preds)[b]|
        invariant forall x :: 0 <= x < |preds| && x != b ==> preds[x] == old(preds)[x]
        invariant forall k :: 0 <= k < |preds[b]| ==> preds[b][k] == if k < i && old(preds)[b][k] == p then q else old(preds)[b][k]
      {
        if preds[b][i] == p {
          var row: seq<nat> := preds[b][i := q];
          preds := preds[b := row];
        }
      }
      assert preds[b] == Replaced(old(preds)[b], p, q);
    }

    /** replaceSucc. */
    method ReplaceSucc(b: nat, p: nat, q: nat)
      requires b < |succs|
      modifies this`succs
      ensures succs == old(succs)[b := Replaced(old(succs)[b], p, q)]
    {
      for i := 0 to |succs[b]|
        invariant |succs| == |old(succs)| && |succs[b]| == |old(succs)[b]|
        invariant forall x :: 0 <= x < |succs| && x != b ==> succs[x] == old(succs)[x]
        invariant forall k :: 0 <= k < |succs[b]| ==> succs[b][k] == if k < i && old(succs)[b][k] == p then q else old(succs)[b][k]
      {
        if succs[b][i] == p {
          var row: seq<nat> := succs[b][i := q];
          succs := succs[b := row];
        }
      }
      assert succs[b] == Replaced(old(succs)[b], p, q);
    }

    /** removeNilBlocks: compacts the list of blocks and numbers them. */
    method RemoveNilBlocks()
      requires forall i :: 0 <= i < |blocks| ==> blocks[i] < |index|
      requires NoRepeats(blocks)
      modifies this`blocks, this`index
      ensures blocks == Compact(old(blocks)) && |index| == |old(index)| && Listed(blocks, index)
      ensures NoRepeats(blocks) && LiveOf(blocks) == LiveOf(old(blocks))
    {
      var j := 0;
      ghost var was := blocks;
      for i := 0 to |blocks|
        invariant |blocks| == |was| && j <= i && blocks[i..] == was[i..] && blocks[..j] == Compact(was[..i])
        invariant |index| == |old(index)|
        invariant Listed(blocks[..j], index) && NoRepeats(was)
      {
        assert blocks[i] == blocks[i..][0] == was[i];
        assert was[..i + 1][..i] == was[..i];
        if blocks[i] >= 0 {
          assert was[i] !in was[..i];
          ghost var before, at := blocks[..j], index;
          index := index[blocks[i] := j];
          blocks := blocks[j := blocks[i]];
          j := j + 1;
          assert blocks[..j] == before + [was[i]];
          forall k | 0 <= k < j ensures index[blocks[k]] == k {
            assert k < j - 1 ==> blocks[k] == before[k] && at[before[k]] == k && before[k] != was[i];
          }
        }
      }
      assert was[..|was|] == was;
      blocks := blocks[..j];
    }

    // ----- deleteUnreachableBlocks -----

    /** markReachable sets index to -1 for what b leads to through unmarked blocks. */
    method MarkReachable(b: nat, ghost live: set<nat>)
      requires Markable(succs, index, live) && b in live
      modifies this`index
      ensures Marking(succs, old(index), index, live, b, |succs[b]|)
      decreases Whites(index[b := -1])
    {
      ghost var index0 := index;
      index := index[b := -1];
      for k := 0 to |succs[b]|
        invariant Marking(succs, index0, index, live, b, k)
      {
        ghost var index1 := index;
        var c := succs[b][k];
        assert c in succs[b];
        if index[c] == 0 {
          MarkFits(index0, index, b, c, live);
          MarkReachable(c, live);
          MarkingCalled(succs, index0, index1, index, live, b, k);
        }
      }
    }

    /** Strikes b out of its marked successors. */
    method StrikeEdges(b: nat, ghost g0: Cfg, ghost gone: set<nat>, ghost M: set<nat>, ghost live: set<nat>)
      requires WellFormed(g0, live, Roots(), entry) && IsReached(g0, live, Roots(), M) && b in live && b !in M
      requires SameSize(g0, Graph()) && succs == g0.succs && |index| == |instrs| && AllStruck(g0, Graph(), gone, M)
      requires forall x :: x in live ==> (index[x] == -1 <==> x in M)
      modifies this`instrs, this`preds
      ensures SameSize(g0, Graph()) && AllStruck(g0, Graph(), gone + {b}, M) && SameHistories(old(Graph()), Graph(), Roots())
    {
      for k := 0 to |succs[b]|
        invariant SameSize(g0, Graph()) && SameHistories(old(Graph()), Graph(), Roots())
        invariant forall c {:trigger c in M} :: c in M ==> Struck(g0, Graph(), if c in g0.succs[b][..k] then gone + {b} else gone, c)
      {
        var c := succs[b][k];
        assert Dual(g0, live, b) && c in g0.succs[b];
        ghost var g := Graph();
        assert g0.succs[b][..k + 1] == g0.succs[b][..k] + [c];
        if index[c] == -1 {
          assert c in M && Struck(g0, g, gone, c);
          StrikeSame(g0, g, c, b, live, Roots(), M);
          RemovePred(c, b);
          SameHistoriesChain(old(Graph()), g, Graph(), Roots());
          StrikeOne(g0, g, c, b, gone);
          forall d | d in M ensures Struck(g0, Graph(), if d in g0.succs[b][..k + 1] then gone + {b} else gone, d) {
            if d != c {
              assert Struck(g0, g, if d in g0.succs[b][..k] then gone + {b} else gone, d);
            }
          }
        }
      }
      assert g0.succs[b][..|succs[b]|] == g0.succs[b];
      forall c | c in M ensures Struck(g0, Graph(), gone + {b}, c) {
        assert Dual(g0, live, c);
        assert c !in g0.succs[b] ==> b !in g0.preds[c];
      }
    }

    /** Marks the blocks that the roots lead to. */
    method MarkFromRoots(ghost live: set<nat>)
      requires WellFormed(Graph(), live, Roots(), entry) && |index| == |instrs| && LiveOf(blocks) == live
      requires forall i :: 0 <= i < |blocks| ==> blocks[i] >= 0
      modifies this`index
      ensures |index| == |old(index)| && forall x :: x in live ==> index[x] == 0 || index[x] == -1
      ensures IsReached(Graph(), live, Roots(), Marked(index, live))
    {
      assert forall j :: 0 <= j < |blocks| ==> blocks[j] in live;
      for i := 0 to |blocks|
        invariant |index| == |instrs| && forall j :: 0 <= j < |blocks| ==> blocks[j] < |index|
        invariant forall j :: 0 <= j < i ==> index[blocks[j]] == 0
      {
        assert blocks[i] in live;
        index := index[blocks[i] := 0];
      }
      forall x | x in live ensures index[x] == 0 {
        var j :| 0 <= j < |blocks| && blocks[j] == x;
      }
      assert Markable(succs, index, live) by {
        forall u | u in live ensures u < |succs| && forall v :: v in succs[u] ==> v in live {
          assert Dual(Graph(), live, u);
        }
      }
      ghost var index0 := index;
      MarkReachable(entry, live);
      ghost var index1 := index;
      MarkedClosed(succs, index0, index1, live, entry);
      if recover >= 0 {
        assert recover in Roots();
        MarkReachable(recover, live);
        MarkedClosed(succs, index1, index, live, recover);
      }
      MarkedLeast(Graph(), live, Roots(), entry, recover, index0, index1, index);
    }

    /** deleteUnreachableBlocks keeps exactly the blocks reached from the roots. */
    method DeleteUnreachableBlocks()
      requires Ready() && forall i :: 0 <= i < |blocks| ==> blocks[i] >= 0
      modifies this
      ensures Valid() && SameHistories(old(Graph()), Graph(), Roots())
      ensures IsReached(old(Graph()), LiveOf(old(blocks)), Roots(), LiveOf(blocks))
      ensures forall i :: 0 <= i < |blocks| ==> blocks[i] >= 0
    {
      ghost var g0, live := Graph(), LiveOf(blocks);
      ghost var M := DropUnreached(g0, live);
      RemoveNilBlocks();
      ReachedWellFormed(g0, Graph(), live, Roots(), entry, M);
    }

    /** Marks, and puts nil for what is not marked. */
    method DropUnreached(ghost g0: Cfg, ghost live: set<nat>) returns (ghost M: set<nat>)
      requires Ready() && g0 == Graph() && live == LiveOf(blocks) && forall i :: 0 <= i < |blocks| ==> blocks[i] >= 0
      modifies this`instrs, this`preds, this`blocks, this`index
      ensures |index| == |instrs| && SameSize(g0, Graph()) && AllStruck(g0, Graph(), live - M, M) && SameHistories(g0, Graph(), Roots())
      ensures IsReached(g0, live, Roots(), M) && LiveOf(blocks) == M && NoRepeats(blocks) && forall i :: 0 <= i < |blocks| ==> blocks[i] < |index|
      ensures Compact(blocks) != [] && Compact(blocks)[0] == entry
    {
      MarkFromRoots(live);
      M := Marked(index, live);
      StrikeUnmarked(g0, M, live);
      KeptList(old(blocks), blocks, M, entry);
    }

    /** Deletes the unmarked blocks and their edges to marked ones. */
    method StrikeUnmarked(ghost g0: Cfg, ghost M: set<nat>, ghost live: set<nat>)
      requires g0 == Graph() && WellFormed(g0, live, Roots(), entry) && IsReached(g0, live, Roots(), M) && live == LiveOf(blocks)
      requires |index| == |instrs| && M == Marked(index, live) && forall x :: x in live ==> index[x] == 0 || index[x] == -1
      requires forall i :: 0 <= i < |blocks| ==> blocks[i] >= 0
      modifies this`instrs, this`preds, this`blocks
      ensures SameSize(g0, Graph()) && AllStruck(g0, Graph(), live - M, M) && SameHistories(g0, Graph(), Roots())
      ensures |blocks| == |old(blocks)| && forall j :: 0 <= j < |blocks| ==> blocks[j] == if old(blocks)[j] !in M then NIL else old(blocks)[j]
    {
      ghost var gone: set<nat> := {};
      NothingStruck(g0, live, Roots(), entry, M);
      for i := 0 to |blocks|
        invariant |blocks| == |old(blocks)| && SameSize(g0, Graph())
        invariant forall j :: 0 <= j < |blocks| ==> blocks[j] == if j < i && old(blocks)[j] !in M then NIL else old(blocks)[j]
        invariant forall x: nat :: x in gone <==> x in old(blocks)[..i] && x !in M
        invariant AllStruck(g0, Graph(), gone, M) && SameHistories(g0, Graph(), Roots())
      {
        var b := blocks[i];
        assert b in live && old(blocks)[..i + 1] == old(blocks)[..i] + [b];
        if index[b] == 0 {
          ghost var g := Graph();
          StrikeEdges(b, g0, gone, M, live);
          SameHistoriesChain(g0, g, Graph(), Roots());
          gone := gone + {b};
          blocks := blocks[i := NIL];
        }
      }
      assert old(blocks)[..|blocks|] == old(blocks) && gone == live - M;
    }

    // ----- fuseBlocks -----

    /** fuseBlocks: reports whether block a could be fused with its successor, and if so does it. */
    method FuseBlocks(a: nat) returns (ok: bool)
      requires Valid() && a in LiveOf(blocks)
      modifies this
      ensures Valid() && SameHistories(old(Graph()), Graph(), Roots())
      ensures ok == Fusable(old(Graph()), a)
      ensures var g, live := old(Graph()), old(LiveOf(blocks));
        ok <==> exists b: nat :: b in live && g.succs[a] == [b] && g.preds[b] == [a] && (g.instrs[b] == [] || !g.instrs[b][0].Phi?)
      ensures if ok then Dropped(old(blocks), blocks) && a in LiveOf(blocks) && index == old(index)
        else Graph() == old(Graph()) && blocks == old(blocks) && index == old(index)
    {
      ghost var g := Graph();
      FusableMeans(g, LiveOf(blocks), Roots(), entry, a);
      assert Dual(g, LiveOf(blocks), a);
      if |succs[a]| != 1 { return false; }
      var b := succs[a][0];
      assert b in succs[a] && succs[a] == [b];
      if |preds[b]| != 1 { return false; }
      LiveShaped(g, LiveOf(blocks), Roots(), entry, b);
      if instrs[b][0].Phi? { return false; }
      FusingFacts(g, LiveOf(blocks), Roots(), entry, a, b);
      assert Dual(g, LiveOf(blocks), b);
      FusedShows(g, LiveOf(blocks), Roots(), entry, a, b);
      FusedWellFormed(g, LiveOf(blocks), Roots(), entry, a, b);
      assert forall i :: 0 <= i < |succs[b]| ==> succs[b][i] in succs[b];
      Merge(a, b);
      DropBlock(blocks, index, b);
      blocks := blocks[index[b] := NIL];
      return true;
    }

    /** Copies the instructions and successors of b to a, and puts a in its place as a predecessor. */
    method Merge(a: nat, b: nat)
      requires |instrs| == |preds| == |succs| && a < |instrs| && b < |instrs| && a != b && |instrs[a]| > 0
      requires Distinct(succs[b]) && AllBelow(succs[b], |preds|)
      modifies this`instrs, this`preds, this`succs
      ensures Graph() == Fused(old(Graph()), a, b)
    {
      ghost var g := Graph();
      instrs := instrs[a := instrs[a][..|instrs[a]| - 1] + instrs[b]];
      succs := succs[a := succs[b]];
      for k := 0 to |succs[b]|
        invariant instrs == Fused(g, a, b).instrs && succs == Fused(g, a, b).succs && |preds| == |g.preds|
        invariant forall x :: 0 <= x < |preds| ==> preds[x] == if x in g.succs[b][..k] then Replaced(g.preds[x], b, a) else g.preds[x]
      {
        var c := succs[b][k];
        assert g.succs[b][..k + 1] == g.succs[b][..k] + [c];
        ReplacePred(c, b, a);
      }
      assert g.succs[b][..|g.succs[b]|] == g.succs[b];
    }

    // ----- jumpThreading -----

    /** Leads the j-th predecessor a of b on to c. */
    method ThreadOne(a: nat, b: nat, c: nat, j: nat, ghost g: Cfg, ghost live: set<nat>)
      requires WellFormed(g, live, Roots(), entry) && AllReached(g, live, Roots()) && b in live && CanThread(g, entry, b, c)
      requires ThreadedTo(g, Graph(), b, c, j) && j < |g.preds[b]| && a == g.preds[b][j]
      modifies this`instrs, this`preds, this`succs
      ensures ThreadedTo(g, Graph(), b, c, j + 1)
    {
      ghost var g1 := Graph();
      ThreadOneFacts(g, g1, live, Roots(), entry, a, b, c, j);
      ReplaceSucc(a, b, c);
      if |succs[a]| == 2 && succs[a][0] == c && succs[a][1] == c {
        instrs := instrs[a := instrs[a][|instrs[a]| - 1 := Jump]];
        succs := succs[a := succs[a][..1]];
        ghost var g2 := Graph();
        assert succs[a] == [c] && succs == g1.succs[a := [c]];
        assert Shaped(g2, c) by { StillShaped(g, g1, g2, b, c, a, j); }
        RemovePred(c, b);
        ThreadedMerged(g, g1, g2, Graph(), live, Roots(), entry, a, b, c, j);
      } else {
        if j == 0 {
          ReplacePred(c, b, a);
        } else {
          preds := preds[c := preds[c] + [a]];
        }
        ThreadedMoved(g, g1, Graph(), live, Roots(), entry, a, b, c, j);
      }
    }

    /** Leads every predecessor of b on to c. */
    method Bypass(b: nat, c: nat, ghost live: set<nat>)
      requires WellFormed(Graph(), live, Roots(), entry) && AllReached(Graph(), live, Roots()) && b in live && CanThread(Graph(), entry, b, c)
      modifies this`instrs, this`preds, this`succs
      ensures SameHistories(old(Graph()), Graph(), Roots()) && SameSize(old(Graph()), Graph())
      ensures WellFormed(Graph(), live - {b}, Roots(), entry) && AllReached(Graph(), live - {b}, Roots())
    {
      ghost var g := Graph();
      ThreadingFacts(g, live, Roots(), entry, b, c);
      assert Dual(g, live, c);
      for j := 0 to |preds[b]|
        invariant ThreadedTo(g, Graph(), b, c, j) && preds[b] == g.preds[b]
      {
        ThreadOne(preds[b][j], b, c, j, g, live);
      }
      ThreadedAll(g, Graph(), b, c);
      ThreadedShows(g, Graph(), live, Roots(), entry, b, c);
      ThreadedWellFormed(g, Graph(), live, Roots(), entry, b, c);
    }

    /** jumpThreading: reports whether block b could be bypassed, and if so does it. */
    method JumpThreading(b: nat) returns (ok: bool)
      requires Valid() && b in LiveOf(blocks)
      modifies this
      ensures Valid() && SameHistories(old(Graph()), Graph(), Roots())
      ensures ok == Threadable(old(Graph()), entry, b)
      ensures var g, live := old(Graph()), old(LiveOf(blocks));
        ok <==> (b != entry && g.instrs[b] != [] && g.instrs[b][0].Jump?
                 && exists c: nat :: c in live && g.succs[b] == [c] && c != b && (g.instrs[c] == [] || !g.instrs[c][0].Phi?))
      ensures if ok then Dropped(old(blocks), blocks) && index == old(index)
        else Graph() == old(Graph()) && blocks == old(blocks) && index == old(index)
    {
      ghost var g, live := Graph(), LiveOf(blocks);
      ThreadableMeans(g, live, Roots(), entry, b);
      EntryFirst(blocks, index, b);
      if index[b] == 0 { return false; }
      if instrs[b] == [] { return false; }
      if !instrs[b][0].Jump? { return false; }
      LiveShaped(g, live, Roots(), entry, b);
      var c := succs[b][0];
      assert Dual(g, live, b) && c in succs[b];
      if c == b { return false; }
      LiveShaped(g, live, Roots(), entry, c);
      if instrs[c][0].Phi? { return false; }
      assert CanThread(g, entry, b, c);
      Bypass(b, c, live);
      DropBlock(blocks, index, b);
      blocks := blocks[index[b] := NIL];
      return true;
    }

    // ----- optimizeBlocks -----

    /** Fuses and threads what applies at one place of the list. */
    method Improve(i: nat) returns (changed: bool)
      requires Valid() && i < |blocks|
      modifies this
      ensures Valid() && SameHistories(old(Graph()), Graph(), Roots()) && Thinned(old(blocks), blocks) && index == old(index)
      ensures if changed then |Compact(blocks)| < |Compact(old(blocks))|
        else Graph() == old(Graph()) && blocks == old(blocks) && (blocks[i] >= 0 ==> Settled(Graph(), entry, blocks[i]))
    {
      SameHistoriesRefl(Graph(), Roots());
      var b := blocks[i];
      if b < 0 { return false; }
      assert b in blocks;
      changed := FuseBlocks(b);
      ghost var g, bs := Graph(), blocks;
      var threaded := JumpThreading(b);
      SameHistoriesChain(old(Graph()), g, Graph(), Roots());
      TwoDrops(old(blocks), bs, blocks, changed, threaded);
      changed := changed || threaded;
    }

    /** One round over all blocks. */
    method Round() returns (changed: bool)
      requires Valid()
      modifies this
      ensures Valid() && SameHistories(old(Graph()), Graph(), Roots()) && Thinned(old(blocks), blocks)
      ensures if changed then |Compact(blocks)| < |Compact(old(blocks))| else blocks == old(blocks) && AllSettled(Graph(), entry, blocks)
    {
      changed := false;
      SameHistoriesRefl(Graph(), Roots());
      for i := 0 to |blocks|
        invariant Valid() && SameHistories(old(Graph()), Graph(), Roots()) && Thinned(old(blocks), blocks) && |blocks| == |old(blocks)|
        invariant if changed then |Compact(blocks)| < |Compact(old(blocks))| else blocks == old(blocks) && AllSettled(Graph(), entry, blocks[..i])
      {
        ghost var g := Graph();
        var improved := Improve(i);
        SameHistoriesChain(old(Graph()), g, Graph(), Roots());
        if !changed && !improved { SettledNext(Graph(), entry, blocks, i); }
        changed := changed || improved;
      }
      assert old(blocks)[..|blocks|] == old(blocks);
    }

    /** Rounds until nothing changes, over a list that may come to hold nils. */
    method ImproveAll()
      requires Valid()
      modifies this
      ensures Valid() && SameHistories(old(Graph()), Graph(), Roots()) && LiveOf(blocks) <= LiveOf(old(blocks))
      ensures AllSettled(Graph(), entry, blocks)
    {
      var changed := true;
      SameHistoriesRefl(Graph(), Roots());
      while changed
        invariant Valid() && SameHistories(old(Graph()), Graph(), Roots()) && LiveOf(blocks) <= LiveOf(old(blocks))
        invariant !changed ==> AllSettled(Graph(), entry, blocks)
        decreases |Compact(blocks)|, changed
      {
        ghost var g, bs := Graph(), blocks;
        changed := Round();
        SameHistoriesChain(old(Graph()), g, Graph(), Roots());
        ThinnedLive(bs, blocks);
      }
    }

    /** optimizeBlocks terminates with a well-formed function of reached blocks to which neither
        optimization applies, and which executes what the given one does. No block that is the only
        successor of its only predecessor is left, unless it begins with a phi; and no block other
        than the entry begins with a jump, unless to itself or to a block that begins with a phi. */
    method OptimizeBlocks()
      requires Ready() && forall i :: 0 <= i < |blocks| ==> blocks[i] >= 0
      modifies this
      ensures Valid() && SameHistories(old(Graph()), Graph(), Roots())
      ensures LiveOf(blocks) <= LiveOf(old(blocks)) && forall i :: 0 <= i < |blocks| ==> blocks[i] >= 0
      ensures forall a: nat, b: nat :: a in LiveOf(blocks) && b in LiveOf(blocks) && succs[a] == [b] && preds[b] == [a] ==>
                instrs[b] != [] && instrs[b][0].Phi?
      ensures forall b: nat :: b in LiveOf(blocks) && b != entry && instrs[b] != [] && instrs[b][0].Jump? ==>
                exists c: nat :: c in LiveOf(blocks) && succs[b] == [c] && (c == b || (instrs[c] != [] && instrs[c][0].Phi?))
    {
      DeleteUnreachableBlocks();
      ghost var g := Graph();
      ImproveAll();
      SameHistoriesChain(old(Graph()), g, Graph(), Roots());
      CompactFirst(blocks);
      NothingLeft(Graph(), Roots(), entry, blocks);
      ghost var bs := blocks;
      RemoveNilBlocks();
      assert LiveOf(blocks) == LiveOf(bs);
    }
  }

  /** One turn of the compaction of a list of predecessors. */
  lemma CompactStep(ps: seq<nat>, ps0: seq<nat>, i: nat, j: nat, p: nat)
    requires |ps| == |ps0| && j <= i < |ps| && ps[i..] == ps0[i..] && ps[..j] == Without(ps0[..i], p)
    ensures ps[i] == ps0[i]
    ensures if ps[i] != p then ps[j := ps[i]][i + 1..] == ps0[i + 1..] && ps[j := ps[i]][..j + 1] == Without(ps0[..i + 1], p)
            else ps[i + 1..] == ps0[i + 1..] && ps[..j] == Without(ps0[..i + 1], p)
  {
    assert ps[i] == ps[i..][0] == ps0[i] && ps[i + 1..] == ps[i..][1..] && ps0[i + 1..] == ps0[i..][1..];
    assert ps0[..i + 1][..i] == ps0[..i];
    if ps[i] != p {
      assert ps[j := ps[i]][..j + 1] == ps[..j] + [ps[i]];
    }
  }

  /** Neither optimization applies to b. */
  ghost predicate Settled(g: Cfg, entry: nat, b: int) {
    b >= 0 && !Fusable(g, b) && !Threadable(g, entry, b)
  }

  ghost predicate AllSettled(g: Cfg, entry: nat, blocks: seq<int>) {
    forall i :: 0 <= i < |blocks| && blocks[i] >= 0 ==> Settled(g, entry, blocks[i])
  }

  /** Some blocks have been deleted from the list. */
  ghost predicate Thinned(was: seq<int>, blocks: seq<int>) {
    |was| == |blocks| && forall i :: 0 <= i < |was| ==> blocks[i] == was[i] || blocks[i] == NIL
  }

  lemma SettledNext(g: Cfg, entry: nat, blocks: seq<int>, i: nat)
    requires i < |blocks| && AllSettled(g, entry, blocks[..i]) && (blocks[i] >= 0 ==> Settled(g, entry, blocks[i]))
    ensures AllSettled(g, entry, blocks[..i + 1])
  {
    forall j | 0 <= j < i + 1 && blocks[j] >= 0 ensures Settled(g, entry, blocks[j]) {
      assert j < i ==> blocks[..i][j] == blocks[j];
    }
  }

  lemma ThinnedLive(was: seq<int>, blocks: seq<int>)
    requires Thinned(was, blocks)
    ensures LiveOf(blocks) <= LiveOf(was)
  {
    forall x | x in LiveOf(blocks) ensures x in LiveOf(was) {
      var i :| 0 <= i < |blocks| && blocks[i] == x;
      assert was[i] == x;
    }
  }

  lemma DroppedShrinks(was: seq<int>, blocks: seq<int>)
    requires Dropped(was, blocks)
    ensures |Compact(blocks)| == |Compact(was)| - 1 && Thinned(was, blocks)
  {
    var i :| 0 <= i < |was| && was[i] >= 0 && blocks == was[i := NIL];
    CompactShrinks(was, i);
  }

  /** The list after a fusion and a threading, each of which may have happened. */
  lemma TwoDrops(a: seq<int>, b: seq<int>, c: seq<int>, fused: bool, threaded: bool)
    requires (if fused then Dropped(a, b) else b == a) && (if threaded then Dropped(b, c) else c == b)
    ensures Thinned(a, c) && (fused || threaded ==> |Compact(c)| < |Compact(a)|)
  {
    if fused { DroppedShrinks(a, b); }
    if threaded { DroppedShrinks(b, c); }
  }

  lemma SameHistoriesRefl(g: Cfg, roots: set<nat>)
    ensures SameHistories(g, g, roots)
  {
  }

  /** Fusing applies to a. */
  predicate Fusable(g: Cfg, a: nat) {
    |g.instrs| == |g.preds| == |g.succs| && a < |g.succs| && |g.succs[a]| == 1 && CanFuse(g, a, g.succs[a][0])
  }

  /** Threading applies to b. */
  predicate Threadable(g: Cfg, entry: nat, b: nat) {
    |g.instrs| == |g.preds| == |g.succs| && b < |g.succs| && |g.succs[b]| > 0 && CanThread(g, entry, b, g.succs[b][0])
  }

  /** Fusing applies where the only edge from a is the only edge to a block that does not begin with a phi. */
  lemma FusableMeans(g: Cfg, live: set<nat>, roots: set<nat>, entry: nat, a: nat)
    requires WellFormed(g, live, roots, entry) && a in live
    ensures Fusable(g, a) <==> exists b: nat :: b in live && g.succs[a] == [b] && g.preds[b] == [a] && (g.instrs[b] == [] || !g.instrs[b][0].Phi?)
  {
    assert Dual(g, live, a);
    if |g.succs[a]| == 1 {
      var b := g.succs[a][0];
      assert b in g.succs[a] && g.succs[a] == [b];
      assert a in g.preds[b];
      assert |g.preds[b]| == 1 ==> g.preds[b] == [a];
    }
  }

  /** Threading applies to a block other than the entry that begins with a jump to another block that
      does not begin with a phi. */
  lemma ThreadableMeans(g: Cfg, live: set<nat>, roots: set<nat>, entry: nat, b: nat)
    requires WellFormed(g, live, roots, entry) && AllReached(g, live, roots) && b in live
    ensures Threadable(g, entry, b) <==>
              (b != entry && g.instrs[b] != [] && g.instrs[b][0].Jump?
               && exists c: nat :: c in live && g.succs[b] == [c] && c != b && (g.instrs[c] == [] || !g.instrs[c][0].Phi?))
  {
    LiveShaped(g, live, roots, entry, b);
    assert Dual(g, live, b);
    if g.instrs[b][0].Jump? {
      assert |g.instrs[b]| == 1 && |g.succs[b]| == 1;
      assert g.succs[b] == [g.succs[b][0]] && g.succs[b][0] in g.succs[b];
    }
  }

  /** What is settled throughout has nothing left to fuse or to thread. */
  lemma NothingLeft(g: Cfg, roots: set<nat>, entry: nat, blocks: seq<int>)
    requires WellFormed(g, LiveOf(blocks), roots, entry) && AllReached(g, LiveOf(blocks), roots) && AllSettled(g, entry, blocks)
    ensures forall a: nat, b: nat :: a in LiveOf(blocks) && b in LiveOf(blocks) && g.succs[a] == [b] && g.preds[b] == [a] ==>
              g.instrs[b] != [] && g.instrs[b][0].Phi?
    ensures forall b: nat :: b in LiveOf(blocks) && b != entry && g.instrs[b] != [] && g.instrs[b][0].Jump? ==>
              exists c: nat :: c in LiveOf(blocks) && g.succs[b] == [c] && (c == b || (g.instrs[c] != [] && g.instrs[c][0].Phi?))
  {
    var live := LiveOf(blocks);
    forall x | x in live ensures !Fusable(g, x) && !Threadable(g, entry, x) {
      var i :| 0 <= i < |blocks| && blocks[i] == x;
      assert Settled(g, entry, blocks[i]);
    }
    forall a: nat, b: nat | a in live && b in live && g.succs[a] == [b] && g.preds[b] == [a] ensures g.instrs[b] != [] && g.instrs[b][0].Phi? {
      FusableMeans(g, live, roots, entry, a);
    }
    forall b: nat | b in live && b != entry && g.instrs[b] != [] && g.instrs[b][0].Jump?
      ensures exists c: nat :: c in live && g.succs[b] == [c] && (c == b || (g.instrs[c] != [] && g.instrs[c][0].Phi?))
    {
      ThreadableMeans(g, live, roots, entry, b);
      LiveShaped(g, live, roots, entry, b);
      assert Dual(g, live, b);
      assert g.succs[b] == [g.succs[b][0]] && g.succs[b][0] in g.succs[b];
    }
  }

  /** One block has been deleted from the list. */
  ghost predicate Dropped(was: seq<int>, blocks: seq<int>) {
    exists i :: 0 <= i < |was| && was[i] >= 0 && blocks == was[i := NIL]
  }

  lemma DropBlock(blocks: seq<int>, index: seq<int>, b: nat)
    requires Listed(blocks, index) && NoRepeats(blocks) && b in blocks
    ensures b < |index| && 0 <= index[b] < |blocks| && blocks[index[b]] == b
    ensures var now := blocks[index[b] := NIL]; LiveOf(now) == LiveOf(blocks) - {b} && Listed(now, index) && NoRepeats(now) && Dropped(blocks, now)
  {
    var i :| 0 <= i < |blocks| && blocks[i] == b;
    var now := blocks[i := NIL];
    assert blocks[i] >= 0 && now == blocks[i := NIL];
    forall x: nat | x in LiveOf(blocks) - {b} ensures x in now {
      var j :| 0 <= j < |blocks| && blocks[j] == x;
      assert now[j] == x;
    }
  }

  lemma EntryFirst(blocks: seq<int>, index: seq<int>, b: nat)
    requires Listed(blocks, index) && b in blocks && blocks != [] && blocks[0] >= 0
    ensures b < |index| && (index[b] == 0 <==> b == blocks[0])
  {
    var i :| 0 <= i < |blocks| && blocks[i] == b;
  }

  // ----- threading, predecessor by predecessor -----

  /** The first j predecessors of b have been led on to c. */
  ghost predicate ThreadedTo(g: Cfg, g': Cfg, b: nat, c: nat, j: nat) {
    && SameSize(g, g') && b < |g.instrs| && c < |g.instrs| && j <= |g.preds[b]|
    && (forall x {:trigger g'.succs[x]} {:trigger g'.instrs[x]} :: 0 <= x < |g.instrs| ==>
        if x in g.preds[b][..j] then Rerouted(g, g', b, c, x) else g'.instrs[x] == g.instrs[x] && g'.succs[x] == g.succs[x])
    && (forall x :: 0 <= x < |g.instrs| && x != c ==> g'.preds[x] == g.preds[x])
    && Distinct(g'.preds[c])
    && (forall x :: x in g'.preds[c] <==> (x in g.preds[c] && (x != b || j == 0)) || x in g.preds[b][..j])
  }

  lemma ThreadedAll(g: Cfg, g': Cfg, b: nat, c: nat)
    requires SameSize(g, g') && b < |g.instrs| && ThreadedTo(g, g', b, c, |g.preds[b]|) && g.preds[b] != []
    ensures Threaded(g, g', b, c)
  {
    assert g.preds[b][..|g.preds[b]|] == g.preds[b];
  }

  /** The predecessor a is as it was, and has b among its one or two successors. */
  lemma ThreadOneFacts(g: Cfg, g1: Cfg, live: set<nat>, roots: set<nat>, entry: nat, a: nat, b: nat, c: nat, j: nat)
    requires WellFormed(g, live, roots, entry) && AllReached(g, live, roots) && b in live && CanThread(g, entry, b, c)
    requires ThreadedTo(g, g1, b, c, j) && j < |g.preds[b]| && a == g.preds[b][j]
    ensures a in live && a != b && a !in g.preds[b][..j] && b in g.succs[a] && Distinct(g.succs[a]) && 1 <= |g.succs[a]| <= 2
    ensures g1.instrs[a] == g.instrs[a] && g1.succs[a] == g.succs[a] && |g.instrs[a]| > 0
    ensures c in g.succs[a] <==> a in g.preds[c]
    ensures g.preds[b][..j + 1] == g.preds[b][..j] + [a]
    ensures Shaped(g, c) && !g.instrs[c][0].Phi?
    ensures var r := Replaced(g.succs[a], b, c); c in g.succs[a] <==> |r| == 2 && r[0] == c && r[1] == c
  {
    ThreadingFacts(g, live, roots, entry, b, c);
    assert Dual(g, live, b) && a in g.preds[b];
    LiveShaped(g, live, roots, entry, a);
    assert Dual(g, live, a) && Dual(g, live, c);
    ThreadedTarget(g.succs[a], b, c);
  }

  lemma StillShaped(g: Cfg, g1: Cfg, g2: Cfg, b: nat, c: nat, a: nat, j: nat)
    requires ThreadedTo(g, g1, b, c, j) && SameSize(g1, g2) && Shaped(g, c) && !g.instrs[c][0].Phi?
    requires a < |g.instrs| && |g.instrs[a]| > 0 && |g.succs[a]| == 2 && g1.instrs[a] == g.instrs[a]
    requires g2.instrs == g1.instrs[a := g1.instrs[a][|g1.instrs[a]| - 1 := Jump]]
    requires g2.succs == g1.succs[a := [c]] && g2.preds == g1.preds
    ensures Shaped(g2, c)
  {
    assert g1.instrs[c] == g1.instrs[c];
    assert forall i :: 0 <= i < |g.instrs[c]| ==> !g.instrs[c][i].Phi?;
  }

  /** The case of an If whose other branch leads to c. */
  lemma ThreadedMerged(g: Cfg, g1: Cfg, g2: Cfg, g3: Cfg, live: set<nat>, roots: set<nat>, entry: nat, a: nat, b: nat, c: nat, j: nat)
    requires WellFormed(g, live, roots, entry) && AllReached(g, live, roots) && b in live && CanThread(g, entry, b, c)
    requires ThreadedTo(g, g1, b, c, j) && j < |g.preds[b]| && a == g.preds[b][j] && a < |g.succs| && c in g.succs[a]
    requires |g.instrs[a]| > 0 && g1.instrs[a] == g.instrs[a] && SameSize(g1, g2)
    requires g2.instrs == g1.instrs[a := g1.instrs[a][|g1.instrs[a]| - 1 := Jump]]
    requires g2.succs == g1.succs[a := [c]] && g2.preds == g1.preds && g3 == PredRemoved(g2, c, b)
    ensures ThreadedTo(g, g3, b, c, j + 1)
  {
    ThreadOneFacts(g, g1, live, roots, entry, a, b, c, j);
    ThreadingFacts(g, live, roots, entry, b, c);
    assert g1.instrs[c] == g1.instrs[c];
    assert forall i :: 0 <= i < |g.instrs[c]| ==> !g.instrs[c][i].Phi?;
    assert forall i :: 0 <= i < |g2.instrs[c]| ==> !g2.instrs[c][i].Phi?;
    assert g3.instrs[c] == g2.instrs[c];
    assert g3.instrs == g2.instrs;
    WithoutDistinct(g2.preds[c], b);
    forall x | 0 <= x < |g.instrs|
      ensures if x in g.preds[b][..j + 1] then Rerouted(g, g3, b, c, x) else g3.instrs[x] == g.instrs[x] && g3.succs[x] == g.succs[x]
    {
      assert g1.instrs[x] == g1.instrs[x];
      if x in g.preds[b][..j] { assert Rerouted(g, g1, b, c, x); }
    }
  }

  /** The predecessors of c, with a put in the place of b or at the end. */
  lemma MovedPreds(ps0: seq<nat>, before: seq<nat>, ps: seq<nat>, a: nat, b: nat, j: nat)
    requires Distinct(ps) && (forall x :: x in ps <==> (x in ps0 && (x != b || j == 0)) || x in before)
    requires a !in ps0 && a !in before && a != b && b in ps0 && b !in before && |before| == j
    ensures var r := if j == 0 then Replaced(ps, b, a) else ps + [a];
      Distinct(r) && forall x :: x in r <==> (x in ps0 && x != b) || x in before + [a]
  {
    assert a !in ps;
    ReplacedMembers(ps, b, a);
  }

  /** The other cases: c gains the predecessor a, at first in the place of b. */
  lemma ThreadedMoved(g: Cfg, g1: Cfg, g3: Cfg, live: set<nat>, roots: set<nat>, entry: nat, a: nat, b: nat, c: nat, j: nat)
    requires WellFormed(g, live, roots, entry) && AllReached(g, live, roots) && b in live && CanThread(g, entry, b, c)
    requires ThreadedTo(g, g1, b, c, j) && j < |g.preds[b]| && a == g.preds[b][j] && a < |g.succs| && c !in g.succs[a]
    requires SameSize(g1, g3) && g3.instrs == g1.instrs && g3.succs == g1.succs[a := Replaced(g1.succs[a], b, c)]
    requires g3.preds == g1.preds[c := if j == 0 then Replaced(g1.preds[c], b, a) else g1.preds[c] + [a]]
    ensures ThreadedTo(g, g3, b, c, j + 1)
  {
    ThreadOneFacts(g, g1, live, roots, entry, a, b, c, j);
    ThreadingFacts(g, live, roots, entry, b, c);
    MovedPreds(g.preds[c], g.preds[b][..j], g1.preds[c], a, b, j);
    forall x | 0 <= x < |g.instrs|
      ensures if x in g.preds[b][..j + 1] then Rerouted(g, g3, b, c, x) else g3.instrs[x] == g.instrs[x] && g3.succs[x] == g.succs[x]
    {
      MovedRoute(g, g1, g3, a, b, c, j, x);
    }
  }

  lemma MovedRoute(g: Cfg, g1: Cfg, g3: Cfg, a: nat, b: nat, c: nat, j: nat, x: nat)
    requires ThreadedTo(g, g1, b, c, j) && j < |g.preds[b]| && a < |g.succs| && c !in g.succs[a] && x < |g.instrs|
    requires g.preds[b][..j + 1] == g.preds[b][..j] + [a] && a !in g.preds[b][..j]
    requires SameSize(g1, g3) && g3.instrs == g1.instrs && g3.succs == g1.succs[a := Replaced(g1.succs[a], b, c)]
    ensures if x in g.preds[b][..j + 1] then Rerouted(g, g3, b, c, x) else g3.instrs[x] == g.instrs[x] && g3.succs[x] == g.succs[x]
  {
    assert g1.instrs[x] == g1.instrs[x];
    if x in g.preds[b][..j] { assert Rerouted(g, g1, b, c, x); }
  }

  lemma KeptAre(was: seq<int>, blocks: seq<int>, M: set<nat>)
    requires |blocks| == |was| && M <= LiveOf(was) && forall i :: 0 <= i < |was| ==> was[i] >= 0
    requires forall j :: 0 <= j < |was| ==> blocks[j] == if was[j] !in M then NIL else was[j]
    ensures LiveOf(blocks) == M
  {
    forall x: nat | x in M ensures x in blocks {
      var j :| 0 <= j < |was| && was[j] == x;
      assert blocks[j] == x;
    }
  }

  /** The list that is left: the marked blocks, the entry first. */
  lemma KeptList(was: seq<int>, blocks: seq<int>, M: set<nat>, entry: nat)
    requires |blocks| == |was| > 0 && was[0] == entry && entry in M && M <= LiveOf(was) && forall i :: 0 <= i < |was| ==> was[i] >= 0
    requires forall j :: 0 <= j < |was| ==> blocks[j] == if was[j] !in M then NIL else was[j]
    ensures LiveOf(blocks) == M && blocks[0] == entry && Compact(blocks) != [] && Compact(blocks)[0] == entry
    ensures forall i :: 0 <= i < |was| ==> was[i] in LiveOf(was)
  {
    KeptAre(was, blocks, M);
    CompactFirst(blocks);
  }

  /** The blocks of live that are marked. */
  ghost function Marked(index: seq<int>, live: set<nat>): (M: set<nat>)
    ensures forall x :: x in M <==> x in live && x < |index| && index[x] == -1
  {
    set x | x in live && x < |index| && index[x] == -1
  }

  /** A finished marking passes every block it marks. */
  lemma MarkedClosed(succs: seq<seq<nat>>, index: seq<int>, index': seq<int>, live: set<nat>, b: nat)
    requires b in live && Markable(succs, index, live) && Marking(succs, index, index', live, b, |succs[b]|)
    requires forall x :: x in Marked(index, live) ==> Passed(succs, index, x)
    ensures forall x :: x in Marked(index', live) ==> Passed(succs, index', x)
  {
    forall x | x in Marked(index', live) ensures Passed(succs, index', x) {
      if x == b {
        forall v: nat | v in succs[b] ensures v < |index'| && index'[v] == -1 {
          var j :| 0 <= j < |succs[b]| && succs[b][j] == v;
        }
      } else if NewlyMarked(index, index', x) {
        assert Passed(succs, index', x);
      } else {
        assert x in Marked(index, live) && Passed(succs, index, x);
      }
    }
  }

  /** What is marked from the roots is in every closed set. */
  lemma MarkedLeast(g: Cfg, live: set<nat>, roots: set<nat>, entry: nat, recover: int, i0: seq<int>, i1: seq<int>, i2: seq<int>)
    requires WellFormed(g, live, roots, entry) && roots == (if recover >= 0 then {entry, recover as nat} else {entry})
    requires |i0| == |g.instrs| && forall x :: x in live ==> i0[x] == 0
    requires Marking(g.succs, i0, i1, live, entry, |g.succs[entry]|)
    requires if recover >= 0 then recover in roots && Marking(g.succs, i1, i2, live, recover, |g.succs[recover]|) else i1 == i2
    requires forall x :: x in Marked(i2, live) ==> Passed(g.succs, i2, x)
    ensures IsReached(g, live, roots, Marked(i2, live))
  {
    var M := Marked(i2, live);
    forall u: nat, v: nat | u in M && u < |g.succs| && v in g.succs[u] ensures v in M {
      assert Passed(g.succs, i2, u) && Dual(g, live, u);
    }
    forall S: set<nat> | Closed(g, live, roots, S) ensures M <= S {
      forall x | x in M ensures x in S {
        SuccClosedIn(g, live, roots, entry, S);
        assert SuccClosed(g.succs, S * live);
        assert NewlyMarked(i0, i1, x) || NewlyMarked(i1, i2, x);
      }
    }
  }

  lemma SuccClosedIn(g: Cfg, live: set<nat>, roots: set<nat>, entry: nat, S: set<nat>)
    requires WellFormed(g, live, roots, entry) && Closed(g, live, roots, S)
    ensures SuccClosed(g.succs, S * live)
  {
    forall u: nat, v: nat | u in S * live && u < |g.succs| && v in g.succs[u] ensures v in S * live {
      assert Dual(g, live, u);
    }
  }

  lemma NothingStruck(g: Cfg, live: set<nat>, roots: set<nat>, entry: nat, M: set<nat>)
    requires WellFormed(g, live, roots, entry) && IsReached(g, live, roots, M)
    ensures AllStruck(g, g, {}, M) && SameHistories(g, g, roots)
  {
    forall c | c in M ensures Struck(g, g, {}, c) {
      assert Dual(g, live, c);
      if c !in roots && g.preds[c] == [] {
        var S := M - {c};
        forall u: nat, v: nat | u in S && u in live && u < |g.succs| && v in g.succs[u] ensures v in S {
          assert Dual(g, live, u);
        }
        assert Closed(g, live, roots, S);
      }
    }
  }

  lemma StrikeSame(g0: Cfg, g: Cfg, c: nat, b: nat, live: set<nat>, roots: set<nat>, M: set<nat>)
    requires SameSize(g0, g) && g.succs == g0.succs && IsReached(g0, live, roots, M) && b !in M && c < |g.instrs| && Shaped(g, c)
    ensures SameHistories(g, PredRemoved(g, c, b), roots)
  {
    assert Closed(g, live, roots, M);
    PredRemovedShows(g, c, b, live, roots, M);
  }

  lemma StrikeOne(g0: Cfg, g: Cfg, c: nat, b: nat, gone: set<nat>)
    requires Struck(g0, g, gone, c)
    ensures Struck(g0, PredRemoved(g, c, b), gone + {b}, c)
  {
    PredRemovedShaped(g, c, b);
    WithoutDistinct(g.preds[c], b);
  }

  /** A nested call has fewer white blocks. */
  lemma MarkFits(index0: seq<int>, index: seq<int>, b: nat, c: nat, live: set<nat>)
    requires Marks(index0, index, live) && b < |index| && c < |index| && index[c] == 0 && index[b] == -1
    ensures Whites(index[c := -1]) < Whites(index0[b := -1])
  {
    var a := index0[b := -1];
    assert a[c] == 0 && index[c := -1][c] != 0;
    WhitesShrink(a, index[c := -1]);
  }

  /** After i predecessors have been looked at, the operands kept are at the first j places. */
  ghost predicate Compacted(was: Instr, now: Instr, ps: seq<nat>, p: nat, i: nat, j: nat) {
    && was.Phi? && now.Phi? && now.id == was.id && |was.edges| == |now.edges| == |ps| && j <= i <= |ps|
    && now.edges[..j] == Strike(ps[..i], was.edges[..i], p) && now.edges[i..] == was.edges[i..]
  }

  ghost predicate AllCompacted(was: seq<Instr>, now: seq<Instr>, n: nat, ps: seq<nat>, p: nat, i: nat, j: nat) {
    && n <= |was| == |now| && (forall m :: n <= m < |was| ==> now[m] == was[m])
    && (forall m :: 0 <= m < n ==> Compacted(was[m], now[m], ps, p, i, j))
  }

  /** Moves the i-th operand of each of the n phis to place j. */
  method MoveEdges(code: seq<Instr>, n: nat, i: nat, j: nat, ghost was: seq<Instr>, ghost ps: seq<nat>, ghost p: nat) returns (moved: seq<Instr>)
    requires AllCompacted(was, code, n, ps, p, i, j) && i < |ps| && ps[i] != p
    ensures AllCompacted(was, moved, n, ps, p, i + 1, j + 1)
  {
    moved := code;
    for m := 0 to n
      invariant |moved| == |code| && forall k :: m <= k < |code| ==> moved[k] == code[k]
      invariant forall k :: 0 <= k < m ==> Compacted(was[k], moved[k], ps, p, i + 1, j + 1)
    {
      assert Compacted(was[m], code[m], ps, p, i, j);
      CompactedMoves(was[m], code[m], ps, p, i, j);
      moved := moved[m := Phi(moved[m].id, moved[m].edges[j := moved[m].edges[i]])];
    }
  }

  /** Cuts the operands of each of the n phis to the first j. */
  method CutEdges(code: seq<Instr>, n: nat, j: nat, ghost was: seq<Instr>, ghost ps: seq<nat>, ghost p: nat) returns (cut: seq<Instr>)
    requires AllCompacted(was, code, n, ps, p, |ps|, j)
    requires forall m :: n <= m < |was| ==> !was[m].Phi?
    ensures cut == StrikeCode(was, ps, p)
  {
    cut := code;
    for m := 0 to n
      invariant |cut| == |code| && forall k :: m <= k < |code| ==> cut[k] == code[k]
      invariant forall k :: 0 <= k < m ==> cut[k] == StrikeInstr(was[k], ps, p)
    {
      assert Compacted(was[m], code[m], ps, p, |ps|, j);
      assert was[m].edges[..|ps|] == was[m].edges && ps[..|ps|] == ps;
      cut := cut[m := Phi(cut[m].id, cut[m].edges[..j])];
    }
  }

  lemma CompactedMoves(was: Instr, now: Instr, ps: seq<nat>, p: nat, i: nat, j: nat)
    requires Compacted(was, now, ps, p, i, j) && i < |ps| && ps[i] != p
    ensures Compacted(was, Phi(now.id, now.edges[j := now.edges[i]]), ps, p, i + 1, j + 1)
  {
    assert ps[..i + 1][..i] == ps[..i] && was.edges[..i + 1][..i] == was.edges[..i];
    assert now.edges[i] == now.edges[i..][0] == was.edges[i];
    var es := now.edges[j := now.edges[i]];
    assert es[..j + 1] == now.edges[..j] + [was.edges[i]];
    assert es[i + 1..] == now.edges[i..][1..] == was.edges[i + 1..];
  }

  lemma CompactedSkips(was: Instr, now: Instr, ps: seq<nat>, p: nat, i: nat, j: nat)
    requires Compacted(was, now, ps, p, i, j) && i < |ps| && ps[i] == p
    ensures Compacted(was, now, ps, p, i + 1, j)
  {
    assert ps[..i + 1][..i] == ps[..i] && was.edges[..i + 1][..i] == was.edges[..i];
    assert now.edges[i + 1..] == now.edges[i..][1..] == was.edges[i + 1..];
  }
}
