/** Graph.FindSCCs of the value range propagation: Tarjan's strongly connected components, then
    renumbered so that edges go from lower to higher components. */
module Scc {
  import opened Paths

  ghost function EdgesOf(succs: seq<seq<nat>>): (E: Edges)
    ensures forall u: nat, v: nat :: (u, v) in E <==> u < |succs| && v in succs[u]
  {
    set u: nat, k: nat | u < |succs| && k < |succs[u]| :: (u, succs[u][k])
  }

  ghost predicate ValidGraph(succs: seq<seq<nat>>) {
    forall u, k :: 0 <= u < |succs| && 0 <= k < |succs[u]| ==> succs[u][k] < |succs|
  }

  // ----- the state of the search -----

  /** index is 0 for an unvisited vertex; a vertex is on the stack s exactly when stack says so. */
  datatype Search = Search(index: seq<nat>, lowlink: seq<nat>, stack: seq<bool>, comp: seq<nat>, s: seq<nat>, next: nat, count: nat)

  ghost predicate OnStack(st: Search, v: nat) {
    v < |st.stack| && st.stack[v]
  }

  /** v has been given its component. */
  ghost predicate Done(st: Search, v: nat) {
    v < |st.index| == |st.stack| && st.index[v] > 0 && !st.stack[v]
  }

  /** The stack holds visited vertices in order of discovery. */
  ghost predicate StackOk(st: Search) {
    && |st.index| == |st.lowlink| == |st.stack| == |st.comp| && st.next > 0
    && (forall v :: 0 <= v < |st.index| ==> st.index[v] < st.next)
    && (forall i :: 0 <= i < |st.s| ==> st.s[i] < |st.index| && st.index[st.s[i]] > 0 && st.stack[st.s[i]])
    && (forall i, j :: 0 <= i < j < |st.s| ==> st.index[st.s[i]] < st.index[st.s[j]])
    && (forall v: nat :: OnStack(st, v) ==> v in st.s)
  }

  /** The successors of a done vertex are done, in the same or an earlier component. */
  ghost predicate DoneOk(succs: seq<seq<nat>>, st: Search, v: nat)
    requires v < |succs|
  {
    forall w: nat :: w in succs[v] ==> Done(st, w) && v < |st.comp| && w < |st.comp| && st.comp[w] <= st.comp[v] < st.count
  }

  ghost predicate AllDoneOk(succs: seq<seq<nat>>, st: Search) {
    && |succs| == |st.index| == |st.stack| == |st.comp|
    && (forall v {:trigger DoneOk(succs, st, v)} :: 0 <= v < |succs| && Done(st, v) ==> DoneOk(succs, st, v))
    && (forall v :: 0 <= v < |succs| && Done(st, v) ==> st.comp[v] < st.count)
  }

  /** Two done vertices share a component exactly when each reaches the other. */
  ghost predicate Separated(E: Edges, st: Search) {
    |st.comp| == |st.index| && forall v, w {:trigger SameComp(E, st, v, w)} :: Done(st, v) && Done(st, w) ==> SameComp(E, st, v, w)
  }

  ghost predicate SameComp(E: Edges, st: Search, v: nat, w: nat)
    requires v < |st.comp| && w < |st.comp|
  {
    st.comp[v] == st.comp[w] <==> Reaches(E, v, w) && Reaches(E, w, v)
  }

  /** All successors of v have been visited. */
  ghost predicate Scanned(succs: seq<seq<nat>>, st: Search, v: nat)
    requires v < |succs|
  {
    forall w: nat :: w in succs[v] ==> w < |st.index| && st.index[w] > 0
  }

  /** A vertex on the stack reaches a vertex whose call is active, no later than itself. */
  ghost predicate Anchored(E: Edges, st: Search, gray: set<nat>, y: nat) {
    exists x :: x in gray && OnStack(st, x) && x < |st.index| && y < |st.index| && st.index[x] <= st.index[y] && Reaches(E, y, x)
  }

  /** A vertex of the stack reaches all later ones. */
  ghost predicate Reaching(E: Edges, st: Search) {
    forall i, j :: 0 <= i <= j < |st.s| ==> ReachesAt(E, st.s, i, j)
  }

  ghost predicate ReachesAt(E: Edges, s: seq<nat>, i: nat, j: nat) {
    i <= j < |s| && Reaches(E, s[i], s[j])
  }

  /** The invariant between steps; gray is the set of vertices whose calls are active. */
  ghost predicate Inv(succs: seq<seq<nat>>, st: Search, gray: set<nat>) {
    && ValidGraph(succs) && StackOk(st) && AllDoneOk(succs, st) && Separated(EdgesOf(succs), st)
    && Reaching(EdgesOf(succs), st)
    && (forall x :: x in gray ==> OnStack(st, x))
    && AllScanned(succs, st, gray) && AllAnchored(EdgesOf(succs), st, gray)
  }

  /** The done vertices are closed under reachability. */
  lemma {:induction false} DoneClosed(succs: seq<seq<nat>>, st: Search, p: seq<nat>)
    requires AllDoneOk(succs, st) && Walk(EdgesOf(succs), p) && Done(st, p[0])
    ensures Done(st, p[|p| - 1])
    decreases |p|
  {
    if |p| > 1 {
      assert Step(EdgesOf(succs), p, 1);
      assert DoneOk(succs, st, p[0]);
      WalkSlice(EdgesOf(succs), p, 1, |p|);
      DoneClosed(succs, st, p[1..|p|]);
    }
  }

  // ----- one component -----

  /** The top of the stack from position k on, when no edge leads from it to the rest of the stack. */
  ghost predicate Sealed(succs: seq<seq<nat>>, st: Search, k: nat) {
    && k < |st.s|
    && forall i :: k <= i < |st.s| ==> SealedAt(succs, st, k, st.s[i])
  }

  /** The successors of x are done or in the top part. */
  ghost predicate SealedAt(succs: seq<seq<nat>>, st: Search, k: nat, x: nat)
    requires k <= |st.s|
  {
    x < |succs| && forall w: nat :: w in succs[x] ==> Done(st, w) || w in st.s[k..]
  }

  /** What the sealed part reaches is done or in the part. */
  lemma {:induction false} SealedClosed(succs: seq<seq<nat>>, st: Search, k: nat, p: seq<nat>)
    requires AllDoneOk(succs, st) && Sealed(succs, st, k) && Walk(EdgesOf(succs), p)
    requires Done(st, p[0]) || p[0] in st.s[k..]
    ensures Done(st, p[|p| - 1]) || p[|p| - 1] in st.s[k..]
    decreases |p|
  {
    if |p| > 1 {
      assert Step(EdgesOf(succs), p, 1);
      if Done(st, p[0]) {
        assert DoneOk(succs, st, p[0]);
      } else {
        assert SealedAt(succs, st, k, p[0]);
      }
      WalkSlice(EdgesOf(succs), p, 1, |p|);
      SealedClosed(succs, st, k, p[1..|p|]);
    }
  }

  /** In a sealed part whose only active vertex is its first, all vertices reach each other. */
  lemma SealedIsStrong(succs: seq<seq<nat>>, st: Search, gray: set<nat>, k: nat, i: nat)
    requires Inv(succs, st, gray) && Sealed(succs, st, k) && k <= i < |st.s|
    requires forall j :: k < j < |st.s| ==> st.s[j] !in gray
    ensures Reaches(EdgesOf(succs), st.s[k], st.s[i]) && Reaches(EdgesOf(succs), st.s[i], st.s[k])
  {
    var E := EdgesOf(succs);
    assert ReachesAt(E, st.s, k, i);
    assert Anchored(E, st, gray, st.s[i]);
    var x :| x in gray && OnStack(st, x) && st.index[x] <= st.index[st.s[i]] && Reaches(E, st.s[i], x);
    var p :| WalkFromTo(E, p, st.s[i], x);
    assert st.s[i] in st.s[k..];
    SealedClosed(succs, st, k, p);
  }

  // ----- steps of the search -----

  /** How many vertices are unvisited. */
  ghost function Unvisited(index: seq<nat>): (n: nat) {
    if index == [] then 0 else Unvisited(index[..|index| - 1]) + (if index[|index| - 1] == 0 then 1 else 0)
  }

  lemma {:induction false} UnvisitedShrinks(a: seq<nat>, b: seq<nat>)
    requires |a| == |b| && forall v :: 0 <= v < |a| && a[v] > 0 ==> b[v] > 0
    ensures Unvisited(b) <= Unvisited(a)
    ensures (exists v :: 0 <= v < |a| && a[v] == 0 && b[v] > 0) ==> Unvisited(b) < Unvisited(a)
  {
    if a != [] {
      UnvisitedShrinks(a[..|a| - 1], b[..|b| - 1]);
      if v :| 0 <= v < |a| && a[v] == 0 && b[v] > 0 {
        assert v < |a| - 1 ==> a[..|a| - 1][v] == 0 && b[..|b| - 1][v] > 0;
      }
    }
  }

  /** Entering v: it is visited, on the stack, and its call is active. */
  function Enter(st: Search, v: nat): (st': Search)
    requires v < |st.index| == |st.lowlink| == |st.stack|
  {
    st.(index := st.index[v := st.next], lowlink := st.lowlink[v := st.next], next := st.next + 1,
        s := st.s + [v], stack := st.stack[v := true])
  }

  lemma EnterStack(st: Search, v: nat)
    requires StackOk(st) && v < |st.index| && st.index[v] == 0
    ensures StackOk(Enter(st, v)) && !OnStack(st, v)
    ensures forall w: nat :: OnStack(Enter(st, v), w) <==> OnStack(st, w) || w == v
    ensures forall w: nat :: Done(Enter(st, v), w) <==> Done(st, w)
  {
    var st' := Enter(st, v);
    assert v !in st.s;
    forall w: nat | OnStack(st', w) ensures w in st'.s {
      assert w != v ==> OnStack(st, w);
    }
  }

  lemma EnterDone(succs: seq<seq<nat>>, st: Search, v: nat)
    requires StackOk(st) && AllDoneOk(succs, st) && Separated(EdgesOf(succs), st) && v < |succs| && st.index[v] == 0
    ensures AllDoneOk(succs, Enter(st, v)) && Separated(EdgesOf(succs), Enter(st, v))
  {
    var st' := Enter(st, v);
    EnterStack(st, v);
    forall w | 0 <= w < |succs| && Done(st', w) ensures DoneOk(succs, st', w) && st'.comp[w] < st'.count {
      assert Done(st, w) && DoneOk(succs, st, w);
    }
    forall x, y | Done(st', x) && Done(st', y) ensures SameComp(EdgesOf(succs), st', x, y) {
      assert Done(st, x) && Done(st, y) && SameComp(EdgesOf(succs), st, x, y);
    }
  }

  lemma EnterAnchored(E: Edges, st: Search, gray: set<nat>, v: nat, y: nat)
    requires StackOk(st) && v < |st.index| && st.index[v] == 0
    requires y != v ==> OnStack(st, y) && Anchored(E, st, gray, y)
    ensures Anchored(E, Enter(st, v), gray + {v}, y)
  {
    var st' := Enter(st, v);
    EnterStack(st, v);
    if y == v {
      ReachesSelf(E, v);
      assert OnStack(st', v) && st'.index[v] <= st'.index[v] && Reaches(E, y, v);
    } else {
      var x :| x in gray && OnStack(st, x) && st.index[x] <= st.index[y] && Reaches(E, y, x);
      assert OnStack(st', x) && st'.index[x] <= st'.index[y];
    }
  }

  lemma EnterReaching(succs: seq<seq<nat>>, st: Search, gray: set<nat>, v: nat)
    requires Inv(succs, st, gray) && v < |succs| && st.index[v] == 0
    requires forall x :: x in gray ==> Reaches(EdgesOf(succs), x, v)
    ensures Reaching(EdgesOf(succs), Enter(st, v))
  {
    var E, s' := EdgesOf(succs), st.s + [v];
    forall i, j | 0 <= i <= j < |s'| ensures ReachesAt(E, s', i, j) {
      if j < |st.s| {
        assert ReachesAt(E, st.s, i, j);
      } else {
        EnterReaches(succs, st, gray, v, i);
      }
    }
  }

  ghost predicate AllAnchored(E: Edges, st: Search, gray: set<nat>) {
    forall y {:trigger Anchored(E, st, gray, y)} :: OnStack(st, y) ==> Anchored(E, st, gray, y)
  }

  ghost predicate AllScanned(succs: seq<seq<nat>>, st: Search, gray: set<nat>) {
    forall v {:trigger Scanned(succs, st, v)} :: 0 <= v < |succs| && OnStack(st, v) && v !in gray ==> Scanned(succs, st, v)
  }

  lemma EnterAllAnchored(E: Edges, st: Search, gray: set<nat>, v: nat)
    requires StackOk(st) && v < |st.index| && st.index[v] == 0 && AllAnchored(E, st, gray)
    ensures AllAnchored(E, Enter(st, v), gray + {v})
  {
    var st' := Enter(st, v);
    forall y: nat | OnStack(st', y) ensures Anchored(E, st', gray + {v}, y) {
      assert y != v ==> OnStack(st, y);
      assert OnStack(st, y) ==> Anchored(E, st, gray, y);
      EnterAnchored(E, st, gray, v, y);
    }
  }

  lemma EnterAllScanned(succs: seq<seq<nat>>, st: Search, gray: set<nat>, v: nat)
    requires |st.index| == |st.lowlink| == |st.stack| == |succs| && v < |succs| && AllScanned(succs, st, gray)
    requires st.next > 0
    ensures AllScanned(succs, Enter(st, v), gray + {v})
  {
    var st' := Enter(st, v);
    forall w | 0 <= w < |succs| && OnStack(st', w) && w !in gray + {v} ensures Scanned(succs, st', w) {
      assert OnStack(st, w) && Scanned(succs, st, w);
    }
  }

  lemma EnterKeepsInv(succs: seq<seq<nat>>, st: Search, gray: set<nat>, v: nat)
    requires Inv(succs, st, gray) && v < |succs| && st.index[v] == 0
    requires forall x :: x in gray ==> Reaches(EdgesOf(succs), x, v)
    ensures Inv(succs, Enter(st, v), gray + {v})
  {
    EnterStack(st, v);
    EnterDone(succs, st, v);
    EnterReaching(succs, st, gray, v);
    EnterAllAnchored(EdgesOf(succs), st, gray, v);
    EnterAllScanned(succs, st, gray, v);
  }

  /** Everything on the stack reaches a vertex that all active calls reach. */
  lemma EnterReaches(succs: seq<seq<nat>>, st: Search, gray: set<nat>, v: nat, i: nat)
    requires Inv(succs, st, gray) && v < |succs| && i <= |st.s|
    requires forall x :: x in gray ==> Reaches(EdgesOf(succs), x, v)
    ensures Reaches(EdgesOf(succs), (st.s + [v])[i], v)
  {
    var E := EdgesOf(succs);
    if i < |st.s| {
      assert OnStack(st, st.s[i]) && Anchored(E, st, gray, st.s[i]);
      var x :| x in gray && OnStack(st, x) && st.index[x] <= st.index[st.s[i]] && Reaches(E, st.s[i], x);
      ReachesTransitive(E, st.s[i], x, v);
    } else {
      ReachesSelf(E, v);
    }
  }

  /** Popping the part from position k on: it becomes a component. */
  ghost predicate Popped(st: Search, st': Search, k: nat) {
    && k <= |st.s| && st'.s == st.s[..k] && st'.count == st.count + 1
    && st'.index == st.index && st'.lowlink == st.lowlink && st'.next == st.next
    && |st'.stack| == |st.stack| && |st'.comp| == |st.comp|
    && (forall v :: 0 <= v < |st.stack| ==> st'.stack[v] == (st.stack[v] && v !in st.s[k..]))
    && (forall v :: 0 <= v < |st.comp| ==> st'.comp[v] == if v in st.s[k..] then st.count else st.comp[v])
  }

  lemma PopKeepsDone(succs: seq<seq<nat>>, st: Search, st': Search, gray: set<nat>, k: nat)
    requires Inv(succs, st, gray) && Sealed(succs, st, k) && |st.stack| == |st.comp| && Popped(st, st', k)
    ensures AllDoneOk(succs, st')
    ensures forall v: nat :: Done(st', v) <==> Done(st, v) || v in st.s[k..]
  {
    forall v: nat ensures Done(st', v) <==> Done(st, v) || v in st.s[k..] {
      if v in st.s[k..] {
        var i :| k <= i < |st.s| && st.s[i] == v;
      }
    }
    forall v | 0 <= v < |succs| && Done(st', v) ensures DoneOk(succs, st', v) && st'.comp[v] < st'.count {
      if v in st.s[k..] {
        var i :| k <= i < |st.s| && st.s[i] == v;
        assert SealedAt(succs, st, k, st.s[i]);
        forall w: nat | w in succs[v] ensures Done(st', w) && w < |st'.comp| && st'.comp[w] <= st'.comp[v] {
          assert Done(st, w) ==> st.comp[w] < st.count;
        }
      } else {
        assert DoneOk(succs, st, v);
        forall w: nat | w in succs[v] ensures Done(st', w) && w < |st'.comp| && st'.comp[w] <= st'.comp[v] {
          NotOnStackPart(st, k, w);
        }
      }
    }
  }

  lemma NotOnStackPart(st: Search, k: nat, w: nat)
    requires StackOk(st) && Done(st, w) && k <= |st.s|
    ensures w !in st.s[k..]
  {
    assert forall i :: k <= i < |st.s| ==> st.s[i] != w;
  }

  lemma PopSeparates(succs: seq<seq<nat>>, st: Search, st': Search, gray: set<nat>, k: nat)
    requires Inv(succs, st, gray) && Sealed(succs, st, k) && |st.stack| == |st.comp| && Popped(st, st', k)
    requires forall j :: k < j < |st.s| ==> st.s[j] !in gray
    requires forall v: nat :: Done(st', v) <==> Done(st, v) || v in st.s[k..]
    ensures Separated(EdgesOf(succs), st')
  {
    var E := EdgesOf(succs);
    forall v, w | Done(st', v) && Done(st', w) ensures SameComp(E, st', v, w) {
      if v in st.s[k..] && w in st.s[k..] {
        var i :| k <= i < |st.s| && st.s[i] == v;
        var j :| k <= j < |st.s| && st.s[j] == w;
        SealedIsStrong(succs, st, gray, k, i);
        SealedIsStrong(succs, st, gray, k, j);
        ReachesTransitive(E, v, st.s[k], w);
        ReachesTransitive(E, w, st.s[k], v);
      } else if v in st.s[k..] {
        OldAndNew(succs, st, st', k, w, v);
      } else if w in st.s[k..] {
        OldAndNew(succs, st, st', k, v, w);
      } else {
        assert SameComp(E, st, v, w);
      }
    }
  }

  /** A vertex done before does not reach the new component. */
  lemma OldAndNew(succs: seq<seq<nat>>, st: Search, st': Search, k: nat, v: nat, w: nat)
    requires StackOk(st) && AllDoneOk(succs, st) && Popped(st, st', k) && Done(st, v) && w in st.s[k..]
    ensures !Reaches(EdgesOf(succs), v, w) && v < |st'.comp| && w < |st'.comp| && st'.comp[v] != st'.comp[w]
  {
    NotOnStackPart(st, k, v);
    var i :| k <= i < |st.s| && st.s[i] == w;
    if Reaches(EdgesOf(succs), v, w) {
      var p :| WalkFromTo(EdgesOf(succs), p, v, w);
      DoneClosed(succs, st, p);
    }
  }

  lemma PopKeepsInv(succs: seq<seq<nat>>, st: Search, st': Search, gray: set<nat>, k: nat)
    requires Sealed(succs, st, k) && st.s[k] !in gray && Inv(succs, st, gray + {st.s[k]}) && Popped(st, st', k)
    requires forall j :: k < j < |st.s| ==> st.s[j] !in gray
    ensures Inv(succs, st', gray)
  {
    var E, v := EdgesOf(succs), st.s[k];
    forall j | k < j < |st.s| ensures st.s[j] !in gray + {v} {
      assert st.index[st.s[k]] < st.index[st.s[j]];
    }
    PopKeepsDone(succs, st, st', gray + {v}, k);
    PopSeparates(succs, st, st', gray + {v}, k);
    PopStack(succs, st, st', gray, k);
    forall i, j | 0 <= i <= j < |st'.s| ensures ReachesAt(E, st'.s, i, j) {
      assert ReachesAt(E, st.s, i, j);
    }
    forall w | 0 <= w < |succs| && OnStack(st', w) && w !in gray ensures Scanned(succs, st', w) {
      assert OnStack(st, w) && w != v;
      assert Scanned(succs, st, w);
    }
    PopAnchored(E, st, st', gray, k);
  }

  /** What remains on the stack is still anchored below the popped part. */
  lemma PopAnchored(E: Edges, st: Search, st': Search, gray: set<nat>, k: nat)
    requires k < |st.s| && StackOk(st) && Popped(st, st', k) && AllAnchored(E, st, gray + {st.s[k]})
    requires StackOk(st') && forall x :: x in gray ==> OnStack(st', x)
    ensures AllAnchored(E, st', gray)
  {
    var v := st.s[k];
    forall y: nat | OnStack(st', y) ensures Anchored(E, st', gray, y) {
      assert OnStack(st, y) && Anchored(E, st, gray + {v}, y);
      var x :| x in gray + {v} && OnStack(st, x) && st.index[x] <= st.index[y] && Reaches(E, y, x);
      var i :| 0 <= i < |st'.s| && st'.s[i] == y;
      assert st.s[i] == y && st.index[y] < st.index[v];
      assert OnStack(st', x) && st'.index[x] <= st'.index[y];
    }
  }

  lemma InSuffix(s: seq<nat>, k: nat, i: nat)
    requires k <= |s| && i < |s|
    ensures i >= k ==> s[i] in s[k..]
  {
    if i >= k { assert s[k..][i - k] == s[i]; }
  }

  lemma InPrefix(s: seq<nat>, k: nat, i: nat)
    requires k <= |s| && i < |s|
    ensures i < k ==> s[i] in s[..k]
  {
    if i < k { assert s[..k][i] == s[i]; }
  }

  lemma PopStack(succs: seq<seq<nat>>, st: Search, st': Search, gray: set<nat>, k: nat)
    requires k < |st.s| && StackOk(st) && Popped(st, st', k)
    requires forall x :: x in gray ==> OnStack(st, x)
    requires forall j :: k <= j < |st.s| ==> st.s[j] !in gray
    ensures StackOk(st') && forall x :: x in gray ==> OnStack(st', x)
  {
    forall w: nat | OnStack(st', w) ensures w in st'.s {
      assert OnStack(st, w);
      var i :| 0 <= i < |st.s| && st.s[i] == w;
      InSuffix(st.s, k, i);
    }
    forall i | 0 <= i < |st'.s| ensures st'.stack[st'.s[i]] {
      assert forall j :: k <= j < |st.s| ==> st.s[j] != st.s[i];
    }
    forall x | x in gray ensures OnStack(st', x) {
      assert OnStack(st, x);
      assert forall j :: k <= j < |st.s| ==> st.s[j] != x;
    }
  }

  // ----- what a call leaves -----

  /** st' is a later state than st: visited vertices keep their index, the old stack its place,
      and done vertices their component. */
  ghost predicate Kept(st: Search, st': Search) {
    && |st.index| == |st'.index| && |st.s| <= |st'.s| && st'.s[..|st.s|] == st.s && st.next <= st'.next
    && (forall v :: 0 <= v < |st.index| && st.index[v] > 0 ==> st'.index[v] == st.index[v])
    && |st.lowlink| == |st'.lowlink| == |st.index| && (forall v :: 0 <= v < |st.index| && st.index[v] > 0 ==> st'.lowlink[v] == st.lowlink[v])
    && (forall v: nat :: Done(st, v) ==> Done(st', v))
  }

  /** lowlink[v] is the index of a vertex on the stack that v reaches. */
  ghost predicate LowReached(E: Edges, st: Search, v: nat) {
    v < |st.lowlink| && exists y: nat :: OnStack(st, y) && y < |st.index| && st.index[y] == st.lowlink[v] && Reaches(E, v, y)
  }

  /** low bounds the index of every vertex of the first k of the stack that the rest has an edge to. */
  ghost predicate Bounded(succs: seq<seq<nat>>, st: Search, k: nat, low: nat) {
    k <= |st.s| && forall i :: k <= i < |st.s| ==> BoundedAt(succs, st, k, low, st.s[i])
  }

  ghost predicate BoundedAt(succs: seq<seq<nat>>, st: Search, k: nat, low: nat, x: nat)
    requires k <= |st.s|
  {
    x < |succs| && forall w: nat :: w in succs[x] && w in st.s[..k] ==> w < |st.index| && low <= st.index[w]
  }

  /** What a call on v leaves: the stack grows by a part that is scanned, whose edges into the
      old stack lowlink[v] bounds, and which v's lowlink can reach; or v's component is popped. */
  ghost predicate Returned(succs: seq<seq<nat>>, st: Search, st': Search, v: nat) {
    && |st'.index| == |st'.stack| == |st'.lowlink| && v < |st'.index| && Kept(st, st')
    && st.next <= st'.index[v] && st'.lowlink[v] <= st'.index[v]
    && (if st'.stack[v] then LowReached(EdgesOf(succs), st', v) else st'.lowlink[v] == st'.index[v])
    && Bounded(succs, st', |st.s|, st'.lowlink[v])
  }

  // ----- the scan of the successors of one vertex -----

  /** After the first n successors of v, whose call began in st0. */
  ghost predicate Scanning(succs: seq<seq<nat>>, st0: Search, st: Search, gray: set<nat>, v: nat, n: nat) {
    && Inv(succs, st, gray + {v}) && Kept(st0, st) && v < |succs| && n <= |succs[v]|
    && |st0.s| < |st.s| && st.s[|st0.s|] == v && st.index[v] == st0.next && 0 < st0.next < st.next && st0.index[v] == 0
    && Under(st0, gray)
    && st.lowlink[v] <= st.index[v] && LowReached(EdgesOf(succs), st, v)
    && Bounding(succs, st, |st0.s|, v, st.lowlink[v], n)
  }

  /** low bounds all edges found so far from v and the vertices above it to the first k of the stack. */
  ghost predicate Bounding(succs: seq<seq<nat>>, st: Search, k: nat, v: nat, low: nat, n: nat)
    requires k <= |st.s| && v < |succs| && n <= |succs[v]|
  {
    && (forall i :: k < i < |st.s| ==> BoundedAt(succs, st, k, low, st.s[i]))
    && (forall j :: 0 <= j < n ==> ScannedTo(st, k, low, succs[v][j]))
  }

  /** The active vertices are on the stack. */
  ghost predicate Under(st: Search, gray: set<nat>) {
    (forall x :: x in gray ==> OnStack(st, x)) && (forall x: nat :: OnStack(st, x) ==> x in st.s)
  }

  /** w has been visited, and if it was on the stack when the call began, low bounds its index. */
  ghost predicate ScannedTo(st: Search, k: nat, low: nat, w: nat)
    requires k <= |st.s|
  {
    w < |st.index| && st.index[w] > 0 && (w in st.s[..k] ==> low <= st.index[w])
  }

  lemma LowlinkFree(succs: seq<seq<nat>>, st: Search, l: seq<nat>, gray: set<nat>)
    requires Inv(succs, st, gray) && |l| == |st.lowlink|
    ensures Inv(succs, st.(lowlink := l), gray)
  {
    var E, st' := EdgesOf(succs), st.(lowlink := l);
    assert forall v: nat :: (OnStack(st', v) <==> OnStack(st, v)) && (Done(st', v) <==> Done(st, v));
    forall v | 0 <= v < |succs| && Done(st', v) ensures DoneOk(succs, st', v) {
      assert DoneOk(succs, st, v);
    }
    forall x, y | Done(st', x) && Done(st', y) ensures SameComp(E, st', x, y) {
      assert SameComp(E, st, x, y);
    }
    forall w | 0 <= w < |succs| && OnStack(st', w) && w !in gray ensures Scanned(succs, st', w) {
      assert Scanned(succs, st, w);
    }
    forall y: nat | OnStack(st', y) ensures Anchored(E, st', gray, y) {
      assert Anchored(E, st, gray, y);
      var x :| x in gray && OnStack(st, x) && st.index[x] <= st.index[y] && Reaches(E, y, x);
      assert OnStack(st', x);
    }
  }

  lemma ScanBegins(succs: seq<seq<nat>>, st: Search, gray: set<nat>, v: nat)
    requires Inv(succs, st, gray) && v < |succs| && st.index[v] == 0
    requires forall x :: x in gray ==> Reaches(EdgesOf(succs), x, v)
    ensures Scanning(succs, st, Enter(st, v), gray, v, 0)
  {
    EnterKeepsInv(succs, st, gray, v);
    EnterStack(st, v);
    ReachesSelf(EdgesOf(succs), v);
    var st' := Enter(st, v);
    assert OnStack(st', v) && st'.index[v] == st'.lowlink[v];
    assert LowReached(EdgesOf(succs), st', v);
    assert st'.s[..|st.s|] == st.s;
    assert Kept(st, st');
    assert Under(st, gray);
    assert Bounding(succs, st', |st.s|, v, st.next, 0);
  }

  /** A lower bound, and one more successor. */
  lemma BoundingLower(succs: seq<seq<nat>>, st: Search, k: nat, v: nat, low: nat, low': nat, n: nat)
    requires k <= |st.s| && v < |succs| && n < |succs[v]| && Bounding(succs, st, k, v, low, n) && low' <= low && ScannedTo(st, k, low', succs[v][n])
    ensures Bounding(succs, st, k, v, low', n + 1)
  {
    forall i | k < i < |st.s| ensures BoundedAt(succs, st, k, low', st.s[i]) {
      assert BoundedAt(succs, st, k, low, st.s[i]);
    }
    forall j | 0 <= j < n + 1 ensures ScannedTo(st, k, low', succs[v][j]) {
      assert j < n ==> ScannedTo(st, k, low, succs[v][j]);
    }
  }

  lemma LowVisited(succs: seq<seq<nat>>, st: Search, v: nat, n: nat, low: nat)
    requires ValidGraph(succs) && v < |succs| && n < |succs[v]| && |succs| == |st.lowlink| == |st.index| == |st.stack| && LowReached(EdgesOf(succs), st, v)
    requires low == if st.stack[succs[v][n]] && st.index[succs[v][n]] < st.lowlink[v] then st.index[succs[v][n]] else st.lowlink[v]
    ensures LowReached(EdgesOf(succs), st.(lowlink := st.lowlink[v := low]), v)
  {
    var E, w, st' := EdgesOf(succs), succs[v][n], st.(lowlink := st.lowlink[v := low]);
    if low < st.lowlink[v] {
      StepReaches(succs, v, n);
      assert OnStack(st', w);
    } else {
      var y: nat :| OnStack(st, y) && y < |st.index| && st.index[y] == st.lowlink[v] && Reaches(E, v, y);
      assert OnStack(st', y);
    }
  }

  /** One more successor, already visited. */
  lemma ScanVisited(succs: seq<seq<nat>>, st0: Search, st: Search, gray: set<nat>, v: nat, n: nat, low: nat)
    requires Scanning(succs, st0, st, gray, v, n) && n < |succs[v]| && st.index[succs[v][n]] > 0
    requires low == if st.stack[succs[v][n]] && st.index[succs[v][n]] < st.lowlink[v] then st.index[succs[v][n]] else st.lowlink[v]
    ensures Scanning(succs, st0, st.(lowlink := st.lowlink[v := low]), gray, v, n + 1)
  {
    var k := |st0.s|;
    LowlinkFree(succs, st, st.lowlink[v := low], gray + {v});
    LowVisited(succs, st, v, n, low);
    KeptFree(st0, st, v, low);
    assert ScannedTo(st, k, low, succs[v][n]);
    BoundingLower(succs, st, k, v, st.lowlink[v], low, n);
    BoundingFree(succs, st, st.lowlink[v := low], k, v, low, n + 1);
  }

  lemma StepReaches(succs: seq<seq<nat>>, v: nat, n: nat)
    requires ValidGraph(succs) && v < |succs| && n < |succs[v]|
    ensures Reaches(EdgesOf(succs), v, succs[v][n])
  {
    var w := succs[v][n];
    assert (v, w) in EdgesOf(succs);
    assert WalkFromTo(EdgesOf(succs), [v, w], v, w) by {
      assert forall i :: 1 <= i < |[v, w]| ==> Step(EdgesOf(succs), [v, w], i);
    }
  }

  /** A call from the scan leaves what was there as it was. */
  lemma ScanSurvives(succs: seq<seq<nat>>, st0: Search, st: Search, st': Search, gray: set<nat>, v: nat, n: nat)
    requires Scanning(succs, st0, st, gray, v, n) && n < |succs[v]| && st.index[succs[v][n]] == 0
    requires Inv(succs, st', gray + {v}) && Returned(succs, st, st', succs[v][n])
    ensures Kept(st0, st') && st'.s[..|st0.s|] == st.s[..|st0.s|] && st'.s[|st0.s|] == v
    ensures st'.index[v] == st.index[v] && st'.lowlink[v] == st.lowlink[v]
    ensures LowReached(EdgesOf(succs), st', v)
  {
    var k := |st0.s|;
    assert st'.s[..k] == st'.s[..|st.s|][..k];
    assert st'.s[..|st.s|][k] == v;
    var y: nat :| OnStack(st, y) && st.index[y] == st.lowlink[v] && Reaches(EdgesOf(succs), v, y);
    var i :| 0 <= i < |st.s| && st.s[i] == y;
    assert st'.s[..|st.s|][i] == y;
    assert OnStack(st', y);
  }

  /** After a call from st to st', low bounds the edges of both the old and the new part of the stack. */
  lemma ScanBounds(succs: seq<seq<nat>>, st: Search, st': Search, k: nat, before: nat, after: nat, low: nat, i: nat)
    requires StackOk(st) && Kept(st, st') && k <= |st.s| && k < i < |st'.s| && low <= before && low <= after
    requires i < |st.s| ==> BoundedAt(succs, st, k, before, st.s[i])
    requires i >= |st.s| ==> BoundedAt(succs, st', |st.s|, after, st'.s[i])
    ensures BoundedAt(succs, st', k, low, st'.s[i])
  {
    var x := st'.s[i];
    assert st'.s[..k] == st'.s[..|st.s|][..k];
    if i < |st.s| {
      assert st'.s[..|st.s|][i] == st.s[i];
      forall w: nat | w in succs[x] && w in st'.s[..k] ensures w < |st'.index| && low <= st'.index[w] {
        var j :| 0 <= j < k && st.s[j] == w;
      }
    } else {
      forall w: nat | w in succs[x] && w in st'.s[..k] ensures w < |st'.index| && low <= st'.index[w] {
        var j :| 0 <= j < k && st'.s[j] == w;
        assert st'.s[..|st.s|][j] == w;
      }
    }
  }

  /** Taking over a lower lowlink from a successor. */
  lemma ScanLows(succs: seq<seq<nat>>, st: Search, v: nat, n: nat, low: nat)
    requires ValidGraph(succs) && v < |succs| && n < |succs[v]| && |succs| == |st.lowlink| == |st.index| == |st.stack| && LowReached(EdgesOf(succs), st, v)
    requires st.lowlink[succs[v][n]] < st.lowlink[v] ==> LowReached(EdgesOf(succs), st, succs[v][n])
    requires low == if st.lowlink[succs[v][n]] < st.lowlink[v] then st.lowlink[succs[v][n]] else st.lowlink[v]
    ensures LowReached(EdgesOf(succs), st.(lowlink := st.lowlink[v := low]), v)
  {
    var E, w, st' := EdgesOf(succs), succs[v][n], st.(lowlink := st.lowlink[v := low]);
    if low < st.lowlink[v] {
      StepReaches(succs, v, n);
      var y: nat :| OnStack(st, y) && y < |st.index| && st.index[y] == st.lowlink[w] && Reaches(E, w, y);
      ReachesTransitive(E, v, w, y);
      assert OnStack(st', y);
    } else {
      var y: nat :| OnStack(st, y) && y < |st.index| && st.index[y] == st.lowlink[v] && Reaches(E, v, y);
      assert OnStack(st', y);
    }
  }

  lemma ScanReaches(succs: seq<seq<nat>>, st0: Search, st: Search, st': Search, gray: set<nat>, v: nat, n: nat, low: nat, j: nat)
    requires Scanning(succs, st0, st, gray, v, n) && n < |succs[v]| && st.index[succs[v][n]] == 0
    requires Kept(st, st') && st'.index[succs[v][n]] > 0
    requires low <= st.lowlink[v] && j <= n
    ensures ScannedTo(st', |st0.s|, low, succs[v][j])
  {
    var k := |st0.s|;
    assert st'.s[..k] == st'.s[..|st.s|][..k];
    if j < n {
      assert ScannedTo(st, k, st.lowlink[v], succs[v][j]);
    } else {
      NewNotBelow(st, st', k, succs[v][n]);
    }
  }

  /** One more successor, which a call has just visited. */
  lemma ScanCalled(succs: seq<seq<nat>>, st0: Search, st: Search, st': Search, gray: set<nat>, v: nat, n: nat, low: nat)
    requires Scanning(succs, st0, st, gray, v, n) && n < |succs[v]| && st.index[succs[v][n]] == 0
    requires Inv(succs, st', gray + {v}) && Returned(succs, st, st', succs[v][n])
    requires low == if st'.lowlink[succs[v][n]] < st'.lowlink[v] then st'.lowlink[succs[v][n]] else st'.lowlink[v]
    ensures Scanning(succs, st0, st'.(lowlink := st'.lowlink[v := low]), gray, v, n + 1)
  {
    var st'' := st'.(lowlink := st'.lowlink[v := low]);
    ScanSurvives(succs, st0, st, st', gray, v, n);
    ScanLows(succs, st', v, n, low);
    LowlinkFree(succs, st', st'.lowlink[v := low], gray + {v});
    ScanGrows(succs, st0, st, st', gray, v, n, low);
    BoundingFree(succs, st', st'.lowlink[v := low], |st0.s|, v, low, n + 1);
    KeptFree(st0, st', v, low);
  }

  lemma KeptFree(st0: Search, st: Search, v: nat, low: nat)
    requires Kept(st0, st) && v < |st0.index| && st0.index[v] == 0
    ensures Kept(st0, st.(lowlink := st.lowlink[v := low]))
  {
    assert forall u: nat :: Done(st, u) ==> Done(st.(lowlink := st.lowlink[v := low]), u);
  }

  lemma BoundingFree(succs: seq<seq<nat>>, st: Search, l: seq<nat>, k: nat, v: nat, low: nat, n: nat)
    requires k <= |st.s| && v < |succs| && n <= |succs[v]| && Bounding(succs, st, k, v, low, n)
    ensures Bounding(succs, st.(lowlink := l), k, v, low, n)
  {
    var st' := st.(lowlink := l);
    forall i | k < i < |st'.s| ensures BoundedAt(succs, st', k, low, st'.s[i]) {
      assert BoundedAt(succs, st, k, low, st.s[i]);
    }
    forall j | 0 <= j < n ensures ScannedTo(st', k, low, succs[v][j]) {
      assert ScannedTo(st, k, low, succs[v][j]);
    }
  }

  lemma ScanGrows(succs: seq<seq<nat>>, st0: Search, st: Search, st': Search, gray: set<nat>, v: nat, n: nat, low: nat)
    requires Scanning(succs, st0, st, gray, v, n) && n < |succs[v]| && st.index[succs[v][n]] == 0
    requires Inv(succs, st', gray + {v}) && Returned(succs, st, st', succs[v][n])
    requires low <= st.lowlink[v] && low <= st'.lowlink[succs[v][n]] && |st0.s| <= |st'.s|
    ensures Bounding(succs, st', |st0.s|, v, low, n + 1)
  {
    forall i | |st0.s| < i < |st'.s| ensures BoundedAt(succs, st', |st0.s|, low, st'.s[i]) {
      ScanBounds(succs, st, st', |st0.s|, st.lowlink[v], st'.lowlink[succs[v][n]], low, i);
    }
    forall j | 0 <= j < n + 1 ensures ScannedTo(st', |st0.s|, low, succs[v][j]) {
      ScanReaches(succs, st0, st, st', gray, v, n, low, j);
    }
  }

  lemma NewNotBelow(st: Search, st': Search, k: nat, w: nat)
    requires StackOk(st) && Kept(st, st') && k <= |st.s| && w < |st.index| && st.index[w] == 0
    ensures w !in st'.s[..k]
  {
    forall j | 0 <= j < k ensures st'.s[j] != w {
      assert st'.s[..|st.s|][j] == st.s[j];
    }
  }

  /** When v's lowlink is its own index, its part of the stack is sealed. */
  lemma ScanSeals(succs: seq<seq<nat>>, st0: Search, st: Search, gray: set<nat>, v: nat)
    requires v < |succs| && Scanning(succs, st0, st, gray, v, |succs[v]|) && st.lowlink[v] == st.index[v]
    ensures Sealed(succs, st, |st0.s|)
  {
    var k := |st0.s|;
    forall i | k <= i < |st.s| ensures SealedAt(succs, st, k, st.s[i]) {
      var x := st.s[i];
      forall w: nat | w in succs[x] ensures Done(st, w) || w in st.s[k..] {
        ScanEdge(succs, st0, st, gray, v, i, w);
        if OnStack(st, w) {
          var m :| 0 <= m < |st.s| && st.s[m] == w;
          InSuffix(st.s, k, m);
          InPrefix(st.s, k, m);
          assert st.index[w] >= st.index[st.s[k]];
        }
      }
    }
  }

  /** What the finished scan knows of an edge from v's part of the stack. */
  lemma ScanEdge(succs: seq<seq<nat>>, st0: Search, st: Search, gray: set<nat>, v: nat, i: nat, w: nat)
    requires v < |succs| && Scanning(succs, st0, st, gray, v, |succs[v]|) && |st0.s| <= i < |st.s| && w in succs[st.s[i]]
    ensures ScannedTo(st, |st0.s|, st.lowlink[v], w)
  {
    var k := |st0.s|;
    if i == k {
      var j :| 0 <= j < |succs[v]| && succs[v][j] == w;
      assert ScannedTo(st, k, st.lowlink[v], succs[v][j]);
    } else {
      assert BoundedAt(succs, st, k, st.lowlink[v], st.s[i]);
      GrayBelow(st0, st, gray, v, i);
      assert Scanned(succs, st, st.s[i]);
    }
  }

  lemma GrayBelow(st0: Search, st: Search, gray: set<nat>, v: nat, i: nat)
    requires StackOk(st) && Kept(st0, st) && |st0.s| < i < |st.s| && st.s[|st0.s|] == v
    requires Under(st0, gray)
    ensures st.s[i] !in gray && st.s[i] != v
  {
    assert st.index[st.s[|st0.s|]] < st.index[st.s[i]];
    forall j | 0 <= j < |st0.s| ensures st0.s[j] != st.s[i] {
      assert st.s[..|st0.s|][j] == st.s[j];
      assert st.index[st.s[j]] < st.index[st.s[i]];
    }
  }

  lemma ScanAnchors(E: Edges, st: Search, gray: set<nat>, v: nat)
    requires StackOk(st) && AllAnchored(E, st, gray + {v}) && OnStack(st, v) && LowReached(E, st, v) && st.lowlink[v] < st.index[v]
    ensures AllAnchored(E, st, gray)
  {
    var low: nat :| OnStack(st, low) && st.index[low] == st.lowlink[v] && Reaches(E, v, low);
    assert Anchored(E, st, gray + {v}, low);
    var a :| a in gray + {v} && OnStack(st, a) && st.index[a] <= st.index[low] && Reaches(E, low, a);
    ReachesTransitive(E, v, low, a);
    forall y: nat | OnStack(st, y) ensures Anchored(E, st, gray, y) {
      assert Anchored(E, st, gray + {v}, y);
      var x :| x in gray + {v} && OnStack(st, x) && st.index[x] <= st.index[y] && Reaches(E, y, x);
      if x == v {
        ReachesTransitive(E, y, v, a);
        assert a in gray && OnStack(st, a) && st.index[a] <= st.index[y] && Reaches(E, y, a);
      }
    }
  }

  /** Otherwise v stays on the stack below an earlier active vertex. */
  lemma ScanEnds(succs: seq<seq<nat>>, st0: Search, st: Search, gray: set<nat>, v: nat)
    requires v < |succs| && Scanning(succs, st0, st, gray, v, |succs[v]|) && st.lowlink[v] < st.index[v]
    ensures Inv(succs, st, gray)
  {
    assert OnStack(st, v);
    ScanAnchors(EdgesOf(succs), st, gray, v);
    assert Scanned(succs, st, v) by {
      forall w: nat | w in succs[v] ensures w < |st.index| && st.index[w] > 0 {
        ScanEdge(succs, st0, st, gray, v, |st0.s|, w);
      }
    }
    forall u | 0 <= u < |succs| && OnStack(st, u) && u !in gray ensures Scanned(succs, st, u) {
      assert u != v ==> Scanned(succs, st, u);
    }
  }

  lemma ScanReturns(succs: seq<seq<nat>>, st0: Search, st: Search, gray: set<nat>, v: nat)
    requires v < |succs| && Scanning(succs, st0, st, gray, v, |succs[v]|)
    ensures Bounded(succs, st, |st0.s|, st.lowlink[v]) && st.stack[v]
  {
    assert OnStack(st, v);
    forall i | |st0.s| <= i < |st.s| ensures BoundedAt(succs, st, |st0.s|, st.lowlink[v], st.s[i]) {
      forall w: nat | w in succs[st.s[i]] && w in st.s[..|st0.s|] ensures w < |st.index| && st.lowlink[v] <= st.index[w] {
        ScanEdge(succs, st0, st, gray, v, i, w);
      }
    }
  }

  /** Popping v's part leaves what the caller expects. */
  lemma PopReturns(succs: seq<seq<nat>>, st0: Search, st: Search, st': Search, gray: set<nat>, v: nat)
    requires v < |succs| && Scanning(succs, st0, st, gray, v, |succs[v]|) && st.lowlink[v] == st.index[v] && Popped(st, st', |st0.s|)
    requires v !in gray
    ensures Inv(succs, st', gray) && Returned(succs, st0, st', v)
  {
    var k := |st0.s|;
    ScanSeals(succs, st0, st, gray, v);
    forall i | k < i < |st.s| ensures st.s[i] !in gray {
      GrayBelow(st0, st, gray, v, i);
    }
    PopKeepsInv(succs, st, st', gray, k);
    InSuffix(st.s, k, k);
    forall w: nat | Done(st0, w) ensures Done(st', w) {
      assert Done(st, w);
    }
  }

  // ----- the algorithm -----

  class Tarjan {
    const succs: seq<seq<nat>>
    var index: seq<nat>
    var lowlink: seq<nat>
    var stack: seq<bool>
    var comp: seq<nat>
    var s: seq<nat>
    var next: nat
    var count: nat

    constructor (succs: seq<seq<nat>>)
      requires ValidGraph(succs)
      ensures this.succs == succs && index == seq(|succs|, _ => 0) && Inv(succs, State(), {}) && s == []
    {
      this.succs := succs;
      index, lowlink, stack, comp := seq(|succs|, _ => 0), seq(|succs|, _ => 0), seq(|succs|, _ => false), seq(|succs|, _ => 0);
      s, next, count := [], 1, 0;
    }

    ghost function State(): (st: Search)
      reads this
    {
      Search(index, lowlink, stack, comp, s, next, count)
    }

    /** Pops the component at the top of the stack, from position k on. */
    method PopComponent(ghost k: nat, v: nat)
      requires StackOk(State()) && k < |s| && s[k] == v
      modifies this`s, this`stack, this`comp, this`count
      ensures Popped(old(State()), State(), k)
    {
      while true
        invariant k < |s| <= |old(s)| && s == old(s)[..|s|] && |stack| == |old(stack)| && |comp| == |old(comp)| && count == old(count)
        invariant forall w :: 0 <= w < |stack| ==> stack[w] == (old(stack)[w] && w !in old(s)[|s|..])
        invariant forall w :: 0 <= w < |comp| ==> comp[w] == if w in old(s)[|s|..] then old(count) else old(comp)[w]
        decreases |s|
      {
        var w := s[|s| - 1];
        assert old(s)[|s| - 1..] == [w] + old(s)[|s|..];
        s := s[..|s| - 1];
        stack := stack[w := false];
        comp := comp[w := count];
        if w == v { break; }
        assert |s| != k;
      }
      count := count + 1;
    }

    /** strongconnect: gray are the vertices whose calls are active. */
    method StrongConnect(v: nat, ghost gray: set<nat>)
      requires Inv(succs, State(), gray) && v < |succs| && index[v] == 0
      requires forall x :: x in gray ==> Reaches(EdgesOf(succs), x, v)
      modifies this
      ensures Inv(succs, State(), gray) && Returned(succs, old(State()), State(), v)
      decreases Unvisited(index), 1, 0
    {
      ghost var st0 := State();
      ScanBegins(succs, st0, gray, v);
      index, lowlink, next := index[v := next], lowlink[v := next], next + 1;
      s, stack := s + [v], stack[v := true];
      assert State() == Enter(st0, v);
      assert st0.next > 0 && v !in gray by { assert OnStack(st0, v) ==> v in st0.s; }
      for j := 0 to |succs[v]|
        invariant Scanning(succs, st0, State(), gray, v, j)
      {
        VisitSuccessor(v, j, gray, st0);
      }
      CloseVertex(v, gray, st0);
    }

    method VisitSuccessor(v: nat, j: nat, ghost gray: set<nat>, ghost st0: Search)
      requires Scanning(succs, st0, State(), gray, v, j) && j < |succs[v]|
      requires forall x :: x in gray ==> Reaches(EdgesOf(succs), x, v)
      requires |st0.index| == |succs| && st0.index[v] == 0 && st0.next > 0
      modifies this
      ensures Scanning(succs, st0, State(), gray, v, j + 1)
      decreases Unvisited(st0.index), 0, 1
    {
      var w := succs[v][j];
      if index[w] == 0 {
        CallSuccessor(v, j, gray, st0);
      } else {
        ghost var st := State();
        if stack[w] {
          if index[w] < lowlink[v] {
            lowlink := lowlink[v := index[w]];
          }
        }
        assert State() == st.(lowlink := st.lowlink[v := lowlink[v]]);
        ScanVisited(succs, st0, st, gray, v, j, lowlink[v]);
      }
    }

    /** The recursive call for an unvisited successor. */
    method CallSuccessor(v: nat, j: nat, ghost gray: set<nat>, ghost st0: Search)
      requires Scanning(succs, st0, State(), gray, v, j) && j < |succs[v]| && index[succs[v][j]] == 0
      requires forall x :: x in gray ==> Reaches(EdgesOf(succs), x, v)
      requires |st0.index| == |succs| && st0.index[v] == 0 && st0.next > 0
      modifies this
      ensures Scanning(succs, st0, State(), gray, v, j + 1)
      decreases Unvisited(st0.index), 0, 0
    {
      var w := succs[v][j];
      ghost var st := State();
      CallFits(succs, st0, st, gray, v, j);
      StrongConnect(w, gray + {v});
      ghost var st' := State();
      if lowlink[w] < lowlink[v] {
        lowlink := lowlink[v := lowlink[w]];
      }
      assert State() == st'.(lowlink := st'.lowlink[v := lowlink[v]]);
      ScanCalled(succs, st0, st, st', gray, v, j, lowlink[v]);
    }

    /** The end of strongconnect. */
    method CloseVertex(v: nat, ghost gray: set<nat>, ghost st0: Search)
      requires v < |succs| && Scanning(succs, st0, State(), gray, v, |succs[v]|) && v !in gray
      modifies this
      ensures Inv(succs, State(), gray) && Returned(succs, st0, State(), v)
    {
      ghost var st := State();
      if lowlink[v] == index[v] {
        PopComponent(|st0.s|, v);
        PopReturns(succs, st0, st, State(), gray, v);
      } else {
        ScanEnds(succs, st0, st, gray, v);
        ScanReturns(succs, st0, st, gray, v);
      }
    }
  }

  /** A nested call meets its precondition on fewer unvisited vertices. */
  lemma CallFits(succs: seq<seq<nat>>, st0: Search, st: Search, gray: set<nat>, v: nat, j: nat)
    requires Scanning(succs, st0, st, gray, v, j) && j < |succs[v]| && st.index[succs[v][j]] == 0
    requires forall x :: x in gray ==> Reaches(EdgesOf(succs), x, v)
    requires |st0.index| == |succs| && st0.index[v] == 0 && st0.next > 0
    ensures forall x :: x in gray + {v} ==> Reaches(EdgesOf(succs), x, succs[v][j])
    ensures Unvisited(st.index) < Unvisited(st0.index)
  {
    var E := EdgesOf(succs);
    StepReaches(succs, v, j);
    forall x | x in gray + {v} ensures Reaches(E, x, succs[v][j]) {
      if x != v { ReachesTransitive(E, x, v, succs[v][j]); }
    }
    UnvisitedShrinks(st0.index, st.index);
  }

  /** FindSCCs: numbers the components so that two vertices have the same number exactly when each
      reaches the other, and every edge leads to the same or a higher number. groups lists the
      vertices of each component in the order of the vertices. */
  method FindSCCs(succs: seq<seq<nat>>) returns (scc: seq<nat>, groups: seq<seq<nat>>)
    requires ValidGraph(succs)
    ensures |scc| == |succs|
    ensures forall v: nat, w: nat :: v < |succs| && w < |succs| ==>
      (scc[v] == scc[w] <==> Reaches(EdgesOf(succs), v, w) && Reaches(EdgesOf(succs), w, v))
    ensures forall v: nat, w: nat :: v < |succs| && w in succs[v] ==> w < |succs| && scc[v] <= scc[w]
    ensures forall v :: 0 <= v < |succs| ==> scc[v] < |groups|
    ensures forall c :: 0 <= c < |groups| ==> groups[c] == Members(scc, c, |succs|)
  {
    var t := new Tarjan(succs);
    var n := |succs|;
    for v := 0 to n
      invariant t.succs == succs && Inv(succs, t.State(), {}) && fresh(t)
      invariant |t.index| == n && forall u :: 0 <= u < v ==> t.index[u] > 0
    {
      if t.index[v] == 0 {
        t.StrongConnect(v, {});
      }
    }
    ghost var st := t.State();
    AllDone(succs, st);
    scc, groups := t.comp, seq(t.count, _ => []);
    for v := 0 to n
      invariant |scc| == n && |groups| == t.count && t.State() == st
      invariant forall u :: 0 <= u < n ==> scc[u] == if u < v then t.count - t.comp[u] - 1 else t.comp[u]
      invariant forall c :: 0 <= c < |groups| ==> groups[c] == Members(scc, c, v)
    {
      assert Done(st, v);
      ghost var was := scc;
      scc := scc[v := t.count - scc[v] - 1];
      groups := groups[scc[v] := groups[scc[v]] + [v]];
      forall c | 0 <= c < |groups| ensures groups[c] == Members(scc, c, v + 1) {
        MembersPrefix(was, scc, c, v);
      }
    }
    forall v: nat, w: nat | v < n && w < n
      ensures scc[v] == scc[w] <==> Reaches(EdgesOf(succs), v, w) && Reaches(EdgesOf(succs), w, v)
    {
      assert SameComp(EdgesOf(succs), st, v, w);
    }
    forall v: nat, w: nat | v < n && w in succs[v] ensures w < n && scc[v] <= scc[w] {
      assert DoneOk(succs, st, v);
    }
  }

  /** With no active call left, every visited vertex has its component. */
  lemma AllDone(succs: seq<seq<nat>>, st: Search)
    requires Inv(succs, st, {}) && forall u :: 0 <= u < |succs| ==> st.index[u] > 0
    ensures forall v: nat :: v < |succs| ==> Done(st, v) && st.comp[v] < st.count
  {
    forall v: nat | v < |succs| ensures Done(st, v) && st.comp[v] < st.count {
      assert OnStack(st, v) ==> Anchored(EdgesOf(succs), st, {}, v);
      assert Done(st, v);
    }
  }

  /** The first n vertices of component c, in order. */
  ghost function Members(scc: seq<nat>, c: int, n: nat): (m: seq<nat>)
    requires n <= |scc|
    ensures forall i :: 0 <= i < |m| ==> m[i] < n && scc[m[i]] == c
    ensures forall v: nat :: v < n && scc[v] == c ==> v in m
    ensures forall i, j :: 0 <= i < j < |m| ==> m[i] < m[j]
  {
    if n == 0 then [] else if scc[n - 1] == c then Members(scc, c, n - 1) + [n - 1] else Members(scc, c, n - 1)
  }

  lemma {:induction false} MembersPrefix(a: seq<nat>, b: seq<nat>, c: int, n: nat)
    requires n <= |a| == |b| && a[..n] == b[..n]
    ensures Members(a, c, n) == Members(b, c, n)
  {
    if n > 0 {
      assert a[..n - 1] == a[..n][..n - 1] && b[..n - 1] == b[..n][..n - 1];
      MembersPrefix(a, b, c, n - 1);
      assert a[n - 1] == a[..n][n - 1] && b[n - 1] == b[..n][n - 1];
    }
  }
}
