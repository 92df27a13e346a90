/** Control-flow graphs of a function: blocks 0..n-1 with their Succs and Preds lists. */
module Flowgraphs {
  import opened Paths

  /** The number that stands for no block. */
  const NIL := -1

  ghost predicate AllBelow(s: seq<nat>, n: nat) {
    forall i :: 0 <= i < |s| ==> s[i] < n
  }

  datatype Flowgraph = Flowgraph(succs: seq<seq<nat>>, preds: seq<seq<nat>>) {
    ghost predicate Valid() {
      && |succs| == |preds| > 0
      && (forall u :: 0 <= u < |succs| ==> AllBelow(succs[u], |succs|) && AllBelow(preds[u], |succs|))
      && (forall u, v {:trigger v in succs[u]} :: 0 <= u < |succs| && v in succs[u] ==> v < |succs| && u in preds[v])
      && (forall u, v {:trigger u in preds[v]} :: 0 <= v < |preds| && u in preds[v] ==> u < |preds| && v in succs[u])
    }

    ghost function EdgeSet(): (E: Edges)
      ensures forall u: nat, v: nat :: (u, v) in E <==> u < |succs| && v in succs[u]
    {
      set u: nat, k: nat | u < |succs| && k < |succs[u]| :: (u, succs[u][k])
    }
  }

  /** The numbers below n. */
  ghost function Below(n: nat): (S: set<nat>)
    ensures |S| == n
    ensures forall i: nat :: i in S <==> i < n
  {
    if n == 0 then {} else Below(n - 1) + {n - 1}
  }

  ghost function Elements(s: seq<nat>): (S: set<nat>)
    ensures forall x :: x in S <==> x in s
  {
    if s == [] then {} else assert s == s[..|s| - 1] + [s[|s| - 1]]; Elements(s[..|s| - 1]) + {s[|s| - 1]}
  }

  ghost predicate Distinct(s: seq<nat>) {
    forall i, j :: 0 <= i < j < |s| ==> s[i] != s[j]
  }

  lemma DistinctAppend(s: seq<nat>, x: nat)
    requires Distinct(s) && x !in s
    ensures Distinct(s + [x])
  {
    assert forall i :: 0 <= i < |s| ==> s[i] in s;
  }

  lemma {:induction false} DistinctSize(s: seq<nat>)
    requires Distinct(s)
    ensures |Elements(s)| == |s|
  {
    if s != [] {
      DistinctSize(s[..|s| - 1]);
    }
  }

  /** A sequence of distinct numbers below n that misses one of them is shorter than n. */
  lemma Pigeonhole(s: seq<nat>, n: nat, x: nat)
    requires forall i :: 0 <= i < |s| ==> s[i] < n
    requires Distinct(s)
    requires x < n && x !in s
    ensures |s| < n
  {
    DistinctSize(s);
    var T := Elements(s) + {x};
    assert T <= Below(n);
    assert Below(n) == T + (Below(n) - T);
  }

  lemma DistinctFit(s: seq<nat>, n: nat)
    requires Distinct(s) && forall i :: 0 <= i < |s| ==> s[i] < n
    ensures |s| <= n
  {
    DistinctSize(s);
    assert Elements(s) <= Below(n);
    assert Below(n) == Elements(s) + (Below(n) - Elements(s));
  }
}
