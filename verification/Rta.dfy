/** Rapid type analysis: functions, dynamic call sites, invoke sites and runtime types are found
    incrementally, and each new one is combined with those found before. */
module Rta {
  import opened Flowgraphs

  /** What a function body gives rise to, in order. */
  datatype Action =
    | StaticCall(site: nat, callee: nat)
    | DynCall(site: nat, sig: nat)
    | Invoke(site: nat, iface: nat, name: nat)
    | MakeInterface(t: nat)
    | AddrTaken(f: nat)

  /** Functions and types are numbers. sig gives the signature of a function; parts the types that a
      runtime type makes runtime types too; exported the exported methods of a type; implements and
      dispatch stand for the type checker's relation and method lookup. */
  datatype Program = Program(
    body: seq<seq<Action>>, sig: seq<nat>, isInterface: seq<bool>, parts: seq<seq<nat>>, exported: seq<seq<nat>>,
    implements: set<(nat, nat)>, dispatch: (nat, nat) -> nat)

  ghost predicate ActionValid(p: Program, a: Action) {
    match a
    case StaticCall(_, g) => g < |p.body|
    case MakeInterface(t) => t < |p.parts|
    case AddrTaken(f) => f < |p.body|
    case _ => true
  }

  ghost predicate Valid(p: Program) {
    && |p.sig| == |p.body| && |p.isInterface| == |p.parts| == |p.exported|
    && (forall f, i :: 0 <= f < |p.body| && 0 <= i < |p.body[f]| ==> ActionValid(p, p.body[f][i]))
    && (forall t :: 0 <= t < |p.parts| ==> AllBelow(p.parts[t], |p.parts|) && AllBelow(p.exported[t], |p.body|))
    && (forall c: nat, m: nat :: p.dispatch(c, m) < |p.body|)
  }

  // ----- the rules -----

  /** Facts about a program: reachable functions, call edges by site, runtime types, address-taken
      functions, dynamic call sites with their signature, invoke sites with interface and method. */
  datatype Facts = Facts(reach: set<nat>, edges: set<(nat, nat)>, types: set<nat>, addr: set<nat>, dyn: set<(nat, nat)>, inv: set<(nat, nat, nat)>)

  ghost predicate Within(F: Facts, G: Facts) {
    F.reach <= G.reach && F.edges <= G.edges && F.types <= G.types && F.addr <= G.addr && F.dyn <= G.dyn && F.inv <= G.inv
  }

  /** The call from site to g is known, and g is reachable. */
  ghost predicate Linked(F: Facts, site: nat, g: nat) {
    (site, g) in F.edges && g in F.reach
  }

  ghost predicate ActionOk(F: Facts, a: Action) {
    match a
    case StaticCall(site, g) => Linked(F, site, g)
    case DynCall(site, s) => (site, s) in F.dyn
    case Invoke(site, i, m) => (site, i, m) in F.inv
    case MakeInterface(t) => t in F.types
    case AddrTaken(g) => g in F.addr
  }

  ghost predicate BodyOk(p: Program, F: Facts, f: nat) {
    f < |p.body| && forall i :: 0 <= i < |p.body[f]| ==> ActionOk(F, p.body[f][i])
  }

  /** Every dynamic call may reach every address-taken function of its signature. */
  ghost predicate DynOk(p: Program, F: Facts) {
    forall site, g :: g in F.addr && g < |p.sig| && (site, p.sig[g]) in F.dyn ==> Linked(F, site, g)
  }

  /** Every invoke may reach the method of every runtime type in C that implements the interface. */
  ghost predicate InvOk(p: Program, F: Facts, C: set<nat>) {
    forall site, i, m, c {:trigger (site, i, m) in F.inv, (c, i) in p.implements} ::
      (site, i, m) in F.inv && c in C && (c, i) in p.implements ==> Linked(F, site, p.dispatch(c, m))
  }

  /** The exported methods of a runtime type that is no interface are reachable, and its parts are
      runtime types. */
  ghost predicate TypeOk(p: Program, F: Facts, t: nat) {
    && t < |p.parts| && t < |p.exported| && t < |p.isInterface|
    && (!p.isInterface[t] ==> forall k :: 0 <= k < |p.exported[t]| ==> p.exported[t][k] in F.reach)
    && PartsOk(p, F, t)
  }

  ghost predicate PartsOk(p: Program, F: Facts, t: nat) {
    t < |p.parts| && forall k :: 0 <= k < |p.parts[t]| ==> p.parts[t][k] in F.types
  }

  ghost function Concrete(p: Program, T: set<nat>): (C: set<nat>) {
    set t | t in T && t < |p.isInterface| && !p.isInterface[t]
  }

  /** The facts are closed under all rules, starting from the roots. */
  ghost predicate Closed(p: Program, roots: set<nat>, F: Facts) {
    && (forall f {:trigger BodyOk(p, F, f)} :: f in roots || f in F.reach ==> BodyOk(p, F, f))
    && DynOk(p, F) && InvOk(p, F, Concrete(p, F.types))
    && (forall t {:trigger TypeOk(p, F, t)} :: t in F.types ==> TypeOk(p, F, t))
  }

  /** All facts follow from the rules. */
  ghost predicate Sound(p: Program, roots: set<nat>, F: Facts) {
    forall G :: Closed(p, roots, G) ==> Within(F, G)
  }

  /** f is one of the functions that count as called. */
  ghost predicate Called(roots: set<nat>, F: Facts, f: nat) {
    f in roots || f in F.reach
  }

  // ----- soundness of each rule -----

  lemma SoundLink(p: Program, roots: set<nat>, F: Facts, site: nat, g: nat)
    requires Sound(p, roots, F) && Implied(p, roots, F, Link(site, g))
    ensures Sound(p, roots, F.(reach := F.reach + {g}, edges := F.edges + {(site, g)})) && Implied(p, roots, F, Reached(g))
  {
    forall G | Closed(p, roots, G) ensures Within(F.(reach := F.reach + {g}, edges := F.edges + {(site, g)}), G) {
      assert Holds(G, Link(site, g));
    }
  }

  lemma SoundReach(p: Program, roots: set<nat>, F: Facts, g: nat)
    requires Sound(p, roots, F) && Implied(p, roots, F, Reached(g))
    ensures Sound(p, roots, F.(reach := F.reach + {g}))
  {
    forall G | Closed(p, roots, G) ensures Within(F.(reach := F.reach + {g}), G) {
      assert Holds(G, Reached(g));
    }
  }

  /** addrTaken holds the address-taken functions by signature. */
  ghost predicate AddrTable(p: Program, addrTaken: map<nat, seq<nat>>, addr: set<nat>) {
    && (forall f {:trigger AddrEntered(p, addrTaken, f)} :: f in addr ==> AddrEntered(p, addrTaken, f))
    && (forall s {:trigger AddrList(p, addrTaken, addr, s)} :: s in addrTaken ==> AddrList(p, addrTaken, addr, s))
  }

  ghost predicate AddrEntered(p: Program, addrTaken: map<nat, seq<nat>>, f: nat) {
    f < |p.sig| && p.sig[f] in addrTaken && f in addrTaken[p.sig[f]]
  }

  ghost predicate AddrList(p: Program, addrTaken: map<nat, seq<nat>>, addr: set<nat>, s: nat) {
    s in addrTaken && forall f :: f in addrTaken[s] ==> f in addr && f < |p.sig| && p.sig[f] == s
  }

  /** dynSites holds the dynamic call sites by signature. */
  ghost predicate DynTable(dynSites: map<nat, seq<nat>>, dyn: set<(nat, nat)>) {
    forall site: nat, s: nat :: (site, s) in dyn <==> s in dynSites && site in dynSites[s]
  }

  /** invokeSites holds the invoke sites by interface. */
  ghost predicate InvTable(invokeSites: map<nat, seq<(nat, nat)>>, inv: set<(nat, nat, nat)>) {
    forall site: nat, i: nat, m: nat :: (site, i, m) in inv <==> i in invokeSites && (site, m) in invokeSites[i]
  }

  lemma AddrListed(p: Program, addrTaken: map<nat, seq<nat>>, addr: set<nat>, f: nat, funcs: seq<nat>)
    requires AddrTable(p, addrTaken, addr) && f < |p.sig| && funcs == if p.sig[f] in addrTaken then addrTaken[p.sig[f]] else []
    ensures AddrTable(p, addrTaken[p.sig[f] := funcs + [f]], addr + {f})
  {
    var now, addr' := addrTaken[p.sig[f] := funcs + [f]], addr + {f};
    assert now[p.sig[f]] == funcs + [f];
    forall g: nat | g in addr' ensures AddrEntered(p, now, g) {
      if g in addr { assert AddrEntered(p, addrTaken, g); }
    }
    forall s: nat | s in now ensures AddrList(p, now, addr', s) {
      if s in addrTaken { assert AddrList(p, addrTaken, addr, s); }
      forall g | g in now[s] ensures g in addr' && g < |p.sig| && p.sig[g] == s {
        assert s == p.sig[f] ==> g == f || g in funcs;
      }
    }
  }

  /** The list of a signature holds exactly the address-taken functions with it. */
  lemma FuncsListed(p: Program, addrTaken: map<nat, seq<nat>>, addr: set<nat>, s: nat, funcs: seq<nat>)
    requires AddrTable(p, addrTaken, addr) && funcs == if s in addrTaken then addrTaken[s] else []
    ensures forall k :: 0 <= k < |funcs| ==> funcs[k] in addr && funcs[k] < |p.sig| && p.sig[funcs[k]] == s
    ensures forall g: nat :: g in addr && g < |p.sig| && p.sig[g] == s ==> g in funcs
  {
    if s in addrTaken { assert AddrList(p, addrTaken, addr, s); }
    forall k | 0 <= k < |funcs| ensures funcs[k] in addr && funcs[k] < |p.sig| && p.sig[funcs[k]] == s {
      assert funcs[k] in funcs;
    }
    forall g: nat | g in addr && g < |p.sig| && p.sig[g] == s ensures g in funcs {
      assert AddrEntered(p, addrTaken, g);
    }
  }

  lemma DynListed(dynSites: map<nat, seq<nat>>, dyn: set<(nat, nat)>, site: nat, s: nat, sites: seq<nat>)
    requires DynTable(dynSites, dyn) && sites == if s in dynSites then dynSites[s] else []
    ensures DynTable(dynSites[s := sites + [site]], dyn + {(site, s)})
  {
    var now, dyn' := dynSites[s := sites + [site]], dyn + {(site, s)};
    forall x: nat, y: nat ensures (x, y) in dyn' <==> y in now && x in now[y] {
      assert (x, y) in dyn <==> y in dynSites && x in dynSites[y];
    }
  }

  lemma InvListed(invokeSites: map<nat, seq<(nat, nat)>>, inv: set<(nat, nat, nat)>, site: nat, i: nat, m: nat, sites: seq<(nat, nat)>)
    requires InvTable(invokeSites, inv) && sites == if i in invokeSites then invokeSites[i] else []
    ensures InvTable(invokeSites[i := sites + [(site, m)]], inv + {(site, i, m)})
  {
    var now, inv' := invokeSites[i := sites + [(site, m)]], inv + {(site, i, m)};
    forall x: nat, y: nat, z: nat ensures (x, y, z) in inv' <==> y in now && (x, z) in now[y] {
      assert (x, y, z) in inv <==> y in invokeSites && (x, z) in invokeSites[y];
    }
  }

  /** The two maps hold the implements relation between the interfaces and types met so far. */
  ghost predicate Relation(p: Program, concreteTypes: map<nat, seq<nat>>, interfaceTypes: map<nat, seq<nat>>, concreteOrder: seq<nat>, interfaceOrder: seq<nat>) {
    && (forall c :: c in concreteTypes <==> c in concreteOrder)
    && (forall i :: i in interfaceTypes <==> i in interfaceOrder)
    && (forall i, c :: i in interfaceTypes ==> (c in interfaceTypes[i] <==> c in concreteTypes && (c, i) in p.implements))
    && (forall c, i :: c in concreteTypes ==> (i in concreteTypes[c] <==> i in interfaceTypes && (c, i) in p.implements))
  }

  ghost predicate Bounded(p: Program, reachable: set<nat>, types: set<nat>, worklist: seq<nat>) {
    (forall f :: f in reachable ==> f < |p.body|) && (forall t :: t in types ==> t < |p.parts|) && AllBelow(worklist, |p.body|)
  }

  class Analyzer {
    const p: Program
    ghost const roots: set<nat>
    var reachable: set<nat>
    var worklist: seq<nat>
    var edges: set<(nat, nat)>
    var runtimeTypes: set<nat>
    var addrTaken: map<nat, seq<nat>>
    var dynSites: map<nat, seq<nat>>
    var invokeSites: map<nat, seq<(nat, nat)>>
    var concreteTypes: map<nat, seq<nat>>
    var interfaceTypes: map<nat, seq<nat>>
    var concreteOrder: seq<nat>
    var interfaceOrder: seq<nat>
    ghost var addr: set<nat>
    ghost var dyn: set<(nat, nat)>
    ghost var inv: set<(nat, nat, nat)>

    constructor (p: Program, ghost roots: set<nat>)
      requires Valid(p)
      ensures this.p == p && this.roots == roots && reachable == {} && worklist == [] && runtimeTypes == {} && Ready()
    {
      this.p, this.roots := p, roots;
      reachable, worklist, edges, runtimeTypes := {}, [], {}, {};
      addrTaken, dynSites, invokeSites, concreteTypes, interfaceTypes := map[], map[], map[], map[], map[];
      concreteOrder, interfaceOrder := [], [];
      addr, dyn, inv := {}, {}, {};
    }

    ghost function Known(): (F: Facts)
      reads this
    {
      Facts(reachable, edges, runtimeTypes, addr, dyn, inv)
    }

    /** Sound facts in consistent tables; the cross products may be incomplete. */
    ghost predicate Steady()
      reads this
    {
      && Valid(p) && AddrTable(p, addrTaken, addr) && DynTable(dynSites, dyn) && InvTable(invokeSites, inv) && Relation(p, concreteTypes, interfaceTypes, concreteOrder, interfaceOrder)
      && (forall i :: i in invokeSites ==> i in interfaceTypes)
      && Sound(p, roots, Known()) && Bounded(p, reachable, runtimeTypes, worklist)
    }

    /** Steady, with complete cross products, and with the exported methods of all types reachable. */
    ghost predicate Ready()
      reads this
    {
      && Steady() && DynOk(p, Known()) && InvOk(p, Known(), concreteTypes.Keys)
      && concreteTypes.Keys == Concrete(p, runtimeTypes)
      && (forall t {:trigger t in concreteTypes} :: t in concreteTypes ==> ExportedOk(t))
    }

    ghost predicate ExportedOk(t: nat)
      reads this
    {
      t < |p.exported| && forall k :: 0 <= k < |p.exported[t]| ==> p.exported[t][k] in reachable
    }

    /** addReachable. */
    method AddReachable(f: nat)
      requires Steady() && f < |p.body| && Implied(p, roots, Known(), Reached(f))
      modifies this`reachable, this`worklist
      ensures Steady() && reachable == old(reachable) + {f} && Grown(old(Known()), old(worklist), Known(), worklist)
    {
      if f !in reachable {
        SoundReach(p, roots, Known(), f);
        reachable := reachable + {f};
        worklist := worklist + [f];
      }
    }

    /** addEdge. */
    method AddEdge(site: nat, g: nat)
      requires Steady() && g < |p.body| && Implied(p, roots, Known(), Link(site, g))
      modifies this`reachable, this`worklist, this`edges
      ensures Steady() && Linked(Known(), site, g) && Grown(old(Known()), old(worklist), Known(), worklist)
    {
      SoundLink(p, roots, Known(), site, g);
      assert Implied(p, roots, Known(), Reached(g));
      AddReachable(g);
      edges := edges + {(site, g)};
    }

    /** The edges from sites to functions, one after the other. */
    method AddEdges(pairs: seq<(nat, nat)>)
      requires Steady() && forall k :: 0 <= k < |pairs| ==> pairs[k].1 < |p.body| && Implied(p, roots, Known(), Link(pairs[k].0, pairs[k].1))
      modifies this`reachable, this`worklist, this`edges
      ensures Steady() && AllLinked(Known(), pairs, |pairs|) && Grown(old(Known()), old(worklist), Known(), worklist)
    {
      for k := 0 to |pairs|
        invariant Steady() && AllLinked(Known(), pairs, k) && Grown(old(Known()), old(worklist), Known(), worklist)
      {
        ghost var F, w := Known(), worklist;
        ImpliedOn(p, roots, old(Known()), F, Link(pairs[k].0, pairs[k].1));
        AddEdge(pairs[k].0, pairs[k].1);
        GrownOn(old(Known()), old(worklist), F, w, Known(), worklist);
      }
    }

    /** visitAddrTakenFunc. */
    method VisitAddrTakenFunc(f: nat)
      requires Ready() && f < |p.body| && Implied(p, roots, Known(), Taken(f))
      modifies this`reachable, this`worklist, this`edges, this`addrTaken, this`addr
      ensures Ready() && f in addr && Grown(old(Known()), old(worklist), Known(), worklist)
    {
      var s := p.sig[f];
      var funcs := if s in addrTaken then addrTaken[s] else [];
      assert s in addrTaken ==> AddrList(p, addrTaken, addr, s);
      if f !in funcs {
        ghost var F0 := Known();
        RecordAddr(f, funcs);
        LinkSites(f, F0);
        InvKept(p, F0, Known(), concreteTypes.Keys);
      }
    }

    method RecordAddr(f: nat, funcs: seq<nat>)
      requires Steady() && f < |p.body| && Implied(p, roots, Known(), Taken(f)) && funcs == (if p.sig[f] in addrTaken then addrTaken[p.sig[f]] else [])
      modifies this`addrTaken, this`addr
      ensures Steady() && addr == old(addr) + {f}
    {
      AddrListed(p, addrTaken, addr, f, funcs);
      AddrSound(p, roots, Known(), f);
      addrTaken := addrTaken[p.sig[f] := funcs + [f]];
      addr := addr + {f};
    }

    /** Edges from all dynamic sites of its signature to a new address-taken function. */
    method LinkSites(f: nat, ghost F0: Facts)
      requires Steady() && f < |p.body| && DynOk(p, F0) && Known() == F0.(addr := F0.addr + {f})
      modifies this`reachable, this`worklist, this`edges
      ensures Steady() && DynOk(p, Known()) && Grown(old(Known()), old(worklist), Known(), worklist)
    {
      var s := p.sig[f];
      var sites := if s in dynSites then dynSites[s] else [];
      var pairs: seq<(nat, nat)> := seq(|sites|, k requires 0 <= k < |sites| => (sites[k], f));
      forall k | 0 <= k < |sites| ensures (pairs[k].0, s) in dyn { assert sites[k] in dynSites[s]; }
      DynImplied(p, roots, Known(), pairs);
      AddEdges(pairs);
      AddrCrossed(p, F0, Known(), f, sites, pairs);
    }

    /** visitDynCall. */
    method VisitDynCall(site: nat, s: nat)
      requires Ready() && Implied(p, roots, Known(), Dynamic(site, s))
      modifies this`reachable, this`worklist, this`edges, this`dynSites, this`dyn
      ensures Ready() && (site, s) in dyn && Grown(old(Known()), old(worklist), Known(), worklist)
    {
      ghost var F0 := Known();
      RecordDyn(site, s);
      LinkFuncs(site, s, F0);
      InvKept(p, F0, Known(), concreteTypes.Keys);
    }

    method RecordDyn(site: nat, s: nat)
      requires Steady() && Implied(p, roots, Known(), Dynamic(site, s))
      modifies this`dynSites, this`dyn
      ensures Steady() && dyn == old(dyn) + {(site, s)}
    {
      var sites := if s in dynSites then dynSites[s] else [];
      DynListed(dynSites, dyn, site, s, sites);
      DynSound(p, roots, Known(), site, s);
      dynSites := dynSites[s := sites + [site]];
      dyn := dyn + {(site, s)};
    }

    /** Edges from a new dynamic site to all address-taken functions of its signature. */
    method LinkFuncs(site: nat, s: nat, ghost F0: Facts)
      requires Steady() && DynOk(p, F0) && Known() == F0.(dyn := F0.dyn + {(site, s)})
      modifies this`reachable, this`worklist, this`edges
      ensures Steady() && DynOk(p, Known()) && Grown(old(Known()), old(worklist), Known(), worklist)
    {
      var funcs := if s in addrTaken then addrTaken[s] else [];
      var pairs: seq<(nat, nat)> := seq(|funcs|, k requires 0 <= k < |funcs| => (site, funcs[k]));
      FuncsListed(p, addrTaken, addr, s, funcs);
      DynImplied(p, roots, Known(), pairs);
      AddEdges(pairs);
      DynCrossed(p, F0, Known(), site, s, funcs, pairs);
    }

    // ----- runtime types and invoke sites -----

    /** implementations: the runtime types met so far that implement interface i. */
    method Implementations(i: nat) returns (concs: seq<nat>)
      requires Relation(p, concreteTypes, interfaceTypes, concreteOrder, interfaceOrder)
      modifies this`concreteTypes, this`interfaceTypes, this`interfaceOrder
      ensures Relation(p, concreteTypes, interfaceTypes, concreteOrder, interfaceOrder)
      ensures concreteTypes.Keys == old(concreteTypes).Keys && interfaceTypes.Keys == old(interfaceTypes).Keys + {i}
      ensures forall c :: c in concs <==> c in concreteTypes && (c, i) in p.implements
    {
      if i in interfaceTypes {
        concs := interfaceTypes[i];
        assert interfaceTypes.Keys == interfaceTypes.Keys + {i};
      } else {
        concs := NewInterface(i);
        interfaceTypes := interfaceTypes[i := concs];
        interfaceOrder := interfaceOrder + [i];
      }
    }

    /** Enters a new interface at every type that implements it. */
    method NewInterface(i: nat) returns (concs: seq<nat>)
      requires Relation(p, concreteTypes, interfaceTypes, concreteOrder, interfaceOrder) && i !in interfaceTypes
      modifies this`concreteTypes
      ensures concreteTypes.Keys == old(concreteTypes).Keys
      ensures forall c :: c in concs <==> c in concreteTypes && (c, i) in p.implements
      ensures forall c, j :: c in concreteTypes ==> (j in concreteTypes[c] <==> (j in interfaceTypes && (c, j) in p.implements) || (j == i && c in concs))
    {
      concs := [];
      for k := 0 to |concreteOrder|
        invariant concreteTypes.Keys == old(concreteTypes).Keys
        invariant forall c :: c in concs <==> c in concreteOrder[..k] && (c, i) in p.implements
        invariant forall c, j :: c in concreteTypes ==> (j in concreteTypes[c] <==> (j in interfaceTypes && (c, j) in p.implements) || (j == i && c in concs))
      {
        var c := concreteOrder[k];
        assert concreteOrder[..k + 1] == concreteOrder[..k] + [c] && c in concreteOrder;
        if (c, i) in p.implements {
          concreteTypes := concreteTypes[c := concreteTypes[c] + [i]];
          concs := concs + [c];
        }
      }
      assert concreteOrder[..|concreteOrder|] == concreteOrder;
    }

    /** interfaces: the interfaces met so far that the new type c implements. */
    method Interfaces(c: nat) returns (ifaces: seq<nat>)
      requires Relation(p, concreteTypes, interfaceTypes, concreteOrder, interfaceOrder) && c !in concreteTypes
      modifies this`concreteTypes, this`interfaceTypes, this`concreteOrder
      ensures Relation(p, concreteTypes, interfaceTypes, concreteOrder, interfaceOrder)
      ensures concreteTypes.Keys == old(concreteTypes).Keys + {c} && interfaceTypes.Keys == old(interfaceTypes).Keys
      ensures forall i :: i in ifaces <==> i in interfaceTypes && (c, i) in p.implements
    {
      ifaces := [];
      for k := 0 to |interfaceOrder|
        invariant interfaceTypes.Keys == old(interfaceTypes).Keys && concreteTypes == old(concreteTypes) && concreteOrder == old(concreteOrder)
        invariant forall i :: i in ifaces <==> i in interfaceOrder[..k] && (c, i) in p.implements
        invariant forall i, d :: i in interfaceTypes ==>
          (d in interfaceTypes[i] <==> (d in concreteTypes && (d, i) in p.implements) || (d == c && i in ifaces))
      {
        var i := interfaceOrder[k];
        assert interfaceOrder[..k + 1] == interfaceOrder[..k] + [i] && i in interfaceOrder;
        if (c, i) in p.implements {
          interfaceTypes := interfaceTypes[i := interfaceTypes[i] + [c]];
          ifaces := ifaces + [i];
        }
      }
      assert interfaceOrder[..|interfaceOrder|] == interfaceOrder;
      concreteTypes := concreteTypes[c := ifaces];
      concreteOrder := concreteOrder + [c];
    }

    method RecordInvoke(site: nat, i: nat, m: nat) returns (concs: seq<nat>)
      requires Steady() && Implied(p, roots, Known(), Invoked(site, i, m))
      modifies this`invokeSites, this`inv, this`concreteTypes, this`interfaceTypes, this`interfaceOrder
      ensures Steady() && inv == old(inv) + {(site, i, m)} && concreteTypes.Keys == old(concreteTypes).Keys
      ensures forall c :: c in concs <==> c in concreteTypes && (c, i) in p.implements
    {
      var sites := if i in invokeSites then invokeSites[i] else [];
      InvListed(invokeSites, inv, site, i, m, sites);
      InvSound(p, roots, Known(), site, i, m);
      invokeSites := invokeSites[i := sites + [(site, m)]];
      inv := inv + {(site, i, m)};
      concs := Implementations(i);
    }

    /** visitInvoke. */
    method VisitInvoke(site: nat, i: nat, m: nat)
      requires Ready() && Implied(p, roots, Known(), Invoked(site, i, m))
      modifies this`reachable, this`worklist, this`edges, this`invokeSites, this`inv, this`concreteTypes, this`interfaceTypes, this`interfaceOrder
      ensures Ready() && (site, i, m) in inv && Grown(old(Known()), old(worklist), Known(), worklist)
    {
      ghost var F0 := Known();
      var concs := RecordInvoke(site, i, m);
      LinkMethods(site, i, m, concs, F0);
      DynKept(p, F0, Known());
    }

    /** Edges from a new invoke site to the methods of all types that implement its interface. */
    method LinkMethods(site: nat, i: nat, m: nat, concs: seq<nat>, ghost F0: Facts)
      requires Steady() && InvOk(p, F0, concreteTypes.Keys) && Known() == F0.(inv := F0.inv + {(site, i, m)}) && concreteTypes.Keys == Concrete(p, runtimeTypes)
      requires forall c :: c in concs <==> c in concreteTypes && (c, i) in p.implements
      modifies this`reachable, this`worklist, this`edges
      ensures Steady() && InvOk(p, Known(), concreteTypes.Keys) && Grown(old(Known()), old(worklist), Known(), worklist)
    {
      var pairs: seq<(nat, nat)> := seq(|concs|, k requires 0 <= k < |concs| => (site, p.dispatch(concs[k], m)));
      forall k | 0 <= k < |concs| ensures Implied(p, roots, Known(), Link(pairs[k].0, pairs[k].1)) {
        assert concs[k] in concs;
        InvImplied(p, roots, Known(), site, i, m, concs[k]);
      }
      AddEdges(pairs);
      SiteCrossed(p, F0, Known(), concreteTypes.Keys, site, i, m, concs, pairs);
    }

    /** The exported methods of a runtime type become reachable. */
    method AddExported(t: nat)
      requires Steady() && t in runtimeTypes && !p.isInterface[t]
      modifies this`reachable, this`worklist
      ensures Steady() && ExportedOk(t) && Grown(old(Known()), old(worklist), Known(), worklist)
    {
      for k := 0 to |p.exported[t]|
        invariant Steady() && Grown(old(Known()), old(worklist), Known(), worklist)
        invariant forall j :: 0 <= j < k ==> p.exported[t][j] in reachable
      {
        ghost var F, w := Known(), worklist;
        ExportImplied(p, roots, F, t, k);
        AddReachable(p.exported[t][k]);
        GrownOn(old(Known()), old(worklist), F, w, Known(), worklist);
      }
    }

    /** Edges from all invoke sites of the interfaces of a new type to its methods. */
    method LinkInvokes(c: nat, ifaces: seq<nat>)
      requires Steady() && c in Concrete(p, runtimeTypes) && forall i :: i in ifaces ==> (c, i) in p.implements
      modifies this`reachable, this`worklist, this`edges
      ensures Steady() && Grown(old(Known()), old(worklist), Known(), worklist)
      ensures forall k :: 0 <= k < |ifaces| ==> IfaceLinked(p, Known(), c, ifaces[k])
    {
      for k := 0 to |ifaces|
        invariant Steady() && Grown(old(Known()), old(worklist), Known(), worklist)
        invariant forall j :: 0 <= j < k ==> IfaceLinked(p, Known(), c, ifaces[j])
      {
        ghost var F, w := Known(), worklist;
        assert ifaces[k] in ifaces;
        LinkIface(c, ifaces[k]);
        GrownOn(old(Known()), old(worklist), F, w, Known(), worklist);
        forall j | 0 <= j < k ensures IfaceLinked(p, Known(), c, ifaces[j]) {
          assert IfaceLinked(p, F, c, ifaces[j]);
        }
      }
    }

    method LinkIface(c: nat, i: nat)
      requires Steady() && c in Concrete(p, runtimeTypes) && (c, i) in p.implements
      modifies this`reachable, this`worklist, this`edges
      ensures Steady() && Grown(old(Known()), old(worklist), Known(), worklist) && IfaceLinked(p, Known(), c, i)
    {
      var sites := if i in invokeSites then invokeSites[i] else [];
      var pairs: seq<(nat, nat)> := seq(|sites|, k requires 0 <= k < |sites| => (sites[k].0, p.dispatch(c, sites[k].1)));
      forall k | 0 <= k < |sites| ensures pairs[k].1 < |p.body| && Implied(p, roots, Known(), Link(pairs[k].0, pairs[k].1)) {
        assert pairs[k].1 == p.dispatch(c, sites[k].1) && (sites[k].0, sites[k].1) in invokeSites[i];
        InvImplied(p, roots, Known(), sites[k].0, i, sites[k].1, c);
      }
      AddEdges(pairs);
      forall site, m | (site, i, m) in inv ensures Linked(Known(), site, p.dispatch(c, m)) {
        var k :| 0 <= k < |sites| && sites[k] == (site, m);
        assert Linked(Known(), pairs[k].0, pairs[k].1);
      }
    }

    /** The part of addRuntimeType that concerns the type alone. */
    method EnterType(t: nat)
      requires Ready() && t !in runtimeTypes && t < |p.parts| && Implied(p, roots, Known(), Needed(t))
      modifies this`reachable, this`worklist, this`edges, this`runtimeTypes, this`concreteTypes, this`interfaceTypes, this`concreteOrder
      ensures Ready() && runtimeTypes == old(runtimeTypes) + {t} && Grown(old(Known()), old(worklist), Known(), worklist)
    {
      ghost var F0, w0 := Known(), worklist;
      TypeSound(p, roots, F0, t);
      runtimeTypes := runtimeTypes + {t};
      ghost var F1 := Known();
      if p.isInterface[t] {
        assert Concrete(p, runtimeTypes) == Concrete(p, F0.types);
        DynKept(p, F0, F1);
        InvKept(p, F0, F1, concreteTypes.Keys);
      } else {
        assert Concrete(p, runtimeTypes) == Concrete(p, F0.types) + {t};
        EnterConcrete(t, F0);
        GrownOn(F1, w0, F1, w0, Known(), worklist);
      }
    }

    method EnterConcrete(t: nat, ghost F0: Facts)
      requires Steady() && t < |p.parts| && !p.isInterface[t] && t !in concreteTypes && Known() == F0.(types := F0.types + {t}) && t in runtimeTypes
      requires DynOk(p, F0) && InvOk(p, F0, concreteTypes.Keys) && Concrete(p, runtimeTypes) == concreteTypes.Keys + {t}
      requires forall c {:trigger c in concreteTypes} :: c in concreteTypes ==> ExportedOk(c)
      modifies this`reachable, this`worklist, this`edges, this`concreteTypes, this`interfaceTypes, this`concreteOrder
      ensures Ready() && Grown(old(Known()), old(worklist), Known(), worklist)
    {
      ghost var F1, w1, C := Known(), worklist, concreteTypes.Keys;
      AddExported(t);
      ghost var F2, w2 := Known(), worklist;
      var ifaces := Relate(t);
      LinkInvokes(t, ifaces);
      GrownOn(F1, w1, F2, w2, Known(), worklist);
      DynKept(p, F0, Known());
      TypeCrossed(p, F0, Known(), C, t, ifaces);
    }

    /** The new type takes its place in the implements relation. */
    method Relate(t: nat) returns (ifaces: seq<nat>)
      requires Steady() && t !in concreteTypes
      modifies this`concreteTypes, this`interfaceTypes, this`concreteOrder
      ensures Steady() && concreteTypes.Keys == old(concreteTypes).Keys + {t}
      ensures forall i :: i in ifaces ==> (t, i) in p.implements
      ensures forall site, i, m :: (site, i, m) in inv && (t, i) in p.implements ==> i in ifaces
    {
      ifaces := Interfaces(t);
      forall site, i, m | (site, i, m) in inv && (t, i) in p.implements ensures i in ifaces {
        assert i in invokeSites;
      }
    }

    /** addRuntimeType: t and all its parts, and theirs, become runtime types. */
    method AddRuntimeType(t: nat)
      requires Ready() && t < |p.parts| && Implied(p, roots, Known(), Needed(t))
      modifies this`reachable, this`worklist, this`edges, this`runtimeTypes, this`concreteTypes, this`interfaceTypes, this`concreteOrder
      ensures Ready() && t in runtimeTypes && Grown(old(Known()), old(worklist), Known(), worklist)
      ensures forall x {:trigger PartsOk(p, Known(), x)} :: x in runtimeTypes && x !in old(runtimeTypes) ==> PartsOk(p, Known(), x)
      decreases Below(|p.parts|) - runtimeTypes, 0
    {
      if t !in runtimeTypes {
        ghost var F0, w0 := Known(), worklist;
        EnterType(t);
        assert Below(|p.parts|) - runtimeTypes < Below(|p.parts|) - F0.types by { assert t in Below(|p.parts|) - F0.types; }
        for k := 0 to |p.parts[t]|
          invariant Ready() && Below(|p.parts|) - runtimeTypes < Below(|p.parts|) - F0.types && PartsDone(t, k, F0, w0)
        {
          AddPart(t, k, F0, w0);
        }
      }
    }

    /** The first k parts of t, whose call began with the facts F0, have been entered. */
    ghost predicate PartsDone(t: nat, k: nat, F0: Facts, w0: seq<nat>)
      reads this
    {
      && t < |p.parts| && k <= |p.parts[t]| && t in runtimeTypes && Grown(F0, w0, Known(), worklist)
      && (forall j :: 0 <= j < k ==> p.parts[t][j] in runtimeTypes)
      && (forall x {:trigger PartsOk(p, Known(), x)} :: x in runtimeTypes && x !in F0.types + {t} ==> PartsOk(p, Known(), x))
    }

    method AddPart(t: nat, k: nat, ghost F0: Facts, ghost w0: seq<nat>)
      requires Ready() && PartsDone(t, k, F0, w0) && k < |p.parts[t]|
      modifies this`reachable, this`worklist, this`edges, this`runtimeTypes, this`concreteTypes, this`interfaceTypes, this`concreteOrder
      ensures Ready() && PartsDone(t, k + 1, F0, w0) && old(runtimeTypes) <= runtimeTypes
      decreases Below(|p.parts|) - runtimeTypes, 1
    {
      ghost var F, w := Known(), worklist;
      PartImplied(p, roots, F, t, k);
      AddRuntimeType(p.parts[t][k]);
      GrownOn(F0, w0, F, w, Known(), worklist);
      PartsOn(p, F, Known(), F0.types + {t});
    }

    // ----- functions -----

    ghost predicate AllParts()
      reads this
    {
      forall x {:trigger PartsOk(p, Known(), x)} :: x in runtimeTypes ==> PartsOk(p, Known(), x)
    }

    /** One instruction. */
    method VisitAction(a: Action)
      requires Ready() && AllParts() && ActionValid(p, a) && forall G {:trigger Closed(p, roots, G)} :: Closed(p, roots, G) && Within(Known(), G) ==> ActionOk(G, a)
      modifies this
      ensures Ready() && AllParts() && ActionOk(Known(), a) && Grown(old(Known()), old(worklist), Known(), worklist)
    {
      ghost var F := Known();
      match a {
        case StaticCall(site, g) =>
          assert Implied(p, roots, F, Link(site, g));
          AddEdge(site, g);
          DynKept(p, F, Known());
          InvKept(p, F, Known(), concreteTypes.Keys);
        case DynCall(site, s) =>
          assert Implied(p, roots, F, Dynamic(site, s));
          VisitDynCall(site, s);
        case Invoke(site, i, m) =>
          assert Implied(p, roots, F, Invoked(site, i, m));
          VisitInvoke(site, i, m);
        case MakeInterface(t) =>
          assert Implied(p, roots, F, Needed(t));
          AddRuntimeType(t);
        case AddrTaken(g) =>
          assert Implied(p, roots, F, Taken(g));
          VisitAddrTakenFunc(g);
      }
      PartsOn(p, F, Known(), {});
    }

    /** visitFunc. */
    method VisitFunc(f: nat)
      requires Ready() && AllParts() && f < |p.body| && Called(roots, Known(), f)
      modifies this
      ensures Ready() && AllParts() && BodyOk(p, Known(), f) && Grown(old(Known()), old(worklist), Known(), worklist)
    {
      for k := 0 to |p.body[f]|
        invariant Ready() && AllParts() && Grown(old(Known()), old(worklist), Known(), worklist)
        invariant forall j :: 0 <= j < k ==> ActionOk(Known(), p.body[f][j])
      {
        ghost var F, w := Known(), worklist;
        ActionFollows(p, roots, F, f, k);
        VisitAction(p.body[f][k]);
        GrownOn(old(Known()), old(worklist), F, w, Known(), worklist);
        forall j | 0 <= j < k ensures ActionOk(Known(), p.body[f][j]) {
          assert ActionOk(F, p.body[f][j]);
        }
      }
    }

    /** One round over the worklist, which new functions are collected for again. */
    method VisitQueued()
      requires Ready() && AllParts() && AllCovered(p, roots, Known(), worklist, []) && forall f :: f in worklist ==> Called(roots, Known(), f)
      modifies this
      ensures Ready() && AllParts() && AllCovered(p, roots, Known(), worklist, []) && old(reachable) <= reachable
      ensures forall f :: f in worklist ==> f in reachable && f !in old(reachable)
    {
      var shadow := worklist;
      ghost var F0 := Known();
      worklist := [];
      StartRound(p, roots, F0, shadow);
      for k := 0 to |shadow|
        invariant Ready() && AllParts() && AllCovered(p, roots, Known(), worklist, shadow[k..]) && Grown(F0, [], Known(), worklist)
      {
        ghost var F, w := Known(), worklist;
        assert shadow[k] in shadow && shadow[k..] == [shadow[k]] + shadow[k + 1..];
        VisitFunc(shadow[k]);
        CoveredOn(p, roots, F, w, shadow[k + 1..], Known(), worklist, shadow[k]);
        GrownOn(F0, [], F, w, Known(), worklist);
      }
      assert shadow[|shadow|..] == [];
    }
  }

  // ----- what follows from what -----

  datatype Goal = Reached(f: nat) | Link(site: nat, g: nat) | Taken(f: nat) | Dynamic(site: nat, s: nat) | Invoked(site: nat, i: nat, m: nat) | Needed(t: nat)

  ghost predicate Holds(G: Facts, goal: Goal) {
    match goal
    case Reached(f) => f in G.reach
    case Link(site, g) => Linked(G, site, g)
    case Taken(f) => f in G.addr
    case Dynamic(site, s) => (site, s) in G.dyn
    case Invoked(site, i, m) => (site, i, m) in G.inv
    case Needed(t) => t in G.types
  }

  /** Every closed set of facts that has those of F has the goal. */
  ghost predicate Implied(p: Program, roots: set<nat>, F: Facts, goal: Goal) {
    forall G {:trigger Closed(p, roots, G)} :: Closed(p, roots, G) && Within(F, G) ==> Holds(G, goal)
  }

  lemma ImpliedOn(p: Program, roots: set<nat>, F: Facts, F': Facts, goal: Goal)
    requires Within(F, F') && Implied(p, roots, F, goal)
    ensures Implied(p, roots, F', goal)
  {
  }

  lemma AddrSound(p: Program, roots: set<nat>, F: Facts, f: nat)
    requires Sound(p, roots, F) && Implied(p, roots, F, Taken(f))
    ensures Sound(p, roots, F.(addr := F.addr + {f}))
  {
    forall G | Closed(p, roots, G) ensures Within(F.(addr := F.addr + {f}), G) {
      assert Holds(G, Taken(f));
    }
  }

  lemma DynSound(p: Program, roots: set<nat>, F: Facts, site: nat, s: nat)
    requires Sound(p, roots, F) && Implied(p, roots, F, Dynamic(site, s))
    ensures Sound(p, roots, F.(dyn := F.dyn + {(site, s)}))
  {
    forall G | Closed(p, roots, G) ensures Within(F.(dyn := F.dyn + {(site, s)}), G) {
      assert Holds(G, Dynamic(site, s));
    }
  }

  ghost predicate AllLinked(F: Facts, pairs: seq<(nat, nat)>, n: nat) {
    n <= |pairs| && forall k :: 0 <= k < n ==> Linked(F, pairs[k].0, pairs[k].1)
  }

  /** Pairs of a dynamic site and an address-taken function of the same signature. */
  lemma DynImplied(p: Program, roots: set<nat>, F: Facts, pairs: seq<(nat, nat)>)
    requires forall k :: 0 <= k < |pairs| ==> pairs[k].1 in F.addr && pairs[k].1 < |p.sig| && (pairs[k].0, p.sig[pairs[k].1]) in F.dyn
    ensures forall k :: 0 <= k < |pairs| ==> Implied(p, roots, F, Link(pairs[k].0, pairs[k].1))
  {
    forall k, G | 0 <= k < |pairs| && Closed(p, roots, G) && Within(F, G) ensures Linked(G, pairs[k].0, pairs[k].1) {
      assert DynOk(p, G);
    }
  }

  lemma AddrCrossed(p: Program, F: Facts, F': Facts, f: nat, sites: seq<nat>, pairs: seq<(nat, nat)>)
    requires DynOk(p, F) && F'.addr == F.addr + {f} && F'.dyn == F.dyn && F.edges <= F'.edges && F.reach <= F'.reach && f < |p.sig|
    requires |pairs| == |sites| && AllLinked(F', pairs, |pairs|) && forall k :: 0 <= k < |sites| ==> pairs[k] == (sites[k], f)
    requires forall site: nat :: (site, p.sig[f]) in F.dyn ==> site in sites
    ensures DynOk(p, F')
  {
    forall site: nat, g: nat | g in F'.addr && g < |p.sig| && (site, p.sig[g]) in F'.dyn ensures Linked(F', site, g) {
      if g == f {
        var k :| 0 <= k < |sites| && sites[k] == site;
        assert Linked(F', pairs[k].0, pairs[k].1);
      } else {
        assert Linked(F, site, g);
      }
    }
  }

  lemma DynCrossed(p: Program, F: Facts, F': Facts, site: nat, s: nat, funcs: seq<nat>, pairs: seq<(nat, nat)>)
    requires DynOk(p, F) && F'.addr == F.addr && F'.dyn == F.dyn + {(site, s)} && F.edges <= F'.edges && F.reach <= F'.reach
    requires |pairs| == |funcs| && AllLinked(F', pairs, |pairs|) && forall k :: 0 <= k < |funcs| ==> pairs[k] == (site, funcs[k])
    requires forall g: nat :: g in F.addr && g < |p.sig| && p.sig[g] == s ==> g in funcs
    ensures DynOk(p, F')
  {
    forall x: nat, g: nat | g in F'.addr && g < |p.sig| && (x, p.sig[g]) in F'.dyn ensures Linked(F', x, g) {
      if (x, p.sig[g]) in F.dyn {
        assert Linked(F, x, g);
      } else {
        var k :| 0 <= k < |funcs| && funcs[k] == g;
        assert Linked(F', pairs[k].0, pairs[k].1);
      }
    }
  }

  /** More edges and reachable functions do no harm. */
  lemma InvKept(p: Program, F: Facts, F': Facts, C: set<nat>)
    requires InvOk(p, F, C) && F'.inv == F.inv && F.edges <= F'.edges && F.reach <= F'.reach
    ensures InvOk(p, F', C)
  {
    forall site, i, m, c | (site, i, m) in F'.inv && c in C && (c, i) in p.implements ensures Linked(F', site, p.dispatch(c, m)) {
      assert (site, i, m) in F.inv;
      assert Linked(F, site, p.dispatch(c, m));
    }
  }

  /** The state grew; what is newly reachable is queued, and nothing else. */
  ghost predicate Grown(F: Facts, w: seq<nat>, F': Facts, w': seq<nat>) {
    && Within(F, F') && w <= w'
    && (forall f :: f in F'.reach && f !in F.reach ==> f in w')
    && (forall x :: x in w' ==> x in w || (x in F'.reach && x !in F.reach))
  }

  lemma GrownOn(F: Facts, w: seq<nat>, F1: Facts, w1: seq<nat>, F2: Facts, w2: seq<nat>)
    requires Grown(F, w, F1, w1) && Grown(F1, w1, F2, w2)
    ensures Grown(F, w, F2, w2)
  {
    forall f | f in F2.reach && f !in F.reach ensures f in w2 {
      if f in F1.reach {
        var i :| 0 <= i < |w1| && w1[i] == f;
        assert w2[i] == f;
      }
    }
  }

  // ----- the cross product of types and invoke sites -----

  lemma InvSound(p: Program, roots: set<nat>, F: Facts, site: nat, i: nat, m: nat)
    requires Sound(p, roots, F) && Implied(p, roots, F, Invoked(site, i, m))
    ensures Sound(p, roots, F.(inv := F.inv + {(site, i, m)}))
  {
    forall G | Closed(p, roots, G) ensures Within(F.(inv := F.inv + {(site, i, m)}), G) {
      assert Holds(G, Invoked(site, i, m));
    }
  }

  lemma TypeSound(p: Program, roots: set<nat>, F: Facts, t: nat)
    requires Sound(p, roots, F) && Implied(p, roots, F, Needed(t))
    ensures Sound(p, roots, F.(types := F.types + {t}))
  {
    forall G | Closed(p, roots, G) ensures Within(F.(types := F.types + {t}), G) {
      assert Holds(G, Needed(t));
    }
  }

  lemma InvImplied(p: Program, roots: set<nat>, F: Facts, site: nat, i: nat, m: nat, c: nat)
    requires (site, i, m) in F.inv && c in Concrete(p, F.types) && (c, i) in p.implements
    ensures Implied(p, roots, F, Link(site, p.dispatch(c, m)))
  {
    forall G | Closed(p, roots, G) && Within(F, G) ensures Linked(G, site, p.dispatch(c, m)) {
      assert InvOk(p, G, Concrete(p, G.types)) && (site, i, m) in G.inv;
    }
  }

  lemma SiteCrossed(p: Program, F: Facts, F': Facts, C: set<nat>, site: nat, i: nat, m: nat, concs: seq<nat>, pairs: seq<(nat, nat)>)
    requires InvOk(p, F, C) && F'.inv == F.inv + {(site, i, m)} && F.edges <= F'.edges && F.reach <= F'.reach
    requires |pairs| == |concs| && AllLinked(F', pairs, |pairs|) && forall k :: 0 <= k < |concs| ==> pairs[k] == (site, p.dispatch(concs[k], m))
    requires forall c :: c in C && (c, i) in p.implements ==> c in concs
    ensures InvOk(p, F', C)
  {
    forall x, j, n, c | (x, j, n) in F'.inv && c in C && (c, j) in p.implements ensures Linked(F', x, p.dispatch(c, n)) {
      if (x, j, n) in F.inv {
        assert Linked(F, x, p.dispatch(c, n));
      } else {
        var k :| 0 <= k < |concs| && concs[k] == c;
        assert Linked(F', pairs[k].0, pairs[k].1);
      }
    }
  }

  lemma DynKept(p: Program, F: Facts, F': Facts)
    requires DynOk(p, F) && F'.addr == F.addr && F'.dyn == F.dyn && F.edges <= F'.edges && F.reach <= F'.reach
    ensures DynOk(p, F')
  {
    forall site: nat, g: nat | g in F'.addr && g < |p.sig| && (site, p.sig[g]) in F'.dyn ensures Linked(F', site, g) {
      assert Linked(F, site, g);
    }
  }

  /** All invoke sites of interface i lead to the methods of c. */
  ghost predicate IfaceLinked(p: Program, F: Facts, c: nat, i: nat) {
    forall site, m :: (site, i, m) in F.inv ==> Linked(F, site, p.dispatch(c, m))
  }

  lemma TypeCrossed(p: Program, F: Facts, F': Facts, C: set<nat>, t: nat, ifaces: seq<nat>)
    requires InvOk(p, F, C) && F'.inv == F.inv && F.edges <= F'.edges && F.reach <= F'.reach
    requires forall k :: 0 <= k < |ifaces| ==> IfaceLinked(p, F', t, ifaces[k])
    requires forall site, i, m :: (site, i, m) in F.inv && (t, i) in p.implements ==> i in ifaces
    ensures InvOk(p, F', C + {t})
  {
    forall x, j, n, c | (x, j, n) in F'.inv && c in C + {t} && (c, j) in p.implements ensures Linked(F', x, p.dispatch(c, n)) {
      if c in C {
        assert (x, j, n) in F.inv;
        assert Linked(F, x, p.dispatch(c, n));
      } else {
        assert (x, j, n) in F.inv;
        var k :| 0 <= k < |ifaces| && ifaces[k] == j;
        assert IfaceLinked(p, F', t, ifaces[k]);
      }
    }
  }

  /** Types whose parts are runtime types keep them. */
  lemma PartsOn(p: Program, F: Facts, F': Facts, T: set<nat>)
    requires Within(F, F')
    requires forall x {:trigger PartsOk(p, F, x)} :: x in F.types && x !in T ==> PartsOk(p, F, x)
    requires forall x {:trigger PartsOk(p, F', x)} :: x in F'.types && x !in F.types ==> PartsOk(p, F', x)
    ensures forall x {:trigger PartsOk(p, F', x)} :: x in F'.types && x !in T ==> PartsOk(p, F', x)
  {
    forall x | x in F'.types && x !in T ensures PartsOk(p, F', x) {
      assert x in F.types ==> PartsOk(p, F, x);
    }
  }

  lemma ExportImplied(p: Program, roots: set<nat>, F: Facts, t: nat, k: nat)
    requires t in F.types && t < |p.exported| && t < |p.isInterface| && !p.isInterface[t] && k < |p.exported[t]|
    ensures Implied(p, roots, F, Reached(p.exported[t][k]))
  {
    forall G | Closed(p, roots, G) && Within(F, G) ensures p.exported[t][k] in G.reach {
      assert TypeOk(p, G, t);
    }
  }

  lemma PartImplied(p: Program, roots: set<nat>, F: Facts, t: nat, k: nat)
    requires t in F.types && t < |p.parts| && k < |p.parts[t]|
    ensures Implied(p, roots, F, Needed(p.parts[t][k]))
  {
    forall G | Closed(p, roots, G) && Within(F, G) ensures p.parts[t][k] in G.types {
      assert TypeOk(p, G, t);
    }
  }

  lemma ActionFollows(p: Program, roots: set<nat>, F: Facts, f: nat, k: nat)
    requires f < |p.body| && k < |p.body[f]| && Called(roots, F, f)
    ensures forall G {:trigger Closed(p, roots, G)} :: Closed(p, roots, G) && Within(F, G) ==> ActionOk(G, p.body[f][k])
  {
    forall G | Closed(p, roots, G) && Within(F, G) ensures ActionOk(G, p.body[f][k]) {
      assert BodyOk(p, G, f);
    }
  }

  // ----- the whole analysis -----

  /** f has been visited, or is still to be. */
  ghost predicate Covered(p: Program, F: Facts, w: seq<nat>, rest: seq<nat>, f: nat) {
    BodyOk(p, F, f) || f in w || f in rest
  }

  ghost predicate AllCovered(p: Program, roots: set<nat>, F: Facts, w: seq<nat>, rest: seq<nat>) {
    forall f {:trigger Covered(p, F, w, rest, f)} :: Called(roots, F, f) ==> Covered(p, F, w, rest, f)
  }

  lemma CoveredOn(p: Program, roots: set<nat>, F: Facts, w: seq<nat>, rest: seq<nat>, F': Facts, w': seq<nat>, f: nat)
    requires AllCovered(p, roots, F, w, [f] + rest) && Grown(F, w, F', w') && BodyOk(p, F', f)
    ensures AllCovered(p, roots, F', w', rest)
  {
    forall x: nat | Called(roots, F', x) ensures Covered(p, F', w', rest, x) {
      if Called(roots, F, x) {
        assert Covered(p, F, w, [f] + rest, x);
        if BodyOk(p, F, x) {
          assert forall i :: 0 <= i < |p.body[x]| ==> ActionOk(F, p.body[x][i]) ==> ActionOk(F', p.body[x][i]);
        } else if x in w {
          var k :| 0 <= k < |w| && w[k] == x;
          assert w'[k] == x;
        }
      }
    }
  }

  lemma StartRound(p: Program, roots: set<nat>, F: Facts, w: seq<nat>)
    requires AllCovered(p, roots, F, w, [])
    ensures AllCovered(p, roots, F, [], w[0..])
  {
    assert w[0..] == w;
    forall f | Called(roots, F, f) ensures Covered(p, F, [], w, f) {
      assert Covered(p, F, w, [], f);
    }
  }

  lemma AllClosed(p: Program, roots: set<nat>, F: Facts, f: nat)
    requires AllCovered(p, roots, F, [], []) && Called(roots, F, f)
    ensures BodyOk(p, F, f)
  {
    assert Covered(p, F, [], [], f);
  }

  /** Analyze: the facts found are closed under the rules and contained in all facts that are, in
      whatever order they were found. */
  method Analyze(p: Program, roots: seq<nat>) returns (reachable: set<nat>, edges: set<(nat, nat)>, types: set<nat>, ghost F: Facts)
    requires Valid(p) && AllBelow(roots, |p.body|)
    ensures F.reach == reachable && F.edges == edges && F.types == types
    ensures Closed(p, Elements(roots), F) && forall G :: Closed(p, Elements(roots), G) ==> Within(F, G)
  {
    var r := new Analyzer(p, Elements(roots));
    r.worklist := roots;
    while r.worklist != []
      invariant fresh(r) && r.p == p && r.roots == Elements(roots) && r.Ready() && r.AllParts()
      invariant AllCovered(p, r.roots, r.Known(), r.worklist, [])
      invariant forall f :: f in r.worklist ==> Called(r.roots, r.Known(), f)
      decreases Below(|p.body|) - r.reachable, |r.worklist|
    {
      ghost var before := r.reachable;
      r.VisitQueued();
      if r.worklist != [] {
        assert r.worklist[0] in r.worklist;
        assert r.worklist[0] in Below(|p.body|) - before;
      }
    }
    reachable, edges, types, F := r.reachable, r.edges, r.runtimeTypes, r.Known();
    forall f: nat | Called(r.roots, F, f) ensures BodyOk(p, F, f) {
      AllClosed(p, r.roots, F, f);
    }
    forall t | t in F.types ensures TypeOk(p, F, t) {
      assert PartsOk(p, F, t);
      assert t in Concrete(p, F.types) ==> t in r.concreteTypes;
    }
    assert forall f: nat :: f in Elements(roots) || f in F.reach ==> Called(r.roots, F, f);
  }
}
