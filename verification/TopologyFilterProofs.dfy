/** What filtering guarantees: it closes the graph, it is idempotent, and when it changes nothing. */
module TopologyFilterProofs {
  import opened Records
  import opened Ordering
  import opened TopologyLayout
  import opened TopologyProofs
  import opened TopologyFilter

  // ---------- Closing the graph ----------

  lemma EmptyOrFirst(ids: seq<string>)
    ensures ids == [] || ids[0] in ids
  {
  }

  /** A filtered topology has no orphans, whatever the topology and the criteria. */
  lemma FilteredHasNoOrphans(lower: string -> string, c: Criteria, t: Topology)
    ensures var m := ModelOf(Filtered(lower, c, t)); m.orphanNodeIds == [] && m.orphanRouteIds == []
  {
    hide ModelOf, IncludedNodes, KeptVnrs, LatestRuntime;
    var u := Filtered(lower, c, t);
    forall id
      ensures id !in ModelOf(u).orphanNodeIds && id !in ModelOf(u).orphanRouteIds
    {
      OrphansAreExact(u, id);
    }
    EmptyOrFirst(ModelOf(u).orphanNodeIds);
    EmptyOrFirst(ModelOf(u).orphanRouteIds);
  }

  // ---------- What is kept ----------

  /** A node passes the filters and has a VNR to be shown in. */
  ghost predicate Shown(lower: string -> string, c: Criteria, t: Topology, n: Node) {
    n in t.nodes && HasVnr(t.vnrs, n.vnrName) && Included(lower, c, t, Observed(map[], t.runtime), n)
  }

  /** The VNR of a shown node is kept for its sake: no node that passes is lost because of its VNR. */
  lemma ShownNodesAreKept(lower: string -> string, c: Criteria, t: Topology)
    ensures var u := Filtered(lower, c, t);
            && (forall n :: n in u.nodes <==> Shown(lower, c, t, n))
            && (forall v :: v in u.vnrs <==>
                  && v in t.vnrs && (c.vnr == ALL || v.name == c.vnr)
                  && (|| (exists n :: Shown(lower, c, t, n) && n.vnrName == v.name)
                      || (c.query != "" && (Matches(lower, v.name, c.query) || Matches(lower, v.cidr, c.query)))))
            && (forall r :: r in u.routes <==> r in t.routes && exists n :: Shown(lower, c, t, n) && n.id == r.nodeId)
  {
    hide Observed, LivenessOf, NodeMatches, Matches, IncludedNodes, KeptVnrs, KeptNodes, KeptRoutes, KeptRuntime;
    var u := Filtered(lower, c, t);
    var included := IncludedNodes(lower, c, t);
    forall n | n in t.nodes && Shown(lower, c, t, n)
      ensures n in u.nodes
    {
      var v :| v in t.vnrs && v.name == n.vnrName;
      assert n in included && VnrIncluded(lower, c, included, v);
    }
    assert forall v :: v in u.vnrs ==> v in t.vnrs;
  }

  // ---------- Filtering twice ----------

  /** The first VNR with a name is still the first when all VNRs with the name are kept. */
  lemma {:induction false} CidrOfKept(keep: Vnr -> bool, vnrs: seq<Vnr>, name: string)
    requires forall v :: v in vnrs && v.name == name ==> keep(v)
    ensures CidrOf(Filter(keep, vnrs), name) == CidrOf(vnrs, name)
    decreases |vnrs|
  {
    if vnrs != [] {
      CidrOfKept(keep, vnrs[1..], name);
      assert vnrs[0] in vnrs;
      assert ([vnrs[0]] + Filter(keep, vnrs[1..]))[1..] == Filter(keep, vnrs[1..]);
    }
  }

  ghost predicate SameOn(keepId: string -> bool, a: map<string, Runtime>, b: map<string, Runtime>) {
    forall id :: keepId(id) ==> (id in a <==> id in b) && (id in a ==> a[id] == b[id])
  }

  /** Dropping the entries of some nodes does not change what is found for the others. */
  lemma {:induction false} ObservedOfKept(keepId: string -> bool, a: map<string, Runtime>, b: map<string, Runtime>,
                                          items: seq<Runtime>)
    requires SameOn(keepId, a, b)
    ensures SameOn(keepId, Observed(a, Filter((r: Runtime) => keepId(r.nodeId), items)), Observed(b, items))
    decreases |items|
  {
    if items != [] {
      var keep := (r: Runtime) => keepId(r.nodeId);
      var r, rest := items[0], Filter(keep, items[1..]);
      var a1 := Keep(ObservedAt, a, r);
      var b1 := Keep(ObservedAt, b, r);
      if keepId(r.nodeId) {
        ObservedOfKept(keepId, a1, b1, items[1..]);
        assert Filter(keep, items) == [r] + rest && ([r] + rest)[1..] == rest;
      } else {
        ObservedOfKept(keepId, a, b1, items[1..]);
      }
    }
  }

  lemma LivenessOfKept(nodes: seq<Node>, runtime: seq<Runtime>, n: Node)
    requires n in nodes
    ensures LivenessOf(Observed(map[], KeptRuntime(nodes, runtime)), n.id) == LivenessOf(Observed(map[], runtime), n.id)
  {
    hide Observed;
    var keepId := (id: string) => HasNode(nodes, id);
    FilterAgrees((r: Runtime) => HasNode(nodes, r.nodeId), (r: Runtime) => keepId(r.nodeId), runtime);
    ObservedOfKept(keepId, map[], map[], runtime);
    assert keepId(n.id);
  }

  lemma CidrOfShown(lower: string -> string, c: Criteria, t: Topology, n: Node)
    requires n in Filtered(lower, c, t).nodes
    ensures CidrOf(Filtered(lower, c, t).vnrs, n.vnrName) == CidrOf(t.vnrs, n.vnrName)
  {
    hide CidrOf, NodeMatches, Observed, LivenessOf, Matches, KeptRoutes, KeptRuntime, IncludedNodes, KeptNodes;
    var included := IncludedNodes(lower, c, t);
    CidrOfKept((v: Vnr) => VnrIncluded(lower, c, included, v), t.vnrs, n.vnrName);
  }

  lemma RoutesOfShown(lower: string -> string, query: string, nodes: seq<Node>, routes: seq<Route>, n: Node)
    requires n in nodes
    ensures RouteMatches(lower, query, KeptRoutes(nodes, routes), n.id) == RouteMatches(lower, query, routes, n.id)
  {
    hide Matches, KeptRoutes;
    assert HasNode(nodes, n.id);
  }

  /** What is shown would be shown again. */
  lemma ShownAgain(lower: string -> string, c: Criteria, t: Topology, n: Node)
    requires n in Filtered(lower, c, t).nodes
    ensures var u := Filtered(lower, c, t); Included(lower, c, u, Observed(map[], u.runtime), n)
  {
    hide Observed, LivenessOf, RouteMatches, Matches, CidrOf, KeptVnrs, KeptNodes, KeptRoutes, KeptRuntime;
    hide IncludedNodes;
    var u := Filtered(lower, c, t);
    LivenessOfKept(u.nodes, t.runtime, n);
    CidrOfShown(lower, c, t, n);
    RoutesOfShown(lower, c.query, u.nodes, t.routes, n);
  }

  lemma VnrShownAgain(lower: string -> string, c: Criteria, t: Topology, v: Vnr)
    requires v in Filtered(lower, c, t).vnrs
    ensures var u := Filtered(lower, c, t); VnrIncluded(lower, c, u.nodes, v)
  {
    hide Observed, LivenessOf, NodeMatches, Matches, KeptRoutes, KeptRuntime, IncludedNodes, KeptVnrs, KeptNodes;
    var included := IncludedNodes(lower, c, t);
    if n :| n in included && n.vnrName == v.name {
      assert n in Filtered(lower, c, t).nodes;
    }
  }

  /** Filtering again by the same criteria changes nothing. */
  lemma FilteringTwice(lower: string -> string, c: Criteria, t: Topology)
    ensures Filtered(lower, c, Filtered(lower, c, t)) == Filtered(lower, c, t)
  {
    hide Observed, NodeMatches, Matches, LivenessOf, Included, VnrIncluded, KeptRoutes, KeptRuntime;
    var u := Filtered(lower, c, t);
    forall n | n in u.nodes
      ensures Included(lower, c, u, Observed(map[], u.runtime), n) && HasVnr(u.vnrs, n.vnrName)
    {
      ShownAgain(lower, c, t, n);
    }
    FilterSize((n: Node) => Included(lower, c, u, Observed(map[], u.runtime), n), u.nodes);
    assert IncludedNodes(lower, c, u) == u.nodes;
    forall v | v in u.vnrs
      ensures VnrIncluded(lower, c, u.nodes, v)
    {
      VnrShownAgain(lower, c, t, v);
    }
    FilterSize((v: Vnr) => VnrIncluded(lower, c, u.nodes, v), u.vnrs);
    assert KeptVnrs(lower, c, u.nodes, u.vnrs) == u.vnrs;
    FilterSize((n: Node) => HasVnr(u.vnrs, n.vnrName), u.nodes);
    assert KeptNodes(u.vnrs, u.nodes) == u.nodes;
    KeptTwice(u.nodes, t);
  }

  lemma KeptTwice(nodes: seq<Node>, t: Topology)
    ensures KeptRoutes(nodes, KeptRoutes(nodes, t.routes)) == KeptRoutes(nodes, t.routes)
    ensures KeptRuntime(nodes, KeptRuntime(nodes, t.runtime)) == KeptRuntime(nodes, t.runtime)
  {
    FilterSize((r: Route) => HasNode(nodes, r.nodeId), KeptRoutes(nodes, t.routes));
    FilterSize((r: Runtime) => HasNode(nodes, r.nodeId), KeptRuntime(nodes, t.runtime));
  }

  // ---------- Filtering nothing ----------

  const NO_CRITERIA := Criteria("", ALL, ALL)

  /** Every record has the record it belongs to, and no VNR is empty. */
  ghost predicate Closed(t: Topology) {
    && (forall v :: v in t.vnrs ==> SomeNodeIn(t.nodes, v.name))
    && (forall n :: n in t.nodes ==> HasVnr(t.vnrs, n.vnrName))
    && (forall r :: r in t.routes ==> HasNode(t.nodes, r.nodeId))
    && (forall r :: r in t.runtime ==> HasNode(t.nodes, r.nodeId))
  }

  /** Without criteria, filtering keeps the topology exactly when every VNR has a node and nothing is an orphan. */
  lemma NoCriteriaKeepsClosed(lower: string -> string, t: Topology)
    ensures Filtered(lower, NO_CRITERIA, t) == t <==> Closed(t)
  {
    hide Observed, NodeMatches, Matches, LivenessOf;
    var u := Filtered(lower, NO_CRITERIA, t);
    var latest := Observed(map[], t.runtime);
    FilterSize((n: Node) => Included(lower, NO_CRITERIA, t, latest, n), t.nodes);
    FilterAgrees((n: Node) => Included(lower, NO_CRITERIA, t, Observed(map[], t.runtime), n),
                 (n: Node) => Included(lower, NO_CRITERIA, t, latest, n), t.nodes);
    assert IncludedNodes(lower, NO_CRITERIA, t) == t.nodes;
    FilterSize((v: Vnr) => VnrIncluded(lower, NO_CRITERIA, t.nodes, v), t.vnrs);
    FilterSize((n: Node) => HasVnr(u.vnrs, n.vnrName), t.nodes);
    FilterSize((r: Route) => HasNode(u.nodes, r.nodeId), t.routes);
    FilterSize((r: Runtime) => HasNode(u.nodes, r.nodeId), t.runtime);
  }
}
