/** The tree of records in the model: who belongs where, and in which order. */
module TopologyGroups {
  import opened Records
  import opened Ordering
  import opened TopologyLayout
  import opened TopologyProofs
  import opened TopologyDeterminism

  function VnrOf(m: VnrModel): Vnr { m.vnr }

  function NodeOf(m: NodeModel): Node { m.node }

  function IdOfNode(n: Node): string { n.id }

  function IdOfRoute(r: Route): string { r.id }

  /** `s` is a permutation of `all` in the order of the keys. */
  ghost predicate Lists<T>(key: T -> Key, s: seq<T>, all: seq<T>) {
    multiset(s) == multiset(all) && Ordered(key, s)
  }

  /** Exactly the routes of the node, in order, and its latest runtime if it has any. */
  ghost predicate IsNodeModel(m: NodeModel, t: Topology) {
    && Lists(RouteKey, m.routes, RoutesOf(m.node.id, t.routes))
    && match m.runtime
       case None => forall r :: r in t.runtime ==> r.nodeId != m.node.id
       case Some(latest) =>
         && latest in t.runtime && latest.nodeId == m.node.id
         && forall r :: r in t.runtime && r.nodeId == m.node.id ==> NotAfter(r, latest)
  }

  /** Exactly the nodes of the VNR, in order, each with what belongs to it. */
  ghost predicate IsVnrModel(m: VnrModel, t: Topology) {
    && Lists(NodeKey, Map(NodeOf, m.nodes), NodesOf(m.vnr, t.nodes))
    && (forall nm :: nm in m.nodes ==> IsNodeModel(nm, t))
  }

  lemma RoutesAreListed(t: Topology, node: Node)
    ensures Lists(RouteKey, RoutesOf(node.id, SortRoutes(t.routes)), RoutesOf(node.id, t.routes))
  {
    hide SortOn;
    SortIsOrderedPermutation(RouteKey, t.routes);
    FilterKeepsOrdered(RouteKey, (r: Route) => r.nodeId == node.id, SortRoutes(t.routes));
    FilterOfPermutation((r: Route) => r.nodeId == node.id, SortRoutes(t.routes), t.routes);
  }

  lemma NodesAreListed(t: Topology, v: Vnr)
    ensures Lists(NodeKey, NodesOf(v, SortNodes(t.nodes)), NodesOf(v, t.nodes))
  {
    hide SortOn;
    SortIsOrderedPermutation(NodeKey, t.nodes);
    FilterKeepsOrdered(NodeKey, (n: Node) => n.vnrName == v.name, SortNodes(t.nodes));
    FilterOfPermutation((n: Node) => n.vnrName == v.name, SortNodes(t.nodes), t.nodes);
  }

  lemma NodeIsGrouped(t: Topology, node: Node)
    ensures IsNodeModel(GroupNode(node, SortRoutes(t.routes), LatestRuntime(t.runtime)), t)
  {
    hide LatestRuntime, NotAfter, Lists, RoutesOf, SortRoutes;
    LatestRuntimeIsLatest(t.runtime);
    RoutesAreListed(t, node);
  }

  lemma VnrIsGrouped(t: Topology, v: Vnr)
    ensures var own := NodesOf(v, SortNodes(t.nodes));
            IsVnrModel(VnrModel(v, GroupNodes(own, SortRoutes(t.routes), LatestRuntime(t.runtime))), t)
  {
    hide LatestRuntime, IsNodeModel, GroupNode, NodesOf, Lists, SortNodes, SortRoutes;
    var own, routes, latest := NodesOf(v, SortNodes(t.nodes)), SortRoutes(t.routes), LatestRuntime(t.runtime);
    var ms := GroupNodes(own, routes, latest);
    NodesAreListed(t, v);
    forall i | 0 <= i < |ms|
      ensures Map(NodeOf, ms)[i] == own[i]
    {
      GroupedNode(own[i], routes, latest);
    }
    assert Map(NodeOf, ms) == own;
    forall nm | nm in ms
      ensures IsNodeModel(nm, t)
    {
      var i :| 0 <= i < |ms| && ms[i] == nm;
      NodeIsGrouped(t, own[i]);
    }
  }

  lemma GroupedNode(n: Node, routes: seq<Route>, latest: map<string, Runtime>)
    ensures NodeOf(GroupNode(n, routes, latest)) == n
  {
  }

  /** The model lists every VNR once and in order, with exactly its nodes, their routes and their latest runtime. */
  lemma GroupsAreExact(t: Topology)
    ensures var vs := ModelOf(t).vnrs;
            && Lists(VnrKey, Map(VnrOf, vs), t.vnrs)
            && (forall m :: m in vs ==> IsVnrModel(m, t))
  {
    hide SortOn, SortNodes, SortRoutes, IsVnrModel, LatestRuntime, GroupNodes, NodesOf, Compare, ModelOf;
    var vnrs, vs := SortVnrs(t.vnrs), ModelOf(t).vnrs;
    ModelHasGroups(t);
    SortIsOrderedPermutation(VnrKey, t.vnrs);
    assert Map(VnrOf, vs) == vnrs;
    forall m | m in vs
      ensures IsVnrModel(m, t)
    {
      var i :| 0 <= i < |vs| && vs[i] == m;
      VnrIsGrouped(t, vnrs[i]);
    }
  }

  // ---------- Orphans ----------

  lemma OrphanNodesPermuted(t: Topology)
    ensures multiset(OrphanNodes(SortVnrs(t.vnrs), SortNodes(t.nodes))) == multiset(OrphanNodes(t.vnrs, t.nodes))
  {
    hide SortOn;
    SortedInputs(t);
    var vnrs := SortVnrs(t.vnrs);
    assert forall name :: HasVnr(vnrs, name) <==> HasVnr(t.vnrs, name);
    FilterAgrees((n: Node) => !HasVnr(vnrs, n.vnrName), (n: Node) => !HasVnr(t.vnrs, n.vnrName), SortNodes(t.nodes));
    FilterOfPermutation((n: Node) => !HasVnr(t.vnrs, n.vnrName), SortNodes(t.nodes), t.nodes);
  }

  lemma OrphanRoutesPermuted(t: Topology)
    ensures multiset(OrphanRoutes(SortNodes(t.nodes), SortRoutes(t.routes)))
            == multiset(OrphanRoutes(t.nodes, t.routes))
  {
    hide SortOn;
    SortedInputs(t);
    var nodes := SortNodes(t.nodes);
    assert forall id :: HasNode(nodes, id) <==> HasNode(t.nodes, id);
    FilterAgrees((r: Route) => !HasNode(nodes, r.nodeId), (r: Route) => !HasNode(t.nodes, r.nodeId),
                 SortRoutes(t.routes));
    FilterOfPermutation((r: Route) => !HasNode(t.nodes, r.nodeId), SortRoutes(t.routes), t.routes);
  }

  /** The orphan lists hold, in order, exactly the identifiers of the records without parent, each as often
      as there are. */
  lemma OrphansAreListed(t: Topology)
    ensures Lists(IdKey, ModelOf(t).orphanNodeIds, Map(IdOfNode, OrphanNodes(t.vnrs, t.nodes)))
    ensures Lists(IdKey, ModelOf(t).orphanRouteIds, Map(IdOfRoute, OrphanRoutes(t.nodes, t.routes)))
  {
    hide SortOn, OrphanNodes, OrphanRoutes, GroupVnrs, GroupNodes, Entities, Links, SortEdges, SortEntities;
    hide LatestRuntime, Ordered;
    var ns := OrphanNodes(SortVnrs(t.vnrs), SortNodes(t.nodes));
    var rs := OrphanRoutes(SortNodes(t.nodes), SortRoutes(t.routes));
    OrphanNodesPermuted(t);
    OrphanRoutesPermuted(t);
    assert NodeIds(ns) == Map(IdOfNode, ns) && RouteIds(rs) == Map(IdOfRoute, rs);
    MapOfPermutation(IdOfNode, ns, OrphanNodes(t.vnrs, t.nodes));
    MapOfPermutation(IdOfRoute, rs, OrphanRoutes(t.nodes, t.routes));
    SortIsOrderedPermutation(IdKey, NodeIds(ns));
    SortIsOrderedPermutation(IdKey, RouteIds(rs));
  }
}
