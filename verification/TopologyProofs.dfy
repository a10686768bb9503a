/** Conservation for the whole topology model: entities, edges and orphans are exactly those of the records. */
module TopologyProofs {
  import opened Wrappers
  import opened Records
  import opened Ordering
  import opened TopologyLayout
  import opened TopologyBuilder
  import opened TopologyGeometry
  import opened TopologyConservation

  /** VNR names, node identifiers and route identifiers are unique, as the API guarantees. */
  ghost predicate UniqueInputs(t: Topology) {
    Unique(VnrId, t.vnrs) && Unique(NodeId, t.nodes) && Unique(RouteId, t.routes)
  }

  /** The entities of already sorted lists, before they are sorted by key. */
  function Layout(vnrs: seq<Vnr>, nodes: seq<Node>, routes: seq<Route>, latest: map<string, Runtime>): seq<Entity> {
    Entities(GroupVnrs(vnrs, nodes, routes, latest), GroupNodes(OrphanNodes(vnrs, nodes), routes, latest),
             OrphanRoutes(nodes, routes))
  }

  function LayoutOf(t: Topology): seq<Entity> {
    Layout(SortVnrs(t.vnrs), SortNodes(t.nodes), SortRoutes(t.routes), LatestRuntime(t.runtime))
  }

  lemma ModelIsSortedLayout(t: Topology)
    ensures ModelOf(t).entities == SortEntities(LayoutOf(t))
    ensures ModelOf(t).edges == SortEdges(Links(LayoutOf(t)))
  {
    hide SortVnrs, SortNodes, SortRoutes, SortIds, SortEdges, SortEntities, OrphanNodes, OrphanRoutes;
    hide GroupVnrs, GroupNodes, Entities, Links, LatestRuntime, NodeIds, RouteIds;
  }

  // ---------- No entity twice ----------

  lemma OrphansApart(x: Entity, v: Vnr, y: Entity, m: Node, vnrs: seq<Vnr>, nodes: seq<Node>, routes: seq<Route>)
    requires v in vnrs && InVnrFamily(x, v, nodes, routes)
    requires m in OrphanNodes(vnrs, nodes) && InNodeFamily(y, m, None, routes)
    requires Unique(NodeId, nodes) && Unique(RouteId, routes)
    ensures x.key != y.key
  {
    var p := Some(KeyOf(OfVnr, v.name));
    if InFamilies(x, NodesOf(v, nodes), p, routes) {
      var n :| n in NodesOf(v, nodes) && InNodeFamily(x, n, p, routes);
      assert HasVnr(vnrs, n.vnrName);
      if n.id == m.id { UniqueTells(NodeId, nodes, n, m); }
      FamiliesApart(x, n, p, y, m, None, routes);
    } else if x.key == y.key {
      KeysTellKinds(x.kind, x.entityId, y.kind, y.entityId);
    }
  }

  lemma OrphanRouteApart(x: Entity, n: Node, p: Option<string>, r: Route, row: nat, nodes: seq<Node>,
                         routes: seq<Route>)
    requires n in nodes && InNodeFamily(x, n, p, routes) && r in OrphanRoutes(nodes, routes)
    requires Unique(RouteId, routes)
    ensures x.key != RouteEntity(r, None, row).key
  {
    assert HasNode(nodes, n.id);
    if x.key == RouteEntity(r, None, row).key {
      KeysTellKinds(x.kind, x.entityId, OfRoute, r.id);
      var s :| s in routes && s.nodeId == n.id && s.id == x.entityId;
      UniqueTells(RouteId, routes, r, s);
    }
  }

  /** An entity that belongs to a VNR or to a node. */
  ghost predicate InTree(e: Entity, nodes: seq<Node>, routes: seq<Route>) {
    || (Keyed(e) && e.kind == OfVnr)
    || (exists n, p :: n in nodes && InNodeFamily(e, n, p, routes))
  }

  lemma TreeParts(vnrs: seq<Vnr>, nodes: seq<Node>, routes: seq<Route>, latest: map<string, Runtime>, row: nat)
    ensures forall e :: e in VnrsPart(GroupVnrs(vnrs, nodes, routes, latest)) ==> InTree(e, nodes, routes)
    ensures forall e :: e in NodesPart(GroupNodes(OrphanNodes(vnrs, nodes), routes, latest), None, row) ==>
            InTree(e, nodes, routes)
  {
    hide VnrsPart, NodesPart, GroupVnrs, GroupNodes, InNodeFamily;
    VnrsFamilies(vnrs, nodes, routes, latest);
    forall e | e in VnrsPart(GroupVnrs(vnrs, nodes, routes, latest))
      ensures InTree(e, nodes, routes)
    {
      var v :| v in vnrs && InVnrFamily(e, v, nodes, routes);
      var p := Some(KeyOf(OfVnr, v.name));
      if InFamilies(e, NodesOf(v, nodes), p, routes) {
        var n :| n in NodesOf(v, nodes) && InNodeFamily(e, n, p, routes);
        assert n in nodes;
      }
    }
    NodesFamilies(OrphanNodes(vnrs, nodes), routes, latest, None, row);
    forall e | e in NodesPart(GroupNodes(OrphanNodes(vnrs, nodes), routes, latest), None, row)
      ensures InTree(e, nodes, routes)
    {
      assert InFamilies(e, OrphanNodes(vnrs, nodes), None, routes);
      var n :| n in OrphanNodes(vnrs, nodes) && InNodeFamily(e, n, None, routes);
      assert n in nodes;
    }
  }

  lemma InTreeKinds(e: Entity, nodes: seq<Node>, routes: seq<Route>)
    requires InTree(e, nodes, routes)
    ensures Keyed(e) && e.kind != Master
  {
  }

  lemma OrphanRouteEntities(nodes: seq<Node>, routes: seq<Route>, row: nat)
    ensures forall e :: e in RouteEntities(OrphanRoutes(nodes, routes), None, row) ==>
              Keyed(e) && e.kind == OfRoute && e.parentKey.None?
              && exists r, k: nat :: r in OrphanRoutes(nodes, routes) && e == RouteEntity(r, None, k)
  {
    var orphans := OrphanRoutes(nodes, routes);
    RoutesStacked(orphans, None, row);
    forall e | e in RouteEntities(orphans, None, row)
      ensures exists r, k: nat :: r in orphans && e == RouteEntity(r, None, k)
    {
      var i :| 0 <= i < |orphans| && RouteEntities(orphans, None, row)[i] == e;
      assert orphans[i] in orphans && e == RouteEntity(orphans[i], None, row + i);
    }
  }

  lemma TreeAndOrphanRoutesApart(x: Entity, y: Entity, nodes: seq<Node>, routes: seq<Route>, row: nat)
    requires InTree(x, nodes, routes) && y in RouteEntities(OrphanRoutes(nodes, routes), None, row)
    requires Unique(RouteId, routes)
    ensures x.key != y.key
  {
    hide InNodeFamily, RouteEntities;
    OrphanRouteEntities(nodes, routes, row);
    var r, k: nat :| r in OrphanRoutes(nodes, routes) && y == RouteEntity(r, None, k);
    if Keyed(x) && x.kind == OfVnr {
      if x.key == y.key { KeysTellKinds(x.kind, x.entityId, y.kind, y.entityId); }
    } else {
      var n, p :| n in nodes && InNodeFamily(x, n, p, routes);
      OrphanRouteApart(x, n, p, r, k, nodes, routes);
    }
  }

  lemma VnrsAndOrphansApart(vnrs: seq<Vnr>, nodes: seq<Node>, routes: seq<Route>, latest: map<string, Runtime>,
                            row: nat)
    requires Unique(NodeId, nodes) && Unique(RouteId, routes)
    ensures NoCommonKey(VnrsPart(GroupVnrs(vnrs, nodes, routes, latest)),
                        NodesPart(GroupNodes(OrphanNodes(vnrs, nodes), routes, latest), None, row))
  {
    hide VnrsPart, NodesPart, GroupVnrs, GroupNodes, InNodeFamily, InVnrFamily;
    VnrsFamilies(vnrs, nodes, routes, latest);
    var orphans := OrphanNodes(vnrs, nodes);
    NodesFamilies(orphans, routes, latest, None, row);
    forall x, y | && x in VnrsPart(GroupVnrs(vnrs, nodes, routes, latest))
                  && y in NodesPart(GroupNodes(orphans, routes, latest), None, row)
      ensures x.key != y.key
    {
      assert InVnrFamilies(x, vnrs, nodes, routes) && InFamilies(y, orphans, None, routes);
      var v :| v in vnrs && InVnrFamily(x, v, nodes, routes);
      var m :| m in orphans && InNodeFamily(y, m, None, routes);
      OrphansApart(x, v, y, m, vnrs, nodes, routes);
    }
  }

  /** No two entities of the drawing share a key. */
  lemma LayoutUnique(vnrs: seq<Vnr>, nodes: seq<Node>, routes: seq<Route>, latest: map<string, Runtime>)
    requires Unique(VnrId, vnrs) && Unique(NodeId, nodes) && Unique(RouteId, routes)
    ensures UniqueKeys(Layout(vnrs, nodes, routes, latest))
  {
    hide VnrsPart, NodesPart, GroupVnrs, GroupNodes, RouteEntities, UniqueKeys, NoCommonKey, OrphanRoutes, Unique;
    hide InTree;
    var models := GroupVnrs(vnrs, nodes, routes, latest);
    var orphans, strays := OrphanNodes(vnrs, nodes), OrphanRoutes(nodes, routes);
    var a := VnrsPart(models);
    var row := VnrsRows(models);
    var b := NodesPart(GroupNodes(orphans, routes, latest), None, row);
    var row1 := row + NodesRows(GroupNodes(orphans, routes, latest));
    var c, d := RouteEntities(strays, None, row1), [MasterEntity(models)];
    OrphansUnique(vnrs, nodes, routes);
    VnrsUnique(vnrs, nodes, routes, latest);
    NodesUnique(orphans, routes, latest, None, row);
    RoutesUnique(strays, None, row1);
    VnrsAndOrphansApart(vnrs, nodes, routes, latest, row);
    UniqueBoth(a, b);
    TreeParts(vnrs, nodes, routes, latest, row);
    StraysApart(a + b, nodes, routes, row1);
    UniqueBoth(a + b, c);
    MasterApart(a + b, nodes, routes, row1, d[0]);
    OneKey(d[0]);
    UniqueBoth(a + b + c, d);
  }

  lemma OrphansUnique(vnrs: seq<Vnr>, nodes: seq<Node>, routes: seq<Route>)
    requires Unique(NodeId, nodes) && Unique(RouteId, routes)
    ensures Unique(NodeId, OrphanNodes(vnrs, nodes)) && Unique(RouteId, OrphanRoutes(nodes, routes))
  {
    UniqueOfFilter(NodeId, (n: Node) => !HasVnr(vnrs, n.vnrName), nodes);
    UniqueOfFilter(RouteId, (r: Route) => !HasNode(nodes, r.nodeId), routes);
  }

  lemma StraysApart(tree: seq<Entity>, nodes: seq<Node>, routes: seq<Route>, row: nat)
    requires (forall e :: e in tree ==> InTree(e, nodes, routes)) && Unique(RouteId, routes)
    ensures NoCommonKey(tree, RouteEntities(OrphanRoutes(nodes, routes), None, row))
  {
    hide InTree, RouteEntities, OrphanRoutes;
    forall x, y | x in tree && y in RouteEntities(OrphanRoutes(nodes, routes), None, row)
      ensures x.key != y.key
    {
      TreeAndOrphanRoutesApart(x, y, nodes, routes, row);
    }
  }

  lemma MasterApart(tree: seq<Entity>, nodes: seq<Node>, routes: seq<Route>, row: nat, master: Entity)
    requires (forall e :: e in tree ==> InTree(e, nodes, routes)) && master.kind == Master && Keyed(master)
    ensures NoCommonKey(tree + RouteEntities(OrphanRoutes(nodes, routes), None, row), [master])
  {
    hide InTree, RouteEntities, OrphanRoutes;
    OrphanRouteEntities(nodes, routes, row);
    forall x, y | x in tree + RouteEntities(OrphanRoutes(nodes, routes), None, row) && y in [master]
      ensures x.key != y.key
    {
      if x in tree { InTreeKinds(x, nodes, routes); }
      if x.key == y.key { KeysTellKinds(x.kind, x.entityId, Master, master.entityId); }
    }
  }

  // ---------- Every record once ----------

  /** The record has an entity, under its own key, in its own column, with the given parent. */
  ghost predicate Drawn(es: seq<Entity>, kind: Kind, id: string, parentKey: Option<string>) {
    exists e :: e in es && e.kind == kind && e.entityId == id && e.parentKey == parentKey && Keyed(e)
  }

  ghost predicate Covers(all: seq<Entity>, es: seq<Entity>) {
    forall e :: e in es ==> e in all
  }

  lemma DrawnInMore(all: seq<Entity>, es: seq<Entity>, kind: Kind, id: string, parentKey: Option<string>)
    requires Covers(all, es) && Drawn(es, kind, id, parentKey)
    ensures Drawn(all, kind, id, parentKey)
  {
    hide Keyed;
  }

  lemma RouteDrawn(routes: seq<Route>, parentKey: Option<string>, row: nat, r: Route)
    requires r in routes
    ensures Drawn(RouteEntities(routes, parentKey, row), OfRoute, r.id, parentKey)
  {
    RoutesStacked(routes, parentKey, row);
    var i :| 0 <= i < |routes| && routes[i] == r;
    assert RouteEntities(routes, parentKey, row)[i] in RouteEntities(routes, parentKey, row);
  }

  /** A node and its routes are drawn in the part of that node. */
  lemma NodeDrawn(node: Node, routes: seq<Route>, latest: map<string, Runtime>, parentKey: Option<string>, row: nat)
    ensures var es := NodePart(GroupNode(node, routes, latest), parentKey, row);
            && Drawn(es, OfNode, node.id, parentKey)
            && forall r :: r in routes && r.nodeId == node.id ==> Drawn(es, OfRoute, r.id, Some(KeyOf(OfNode, node.id)))
  {
    hide RouteEntities, RoutesOf;
    var n := GroupNode(node, routes, latest);
    var own := RouteEntities(n.routes, Some(KeyOf(OfNode, node.id)), row);
    assert NodeEntity(n, parentKey, row) in NodePart(n, parentKey, row);
    forall r | r in routes && r.nodeId == node.id
      ensures Drawn(NodePart(n, parentKey, row), OfRoute, r.id, Some(KeyOf(OfNode, node.id)))
    {
      RouteDrawn(n.routes, Some(KeyOf(OfNode, node.id)), row, r);
      DrawnInMore(NodePart(n, parentKey, row), own, OfRoute, r.id, Some(KeyOf(OfNode, node.id)));
    }
  }

  ghost predicate NodeAndRoutesDrawn(es: seq<Entity>, node: Node, parentKey: Option<string>, routes: seq<Route>) {
    && Drawn(es, OfNode, node.id, parentKey)
    && forall r :: r in routes && r.nodeId == node.id ==> Drawn(es, OfRoute, r.id, Some(KeyOf(OfNode, node.id)))
  }

  lemma NodeDrawnInMore(all: seq<Entity>, es: seq<Entity>, node: Node, parentKey: Option<string>, routes: seq<Route>)
    requires Covers(all, es) && NodeAndRoutesDrawn(es, node, parentKey, routes)
    ensures NodeAndRoutesDrawn(all, node, parentKey, routes)
  {
    hide Drawn, Covers;
    DrawnInMore(all, es, OfNode, node.id, parentKey);
    forall r | r in routes && r.nodeId == node.id
      ensures Drawn(all, OfRoute, r.id, Some(KeyOf(OfNode, node.id)))
    {
      DrawnInMore(all, es, OfRoute, r.id, Some(KeyOf(OfNode, node.id)));
    }
  }

  lemma {:induction false} NodesDrawn(nodes: seq<Node>, routes: seq<Route>, latest: map<string, Runtime>,
                                      parentKey: Option<string>, row: nat, node: Node)
    requires node in nodes
    ensures NodeAndRoutesDrawn(NodesPart(GroupNodes(nodes, routes, latest), parentKey, row), node, parentKey, routes)
    decreases |nodes|
  {
    hide GroupNodes, NodePart, NodeAndRoutesDrawn;
    var last, all := |nodes| - 1, GroupNodes(nodes, routes, latest);
    GroupNodesSnoc(nodes, routes, latest);
    var middle := row + NodesRows(all[..last]);
    var a, b := NodesPart(all[..last], parentKey, row), NodePart(all[last], parentKey, middle);
    if node == nodes[last] {
      NodeIsDrawn(node, routes, latest, parentKey, middle);
      NodeDrawnInMore(a + b, b, node, parentKey, routes);
    } else {
      NodesDrawn(nodes[..last], routes, latest, parentKey, row, node);
      NodeDrawnInMore(a + b, a, node, parentKey, routes);
    }
  }

  lemma NodeIsDrawn(node: Node, routes: seq<Route>, latest: map<string, Runtime>, parentKey: Option<string>, row: nat)
    ensures NodeAndRoutesDrawn(NodePart(GroupNode(node, routes, latest), parentKey, row), node, parentKey, routes)
  {
    NodeDrawn(node, routes, latest, parentKey, row);
  }

  /** A VNR, its nodes and their routes are drawn in the part of that VNR. */
  ghost predicate VnrAndNodesDrawn(es: seq<Entity>, vnr: Vnr, nodes: seq<Node>, routes: seq<Route>) {
    && Drawn(es, OfVnr, vnr.name, Some("master"))
    && forall n :: n in nodes && n.vnrName == vnr.name ==>
         NodeAndRoutesDrawn(es, n, Some(KeyOf(OfVnr, vnr.name)), routes)
  }

  lemma VnrIsDrawn(vnr: Vnr, nodes: seq<Node>, routes: seq<Route>, latest: map<string, Runtime>, row: nat)
    ensures VnrAndNodesDrawn(VnrPart(GroupVnr(vnr, nodes, routes, latest), row), vnr, nodes, routes)
  {
    hide NodesPart, NodeAndRoutesDrawn, VnrY, GroupNodes;
    var v, parentKey := GroupVnr(vnr, nodes, routes, latest), Some(KeyOf(OfVnr, vnr.name));
    var a, b := NodesPart(v.nodes, parentKey, row), [VnrEntity(v, row)];
    assert VnrEntity(v, row) in VnrPart(v, row);
    forall n | n in nodes && n.vnrName == vnr.name
      ensures NodeAndRoutesDrawn(VnrPart(v, row), n, parentKey, routes)
    {
      NodesDrawn(NodesOf(vnr, nodes), routes, latest, parentKey, row, n);
      NodeDrawnInMore(VnrPart(v, row), a, n, parentKey, routes);
    }
  }

  lemma VnrDrawnInMore(all: seq<Entity>, es: seq<Entity>, vnr: Vnr, nodes: seq<Node>, routes: seq<Route>)
    requires Covers(all, es) && VnrAndNodesDrawn(es, vnr, nodes, routes)
    ensures VnrAndNodesDrawn(all, vnr, nodes, routes)
  {
    hide Drawn, NodeAndRoutesDrawn, Covers;
    DrawnInMore(all, es, OfVnr, vnr.name, Some("master"));
    forall n | n in nodes && n.vnrName == vnr.name
      ensures NodeAndRoutesDrawn(all, n, Some(KeyOf(OfVnr, vnr.name)), routes)
    {
      NodeDrawnInMore(all, es, n, Some(KeyOf(OfVnr, vnr.name)), routes);
    }
  }

  lemma {:induction false} VnrsDrawn(vnrs: seq<Vnr>, nodes: seq<Node>, routes: seq<Route>,
                                     latest: map<string, Runtime>, vnr: Vnr)
    requires vnr in vnrs
    ensures VnrAndNodesDrawn(VnrsPart(GroupVnrs(vnrs, nodes, routes, latest)), vnr, nodes, routes)
    decreases |vnrs|
  {
    hide GroupVnrs, VnrPart, VnrAndNodesDrawn;
    var last, all := |vnrs| - 1, GroupVnrs(vnrs, nodes, routes, latest);
    GroupVnrsSnoc(vnrs, nodes, routes, latest);
    var middle := VnrsRows(all[..last]);
    var a, b := VnrsPart(all[..last]), VnrPart(all[last], middle);
    if vnr == vnrs[last] {
      VnrIsDrawn(vnr, nodes, routes, latest, middle);
      VnrDrawnInMore(a + b, b, vnr, nodes, routes);
    } else {
      VnrsDrawn(vnrs[..last], nodes, routes, latest, vnr);
      VnrDrawnInMore(a + b, a, vnr, nodes, routes);
    }
  }

  // ---------- The whole drawing ----------

  /** The parent that a node has in the drawing: its VNR, if there is one. */
  function NodeParent(vnrs: seq<Vnr>, n: Node): Option<string> {
    if HasVnr(vnrs, n.vnrName) then Some(KeyOf(OfVnr, n.vnrName)) else None
  }

  function RouteParent(nodes: seq<Node>, r: Route): Option<string> {
    if HasNode(nodes, r.nodeId) then Some(KeyOf(OfNode, r.nodeId)) else None
  }

  /** Every record has its entity. */
  ghost predicate AllDrawn(es: seq<Entity>, vnrs: seq<Vnr>, nodes: seq<Node>, routes: seq<Route>) {
    && Drawn(es, Master, "master", None)
    && (forall v :: v in vnrs ==> Drawn(es, OfVnr, v.name, Some("master")))
    && (forall n :: n in nodes ==> Drawn(es, OfNode, n.id, NodeParent(vnrs, n)))
    && (forall r :: r in routes ==> Drawn(es, OfRoute, r.id, RouteParent(nodes, r)))
  }

  /** The four stretches of the drawing. */
  lemma LayoutCovers(vnrs: seq<Vnr>, nodes: seq<Node>, routes: seq<Route>, latest: map<string, Runtime>)
    returns (orphanRow: nat, strayRow: nat)
    ensures var es, models := Layout(vnrs, nodes, routes, latest), GroupVnrs(vnrs, nodes, routes, latest);
            && Covers(es, VnrsPart(models))
            && Covers(es, NodesPart(GroupNodes(OrphanNodes(vnrs, nodes), routes, latest), None, orphanRow))
            && Covers(es, RouteEntities(OrphanRoutes(nodes, routes), None, strayRow))
            && Covers(es, [MasterEntity(models)])
            && (forall e :: e in es ==>
                  || e in VnrsPart(models) || e == MasterEntity(models)
                  || e in NodesPart(GroupNodes(OrphanNodes(vnrs, nodes), routes, latest), None, orphanRow)
                  || e in RouteEntities(OrphanRoutes(nodes, routes), None, strayRow))
  {
    hide VnrsPart, NodesPart, GroupVnrs, GroupNodes, RouteEntities, OrphanRoutes, OrphanNodes, MasterEntity, VnrsRows;
    hide NodesRows;
    var models := GroupVnrs(vnrs, nodes, routes, latest);
    orphanRow := VnrsRows(models);
    strayRow := orphanRow + NodesRows(GroupNodes(OrphanNodes(vnrs, nodes), routes, latest));
  }

  lemma NodeIsInLayout(vnrs: seq<Vnr>, nodes: seq<Node>, routes: seq<Route>, latest: map<string, Runtime>, n: Node)
    requires n in nodes
    ensures NodeAndRoutesDrawn(Layout(vnrs, nodes, routes, latest), n, NodeParent(vnrs, n), routes)
  {
    hide VnrsPart, NodesPart, GroupVnrs, GroupNodes, RouteEntities, OrphanRoutes, NodeAndRoutesDrawn, Layout, Covers;
    hide KeyOf;
    var es := Layout(vnrs, nodes, routes, latest);
    var orphanRow, strayRow := LayoutCovers(vnrs, nodes, routes, latest);
    if HasVnr(vnrs, n.vnrName) {
      var v :| v in vnrs && v.name == n.vnrName;
      VnrsDrawn(vnrs, nodes, routes, latest, v);
      NodeDrawnInMore(es, VnrsPart(GroupVnrs(vnrs, nodes, routes, latest)), n, NodeParent(vnrs, n), routes);
    } else {
      NodesDrawn(OrphanNodes(vnrs, nodes), routes, latest, None, orphanRow, n);
      var orphans := GroupNodes(OrphanNodes(vnrs, nodes), routes, latest);
      NodeDrawnInMore(es, NodesPart(orphans, None, orphanRow), n, None, routes);
    }
  }

  lemma RestIsInLayout(vnrs: seq<Vnr>, nodes: seq<Node>, routes: seq<Route>, latest: map<string, Runtime>)
    ensures var es := Layout(vnrs, nodes, routes, latest);
            && Drawn(es, Master, "master", None)
            && (forall v :: v in vnrs ==> Drawn(es, OfVnr, v.name, Some("master")))
            && (forall r :: r in OrphanRoutes(nodes, routes) ==> Drawn(es, OfRoute, r.id, None))
  {
    hide VnrsPart, NodesPart, GroupVnrs, GroupNodes, RouteEntities, Drawn, NodeAndRoutesDrawn, Layout, Covers, KeyOf;
    hide MasterEntity;
    var es, models := Layout(vnrs, nodes, routes, latest), GroupVnrs(vnrs, nodes, routes, latest);
    var orphanRow, strayRow := LayoutCovers(vnrs, nodes, routes, latest);
    MasterDrawn(models);
    DrawnInMore(es, [MasterEntity(models)], Master, "master", None);
    forall v | v in vnrs
      ensures Drawn(es, OfVnr, v.name, Some("master"))
    {
      VnrsDrawn(vnrs, nodes, routes, latest, v);
      DrawnInMore(es, VnrsPart(models), OfVnr, v.name, Some("master"));
    }
    forall r | r in OrphanRoutes(nodes, routes)
      ensures Drawn(es, OfRoute, r.id, None)
    {
      RouteDrawn(OrphanRoutes(nodes, routes), None, strayRow, r);
      DrawnInMore(es, RouteEntities(OrphanRoutes(nodes, routes), None, strayRow), OfRoute, r.id, None);
    }
  }

  lemma MasterDrawn(models: seq<VnrModel>)
    ensures Drawn([MasterEntity(models)], Master, "master", None)
  {
    assert MasterEntity(models) in [MasterEntity(models)];
  }

  lemma LayoutDrawsAll(vnrs: seq<Vnr>, nodes: seq<Node>, routes: seq<Route>, latest: map<string, Runtime>)
    ensures AllDrawn(Layout(vnrs, nodes, routes, latest), vnrs, nodes, routes)
  {
    hide Layout, Drawn;
    RestIsInLayout(vnrs, nodes, routes, latest);
    forall n | n in nodes
      ensures Drawn(Layout(vnrs, nodes, routes, latest), OfNode, n.id, NodeParent(vnrs, n))
    {
      NodeIsInLayout(vnrs, nodes, routes, latest, n);
    }
    forall r | r in routes
      ensures Drawn(Layout(vnrs, nodes, routes, latest), OfRoute, r.id, RouteParent(nodes, r))
    {
      if HasNode(nodes, r.nodeId) {
        var n :| n in nodes && n.id == r.nodeId;
        NodeIsInLayout(vnrs, nodes, routes, latest, n);
      }
    }
  }

  lemma FamilyIsRecord(e: Entity, n: Node, p: Option<string>, vnrs: seq<Vnr>, nodes: seq<Node>, routes: seq<Route>)
    requires n in nodes && InNodeFamily(e, n, p, routes)
    ensures StandsForRecord(e, vnrs, nodes, routes)
  {
  }

  /** The entity carries the key, the column and the label of one of the records. */
  ghost predicate StandsForRecord(e: Entity, vnrs: seq<Vnr>, nodes: seq<Node>, routes: seq<Route>) {
    && Keyed(e)
    && match e.kind
       case Master => e.text == "Master"
       case OfVnr => exists v :: v in vnrs && v.name == e.entityId == e.text
       case OfNode => exists n :: n in nodes && n.id == e.entityId && n.name == e.text
       case OfRoute => exists r :: r in routes && r.id == e.entityId && r.prefix == e.text
  }

  lemma LayoutDrawsOnly(vnrs: seq<Vnr>, nodes: seq<Node>, routes: seq<Route>, latest: map<string, Runtime>)
    ensures forall e :: e in Layout(vnrs, nodes, routes, latest) ==> StandsForRecord(e, vnrs, nodes, routes)
  {
    hide VnrsPart, NodesPart, GroupVnrs, GroupNodes, RouteEntities, OrphanRoutes, OrphanNodes, Layout, InNodeFamily;
    hide StandsForRecord;
    var models := GroupVnrs(vnrs, nodes, routes, latest);
    var orphans := OrphanNodes(vnrs, nodes);
    var orphanRow, strayRow := LayoutCovers(vnrs, nodes, routes, latest);
    VnrsFamilies(vnrs, nodes, routes, latest);
    NodesFamilies(orphans, routes, latest, None, orphanRow);
    forall e | e in Layout(vnrs, nodes, routes, latest)
      ensures StandsForRecord(e, vnrs, nodes, routes)
    {
      if e in VnrsPart(models) {
        assert InVnrFamilies(e, vnrs, nodes, routes);
        var v :| v in vnrs && InVnrFamily(e, v, nodes, routes);
        VnrFamilyIsRecord(e, v, vnrs, nodes, routes);
      } else if e in NodesPart(GroupNodes(orphans, routes, latest), None, orphanRow) {
        assert InFamilies(e, orphans, None, routes);
        var n :| n in orphans && InNodeFamily(e, n, None, routes);
        FamilyIsRecord(e, n, None, vnrs, nodes, routes);
      } else if e in RouteEntities(OrphanRoutes(nodes, routes), None, strayRow) {
        StrayIsRecord(e, vnrs, nodes, routes, strayRow);
      } else {
        MasterIsRecord(models, vnrs, nodes, routes);
      }
    }
  }

  lemma VnrFamilyIsRecord(e: Entity, v: Vnr, vnrs: seq<Vnr>, nodes: seq<Node>, routes: seq<Route>)
    requires v in vnrs && InVnrFamily(e, v, nodes, routes)
    ensures StandsForRecord(e, vnrs, nodes, routes)
  {
    hide InNodeFamily;
    var p := Some(KeyOf(OfVnr, v.name));
    if InFamilies(e, NodesOf(v, nodes), p, routes) {
      var n :| n in NodesOf(v, nodes) && InNodeFamily(e, n, p, routes);
      FamilyIsRecord(e, n, p, vnrs, nodes, routes);
    }
  }

  lemma StrayIsRecord(e: Entity, vnrs: seq<Vnr>, nodes: seq<Node>, routes: seq<Route>, row: nat)
    requires e in RouteEntities(OrphanRoutes(nodes, routes), None, row)
    ensures StandsForRecord(e, vnrs, nodes, routes)
  {
    hide RouteEntities;
    OrphanRouteEntities(nodes, routes, row);
    var r, k: nat :| r in OrphanRoutes(nodes, routes) && e == RouteEntity(r, None, k);
    assert r in routes;
  }

  lemma MasterIsRecord(models: seq<VnrModel>, vnrs: seq<Vnr>, nodes: seq<Node>, routes: seq<Route>)
    ensures StandsForRecord(MasterEntity(models), vnrs, nodes, routes)
  {
  }

  // ---------- From the layout to the model ----------

  lemma SortedInputs(t: Topology)
    ensures multiset(SortVnrs(t.vnrs)) == multiset(t.vnrs) && (forall v :: v in SortVnrs(t.vnrs) <==> v in t.vnrs)
    ensures multiset(SortNodes(t.nodes)) == multiset(t.nodes) && (forall n :: n in SortNodes(t.nodes) <==> n in t.nodes)
    ensures multiset(SortRoutes(t.routes)) == multiset(t.routes)
            && (forall r :: r in SortRoutes(t.routes) <==> r in t.routes)
    ensures UniqueInputs(t) ==>
              Unique(VnrId, SortVnrs(t.vnrs)) && Unique(NodeId, SortNodes(t.nodes))
                && Unique(RouteId, SortRoutes(t.routes))
  {
    hide Unique, SortOn;
    SortIsOrderedPermutation(VnrKey, t.vnrs);
    SortIsOrderedPermutation(NodeKey, t.nodes);
    SortIsOrderedPermutation(RouteKey, t.routes);
    SameMembers(SortVnrs(t.vnrs), t.vnrs);
    SameMembers(SortNodes(t.nodes), t.nodes);
    SameMembers(SortRoutes(t.routes), t.routes);
    if UniqueInputs(t) {
      UniqueOfPermutation(VnrId, t.vnrs, SortVnrs(t.vnrs));
      UniqueOfPermutation(NodeId, t.nodes, SortNodes(t.nodes));
      UniqueOfPermutation(RouteId, t.routes, SortRoutes(t.routes));
    }
  }

  lemma ModelHasLayout(t: Topology)
    ensures multiset(ModelOf(t).entities) == multiset(LayoutOf(t))
    ensures forall e :: e in ModelOf(t).entities <==> e in LayoutOf(t)
  {
    hide LayoutOf, ModelOf, SortOn;
    ModelIsSortedLayout(t);
    SortIsOrderedPermutation(EntityKey, LayoutOf(t));
    SameMembers(ModelOf(t).entities, LayoutOf(t));
  }

  function KeyOfEntity(e: Entity): string { e.key }

  lemma UniqueKeysIsUnique(es: seq<Entity>)
    ensures UniqueKeys(es) <==> Unique(KeyOfEntity, es)
  {
  }

  /** Every VNR, node and route is drawn exactly once, under its own key and with its own parent, and nothing
      else is. */
  lemma EveryRecordOnce(t: Topology)
    requires UniqueInputs(t)
    ensures var es := ModelOf(t).entities;
            && UniqueKeys(es)
            && AllDrawn(es, t.vnrs, t.nodes, t.routes)
            && (forall e :: e in es ==> StandsForRecord(e, t.vnrs, t.nodes, t.routes))
  {
    hide ModelOf, Layout, UniqueKeys, Unique, SortVnrs, SortNodes, SortRoutes;
    var vnrs, nodes, routes := SortVnrs(t.vnrs), SortNodes(t.nodes), SortRoutes(t.routes);
    var latest := LatestRuntime(t.runtime);
    SortedInputs(t);
    ModelHasLayout(t);
    LayoutUnique(vnrs, nodes, routes, latest);
    UniqueKeysIsUnique(LayoutOf(t));
    UniqueKeysIsUnique(ModelOf(t).entities);
    UniqueOfPermutation(KeyOfEntity, LayoutOf(t), ModelOf(t).entities);
    LayoutDrawsAll(vnrs, nodes, routes, latest);
    AllDrawnTransfers(LayoutOf(t), vnrs, nodes, routes, ModelOf(t).entities, t);
    LayoutDrawsOnly(vnrs, nodes, routes, latest);
    forall e | e in ModelOf(t).entities
      ensures StandsForRecord(e, t.vnrs, t.nodes, t.routes)
    {
      assert StandsForRecord(e, vnrs, nodes, routes);
    }
  }

  lemma AllDrawnTransfers(es: seq<Entity>, vnrs: seq<Vnr>, nodes: seq<Node>, routes: seq<Route>, es1: seq<Entity>,
                          t: Topology)
    requires AllDrawn(es, vnrs, nodes, routes) && Covers(es1, es)
    requires (forall v :: v in vnrs <==> v in t.vnrs) && (forall n :: n in nodes <==> n in t.nodes)
    requires forall r :: r in routes <==> r in t.routes
    ensures AllDrawn(es1, t.vnrs, t.nodes, t.routes)
  {
    hide Drawn, Covers;
    DrawnInMore(es1, es, Master, "master", None);
    forall v | v in t.vnrs
      ensures Drawn(es1, OfVnr, v.name, Some("master"))
    {
      DrawnInMore(es1, es, OfVnr, v.name, Some("master"));
    }
    forall n | n in t.nodes
      ensures Drawn(es1, OfNode, n.id, NodeParent(t.vnrs, n))
    {
      assert NodeParent(t.vnrs, n) == NodeParent(vnrs, n);
      DrawnInMore(es1, es, OfNode, n.id, NodeParent(vnrs, n));
    }
    forall r | r in t.routes
      ensures Drawn(es1, OfRoute, r.id, RouteParent(t.nodes, r))
    {
      assert RouteParent(t.nodes, r) == RouteParent(nodes, r);
      DrawnInMore(es1, es, OfRoute, r.id, RouteParent(nodes, r));
    }
  }

  // ---------- Edges and orphans ----------

  lemma LinksWithout(b: seq<Entity>, i: nat)
    requires i < |b|
    ensures multiset(b[..i] + b[i + 1..]) == multiset(b) - multiset{b[i]}
    ensures multiset(Links(b)) == multiset(Links(b[..i] + b[i + 1..])) + multiset(LinkOf(b[i]))
  {
    hide LinkOf, Links;
    var b0, b1 := b[..i], b[i + 1..];
    assert b == b0 + [b[i]] + b1;
    LinksOfConcat(b0 + [b[i]], b1);
    LinksOfConcat(b0, b1);
    LinksOfSnoc(b0, b[i]);
  }

  lemma {:induction false} LinksOfPermutation(a: seq<Entity>, b: seq<Entity>)
    requires multiset(a) == multiset(b)
    ensures multiset(Links(a)) == multiset(Links(b))
    decreases |a|
  {
    hide LinkOf, Links;
    SameMembers(a, b);
    if a == [] {
      assert a == b;
    } else {
      assert a[0] in b;
      var i :| 0 <= i < |b| && b[i] == a[0];
      LinksWithout(a, 0);
      LinksWithout(b, i);
      LinksOfPermutation(a[..0] + a[1..], b[..i] + b[i + 1..]);
    }
  }

  /** The edges are exactly the links from parents to their children, each once. */
  lemma EdgesAreParentLinks(t: Topology)
    ensures multiset(ModelOf(t).edges) == multiset(Links(ModelOf(t).entities))
  {
    hide ModelOf, LayoutOf, Links, SortOn;
    ModelIsSortedLayout(t);
    ModelHasLayout(t);
    SortIsOrderedPermutation(EdgeKey, Links(LayoutOf(t)));
    LinksOfPermutation(ModelOf(t).entities, LayoutOf(t));
  }

  /** The end points of every edge are drawn. */
  lemma ParentsAreDrawn(t: Topology, e: Entity)
    requires UniqueInputs(t) && e in ModelOf(t).entities && e.parentKey.Some?
    ensures exists p :: p in ModelOf(t).entities && p.key == e.parentKey.value
  {
    hide ModelOf, UniqueInputs, KeyOf, UniqueKeys, Drawn;
    EveryRecordOnce(t);
    var es := ModelOf(t).entities;
    match e.kind
    case Master =>
    case OfVnr =>
      var v :| v in t.vnrs && v.name == e.entityId;
      SameParent(es, e, OfVnr, v.name, Some("master"));
      MasterKey();
      DrawnHasKey(es, Master, "master", None);
    case OfNode =>
      var n :| n in t.nodes && n.id == e.entityId;
      SameParent(es, e, OfNode, n.id, NodeParent(t.vnrs, n));
      var v :| v in t.vnrs && v.name == n.vnrName;
      DrawnHasKey(es, OfVnr, v.name, Some("master"));
    case OfRoute =>
      var r :| r in t.routes && r.id == e.entityId;
      SameParent(es, e, OfRoute, r.id, RouteParent(t.nodes, r));
      var n :| n in t.nodes && n.id == r.nodeId;
      DrawnHasKey(es, OfNode, n.id, NodeParent(t.vnrs, n));
  }

  lemma DrawnHasKey(es: seq<Entity>, kind: Kind, id: string, parentKey: Option<string>)
    requires Drawn(es, kind, id, parentKey)
    ensures exists p :: p in es && p.key == KeyOf(kind, id)
  {
  }

  lemma MasterKey()
    ensures KeyOf(Master, "master") == "master"
  {
  }

  lemma SameParent(es: seq<Entity>, e: Entity, kind: Kind, id: string, parentKey: Option<string>)
    requires UniqueKeys(es) && e in es && Keyed(e) && e.kind == kind && e.entityId == id
            && Drawn(es, kind, id, parentKey)
    ensures e.parentKey == parentKey
  {
    var d :| d in es && d.kind == kind && d.entityId == id && d.parentKey == parentKey && Keyed(d);
    UniqueKeysIsUnique(es);
    UniqueTells(KeyOfEntity, es, d, e);
  }

  /** The orphan lists hold exactly the records whose parent is missing. */
  lemma OrphansAreExact(t: Topology, id: string)
    ensures id in ModelOf(t).orphanNodeIds <==> exists n :: n in t.nodes && n.id == id && !HasVnr(t.vnrs, n.vnrName)
    ensures id in ModelOf(t).orphanRouteIds <==> exists r :: r in t.routes && r.id == id && !HasNode(t.nodes, r.nodeId)
  {
    hide SortOn, Layout, GroupVnrs, GroupNodes, Entities, Links, SortEdges, SortEntities, LatestRuntime;
    SortedInputs(t);
    var vnrs, nodes, routes := SortVnrs(t.vnrs), SortNodes(t.nodes), SortRoutes(t.routes);
    var ns, rs := OrphanNodes(vnrs, nodes), OrphanRoutes(nodes, routes);
    SortIsOrderedPermutation(IdKey, NodeIds(ns));
    SameMembers(SortIds(NodeIds(ns)), NodeIds(ns));
    SortIsOrderedPermutation(IdKey, RouteIds(rs));
    SameMembers(SortIds(RouteIds(rs)), RouteIds(rs));
    forall n | n in ns
      ensures n.id in NodeIds(ns)
    {
      var i :| 0 <= i < |ns| && ns[i] == n;
      assert NodeIds(ns)[i] == n.id;
    }
    forall r | r in rs
      ensures r.id in RouteIds(rs)
    {
      var i :| 0 <= i < |rs| && rs[i] == r;
      assert RouteIds(rs)[i] == r.id;
    }
    assert forall name :: HasVnr(vnrs, name) <==> HasVnr(t.vnrs, name);
    assert forall id :: HasNode(nodes, id) <==> HasNode(t.nodes, id);
  }
}
