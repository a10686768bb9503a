/** Every parent is drawn halfway between its first and its last child. */
module TopologyCentring {
  import opened Wrappers
  import opened Records
  import opened TopologyLayout
  import opened TopologyGeometry
  import opened TopologyConservation
  import opened TopologyProofs
  import opened TopologyReadability

  /** `c` and `d` are the topmost and the lowest child of `p`, and `p` lies halfway between them. */
  ghost predicate Halfway(es: seq<Entity>, p: Entity, c: Entity, d: Entity) {
    && c in es && d in es && ChildOf(c, p) && ChildOf(d, p) && p.y == (c.y + d.y) / 2.0
    && forall e :: e in es && ChildOf(e, p) ==> c.y <= e.y <= d.y
  }

  ghost predicate CentredAt(es: seq<Entity>, p: Entity) {
    (exists e :: e in es && ChildOf(e, p)) ==> exists c, d :: Halfway(es, p, c, d)
  }

  ghost predicate Centred(es: seq<Entity>) {
    forall p :: p in es ==> CentredAt(es, p)
  }

  // ---------- Putting stretches together ----------

  /** Entities that are no children of `p` do not matter for `p`. */
  lemma CentredInMore(a: seq<Entity>, all: seq<Entity>, p: Entity)
    requires CentredAt(a, p) && Covers(all, a)
    requires forall e :: e in all && ChildOf(e, p) ==> e in a
    ensures CentredAt(all, p)
  {
    hide ChildOf;
    if exists e :: e in all && ChildOf(e, p) {
      var c, d :| Halfway(a, p, c, d);
      assert Halfway(all, p, c, d);
    }
  }

  lemma CentredBoth(a: seq<Entity>, b: seq<Entity>)
    requires Centred(a) && Centred(b) && Unrelated(a, b)
    ensures Centred(a + b)
  {
    hide CentredAt, ChildOf;
    forall p | p in a + b
      ensures CentredAt(a + b, p)
    {
      if p in a { CentredInMore(a, a + b, p); } else { CentredInMore(b, a + b, p); }
    }
  }

  lemma CentredWithParent(a: seq<Entity>, p: Entity)
    requires Centred(a) && CentredAt(a, p) && !ChildOf(p, p) && (forall x :: x in a ==> !ChildOf(p, x))
    ensures Centred(a + [p])
  {
    hide CentredAt, ChildOf;
    forall x | x in a + [p]
      ensures CentredAt(a + [p], x)
    {
      CentredInMore(a, a + [p], x);
    }
  }

  lemma NoChildrenCentred(es: seq<Entity>)
    requires forall x, y :: x in es && y in es ==> !ChildOf(x, y)
    ensures Centred(es)
  {
  }

  // ---------- Nodes ----------

  lemma RoutesAreNoParents(routes: seq<Route>, node: Node, row: nat)
    ensures Centred(RouteEntities(routes, Some(KeyOf(OfNode, node.id)), row))
  {
    hide KeyOf;
    var es := RouteEntities(routes, Some(KeyOf(OfNode, node.id)), row);
    RoutesStacked(routes, Some(KeyOf(OfNode, node.id)), row);
    forall x, y | x in es && y in es
      ensures !ChildOf(x, y)
    {
      var j :| 0 <= j < |es| && es[j] == y;
      if ChildOf(x, y) { KeysTellKinds(OfNode, node.id, OfRoute, routes[j].id); }
    }
    NoChildrenCentred(es);
  }

  lemma NodeIsHalfway(n: NodeModel, parentKey: Option<string>, row: nat)
    ensures CentredAt(RouteEntities(n.routes, Some(KeyOf(OfNode, n.node.id)), row), NodeEntity(n, parentKey, row))
  {
    hide KeyOf;
    var es, p := RouteEntities(n.routes, Some(KeyOf(OfNode, n.node.id)), row), NodeEntity(n, parentKey, row);
    RoutesStacked(n.routes, Some(KeyOf(OfNode, n.node.id)), row);
    if es != [] {
      var c, d := es[0], es[|es| - 1];
      forall e | e in es && ChildOf(e, p)
        ensures c.y <= e.y <= d.y
      {
        var i :| 0 <= i < |es| && es[i] == e;
        RowsOrdered(row, row + i);
        RowsOrdered(row + i, row + |es| - 1);
      }
      assert Halfway(es, p, c, d);
    }
  }

  lemma NodeCentred(node: Node, routes: seq<Route>, latest: map<string, Runtime>, parentKey: Option<string>, row: nat)
    requires parentKey.None? || exists name :: parentKey == Some(KeyOf(OfVnr, name))
    ensures Centred(NodePart(GroupNode(node, routes, latest), parentKey, row))
  {
    hide RouteEntities, RoutesOf, Centred, CentredAt, NodeY;
    var n := GroupNode(node, routes, latest);
    var a, p := RouteEntities(n.routes, Some(KeyOf(OfNode, node.id)), row), NodeEntity(n, parentKey, row);
    RoutesAreNoParents(n.routes, node, row);
    NodeIsHalfway(n, parentKey, row);
    NodeHasNoParentHere(n, parentKey, row);
    CentredWithParent(a, p);
  }

  lemma NodeHasNoParentHere(n: NodeModel, parentKey: Option<string>, row: nat)
    requires parentKey.None? || exists name :: parentKey == Some(KeyOf(OfVnr, name))
    ensures var p := NodeEntity(n, parentKey, row);
            && !ChildOf(p, p)
            && forall x :: x in RouteEntities(n.routes, Some(KeyOf(OfNode, n.node.id)), row) ==> !ChildOf(p, x)
  {
    hide KeyOf, NodeY;
    var es := RouteEntities(n.routes, Some(KeyOf(OfNode, n.node.id)), row);
    RoutesStacked(n.routes, Some(KeyOf(OfNode, n.node.id)), row);
    if name :| parentKey == Some(KeyOf(OfVnr, name)) {
      if KeyOf(OfVnr, name) == KeyOf(OfNode, n.node.id) { KeysTellKinds(OfVnr, name, OfNode, n.node.id); }
      forall x | x in es
        ensures x.key != KeyOf(OfVnr, name)
      {
        var i :| 0 <= i < |es| && es[i] == x;
        if x.key == KeyOf(OfVnr, name) { KeysTellKinds(OfVnr, name, OfRoute, n.routes[i].id); }
      }
    }
  }

  lemma NodesUnrelated(nodes: seq<Node>, node: Node, parentKey: Option<string>, a: seq<Entity>, b: seq<Entity>,
                       routes: seq<Route>)
    requires parentKey.None? || exists name :: parentKey == Some(KeyOf(OfVnr, name))
    requires forall n :: n in nodes ==> n.id != node.id
    requires forall x :: x in a ==> InFamilies(x, nodes, parentKey, routes)
    requires forall y :: y in b ==> InNodeFamily(y, node, parentKey, routes)
    ensures Unrelated(a, b)
  {
    hide InNodeFamily, ChildOf;
    forall x, y | x in a && y in b
      ensures !ChildOf(x, y) && !ChildOf(y, x)
    {
      var n :| n in nodes && InNodeFamily(x, n, parentKey, routes);
      NodeFamilyKin(x, n, parentKey, y, node, parentKey, routes);
      NodeFamilyKin(y, node, parentKey, x, n, parentKey, routes);
    }
  }

  lemma EarlierIdsDiffer(nodes: seq<Node>)
    requires Unique(NodeId, nodes) && nodes != []
    ensures forall n :: n in nodes[..|nodes| - 1] ==> n.id != nodes[|nodes| - 1].id
    ensures Unique(NodeId, nodes[..|nodes| - 1])
  {
    var last := |nodes| - 1;
    forall n | n in nodes[..last]
      ensures n.id != nodes[last].id
    {
      var i :| 0 <= i < last && nodes[i] == n;
      assert NodeId(nodes[i]) != NodeId(nodes[last]);
    }
  }

  lemma {:induction false} NodesCentred(nodes: seq<Node>, routes: seq<Route>, latest: map<string, Runtime>,
                                        parentKey: Option<string>, row: nat)
    requires Unique(NodeId, nodes)
    requires parentKey.None? || exists name :: parentKey == Some(KeyOf(OfVnr, name))
    ensures Centred(NodesPart(GroupNodes(nodes, routes, latest), parentKey, row))
    decreases |nodes|
  {
    hide GroupNodes, InNodeFamily, InFamilies, NodePart, Centred, KeyOf, Unique, Unrelated;
    if nodes == [] {
      NothingCentred();
    } else {
      var last, all := |nodes| - 1, GroupNodes(nodes, routes, latest);
      GroupNodesSnoc(nodes, routes, latest);
      EarlierIdsDiffer(nodes);
      var middle := row + NodesRows(all[..last]);
      var a, b := NodesPart(all[..last], parentKey, row), NodePart(all[last], parentKey, middle);
      NodesCentred(nodes[..last], routes, latest, parentKey, row);
      NodeCentred(nodes[last], routes, latest, parentKey, middle);
      NodesFamilies(nodes[..last], routes, latest, parentKey, row);
      NodeFamily(nodes[last], routes, latest, parentKey, middle);
      NodesUnrelated(nodes[..last], nodes[last], parentKey, a, b, routes);
      CentredBoth(a, b);
    }
  }

  lemma NothingCentred()
    ensures Centred([])
  {
  }

  // ---------- VNRs ----------

  /** The entities of one kind and parent have the heights `ys`, from the topmost to the lowest. */
  ghost predicate Heights(es: seq<Entity>, kind: Kind, parentKey: Option<string>, ys: seq<real>) {
    && (forall e :: e in es && e.kind == kind ==> e.parentKey == parentKey && e.y in ys)
    && (forall y :: y in ys ==> exists e :: e in es && e.kind == kind && e.parentKey == parentKey && e.y == y)
    && (forall i, j :: 0 <= i < j < |ys| ==> ys[i] <= ys[j])
  }

  lemma HeightsOfMore(a: seq<Entity>, b: seq<Entity>, kind: Kind, parentKey: Option<string>, ys: seq<real>, e: Entity,
                      low: nat, high: nat)
    requires Heights(a, kind, parentKey, ys) && Within(a, low, high) && e in b && e.kind == kind
            && e.parentKey == parentKey
    requires (forall x :: x in b && x.kind == kind ==> x == e) && RowY(high) <= e.y
    ensures Heights(a + b, kind, parentKey, ys + [e.y])
  {
    hide Within;
    forall y | y in ys + [e.y]
      ensures exists x :: x in a + b && x.kind == kind && x.parentKey == parentKey && x.y == y
    {
      if y in ys {
        var x :| x in a && x.kind == kind && x.parentKey == parentKey && x.y == y;
        assert x in a + b;
      } else {
        assert e in a + b;
      }
    }
    forall y | y in ys
      ensures y <= e.y
    {
      var x :| x in a && x.kind == kind && x.parentKey == parentKey && x.y == y;
      MemberWithin(a, low, high, x);
    }
    var all := ys + [e.y];
    forall i, j | 0 <= i < j < |all|
      ensures all[i] <= all[j]
    {
      assert ys[i] in ys;
    }
    forall x | x in a + b && x.kind == kind
      ensures x.parentKey == parentKey && x.y in all
    {
    }
  }

  lemma {:induction false} NodeHeights(ns: seq<NodeModel>, parentKey: Option<string>, row: nat)
    ensures Heights(NodesPart(ns, parentKey, row), OfNode, parentKey, NodesYs(ns, row))
    decreases |ns|
  {
    hide Heights, NodePart, Within, Stacked, NodeY;
    if ns == [] {
      NoHeights(OfNode, parentKey);
    } else {
      var last := |ns| - 1;
      var middle := row + NodesRows(ns[..last]);
      NodeHeights(ns[..last], parentKey, row);
      NodesStacked(ns[..last], parentKey, row);
      NodeYWithin(ns[last], middle);
      OnlyNode(ns[last], parentKey, middle);
      HeightsOfMore(NodesPart(ns[..last], parentKey, row), NodePart(ns[last], parentKey, middle), OfNode, parentKey,
                    NodesYs(ns[..last], row), NodeEntity(ns[last], parentKey, middle), row, middle);
    }
  }

  lemma OnlyNode(n: NodeModel, parentKey: Option<string>, row: nat)
    ensures NodeEntity(n, parentKey, row) in NodePart(n, parentKey, row)
    ensures forall e :: e in NodePart(n, parentKey, row) && e.kind == OfNode ==> e == NodeEntity(n, parentKey, row)
  {
    hide NodeY, KeyOf;
    RoutesStacked(n.routes, Some(KeyOf(OfNode, n.node.id)), row);
  }

  lemma NoHeights(kind: Kind, parentKey: Option<string>)
    ensures Heights([], kind, parentKey, [])
  {
  }

  /** A parent at the middle of the heights of its children is centred. */
  lemma HeightsCentre(es: seq<Entity>, kind: Kind, ys: seq<real>, p: Entity)
    requires Heights(es, kind, Some(p.key), ys) && (forall e :: e in es && ChildOf(e, p) ==> e.kind == kind)
    requires ys != [] ==> p.y == Center(ys)
    ensures CentredAt(es, p)
  {
    if e0 :| e0 in es && ChildOf(e0, p) {
      assert e0.y in ys;
      var top, low := ys[0], ys[|ys| - 1];
      assert top in ys && low in ys;
      var c :| c in es && c.kind == kind && c.parentKey == Some(p.key) && c.y == top;
      var d :| d in es && d.kind == kind && d.parentKey == Some(p.key) && d.y == low;
      forall e | e in es && ChildOf(e, p)
        ensures c.y <= e.y <= d.y
      {
        var i :| 0 <= i < |ys| && ys[i] == e.y;
      }
      assert Halfway(es, p, c, d);
    }
  }

  lemma VnrIsHalfway(vnr: Vnr, nodes: seq<Node>, routes: seq<Route>, latest: map<string, Runtime>, row: nat)
    ensures var v := GroupVnr(vnr, nodes, routes, latest);
            CentredAt(NodesPart(v.nodes, Some(KeyOf(OfVnr, vnr.name)), row), VnrEntity(v, row))
  {
    hide NodesPart, InFamilies, GroupNodes, CentredAt, Heights, NodesYs, KeyOf, NodesOf;
    var v, parentKey := GroupVnr(vnr, nodes, routes, latest), Some(KeyOf(OfVnr, vnr.name));
    var es, p := NodesPart(v.nodes, parentKey, row), VnrEntity(v, row);
    NodeHeights(v.nodes, parentKey, row);
    NodesFamilies(NodesOf(vnr, nodes), routes, latest, parentKey, row);
    forall e | e in es && ChildOf(e, p)
      ensures e.kind == OfNode
    {
      RouteIsNotOfVnr(e, vnr, NodesOf(vnr, nodes), routes);
    }
    NoYs(v.nodes, row);
    HeightsCentre(es, OfNode, NodesYs(v.nodes, row), p);
  }

  lemma NoYs(ns: seq<NodeModel>, row: nat)
    ensures NodesYs(ns, row) == [] <==> ns == []
  {
  }

  lemma RouteIsNotOfVnr(e: Entity, vnr: Vnr, nodes: seq<Node>, routes: seq<Route>)
    requires InFamilies(e, nodes, Some(KeyOf(OfVnr, vnr.name)), routes) && e.parentKey == Some(KeyOf(OfVnr, vnr.name))
    ensures e.kind == OfNode
  {
    hide KeyOf;
    var n :| n in nodes && InNodeFamily(e, n, Some(KeyOf(OfVnr, vnr.name)), routes);
    if e.kind == OfRoute { KeysTellKinds(OfNode, n.id, OfVnr, vnr.name); }
  }

  lemma VnrCentred(vnr: Vnr, nodes: seq<Node>, routes: seq<Route>, latest: map<string, Runtime>, row: nat)
    requires Unique(NodeId, nodes)
    ensures Centred(VnrPart(GroupVnr(vnr, nodes, routes, latest), row))
  {
    hide NodesPart, InFamilies, VnrY, GroupNodes, Centred, CentredAt;
    var own, parentKey := NodesOf(vnr, nodes), Some(KeyOf(OfVnr, vnr.name));
    UniqueOfFilter(NodeId, (n: Node) => n.vnrName == vnr.name, nodes);
    NodesCentred(own, routes, latest, parentKey, row);
    NodesFamilies(own, routes, latest, parentKey, row);
    VnrIsHalfway(vnr, nodes, routes, latest, row);
    var v := GroupVnr(vnr, nodes, routes, latest);
    forall x | x in NodesPart(v.nodes, parentKey, row)
      ensures !ChildOf(VnrEntity(v, row), x)
    {
      FamilyKinds(x, own, parentKey, routes);
      MasterIsNotKey(x.kind, x.entityId);
    }
    MasterIsNotKey(OfVnr, vnr.name);
    CentredWithParent(NodesPart(v.nodes, parentKey, row), VnrEntity(v, row));
  }

  lemma {:induction false} VnrsCentred(vnrs: seq<Vnr>, nodes: seq<Node>, routes: seq<Route>,
                                       latest: map<string, Runtime>)
    requires Unique(VnrId, vnrs) && Unique(NodeId, nodes)
    ensures Centred(VnrsPart(GroupVnrs(vnrs, nodes, routes, latest)))
    decreases |vnrs|
  {
    hide GroupVnrs, InVnrFamily, InVnrFamilies, VnrPart, Centred, Unrelated;
    if vnrs == [] {
      NothingCentred();
    } else {
      var last, all := |vnrs| - 1, GroupVnrs(vnrs, nodes, routes, latest);
      GroupVnrsSnoc(vnrs, nodes, routes, latest);
      var middle := VnrsRows(all[..last]);
      var a, b := VnrsPart(all[..last]), VnrPart(all[last], middle);
      VnrsCentred(vnrs[..last], nodes, routes, latest);
      VnrCentred(vnrs[last], nodes, routes, latest, middle);
      VnrsFamilies(vnrs[..last], nodes, routes, latest);
      VnrFamily(vnrs[last], nodes, routes, latest, middle);
      forall v | v in vnrs[..last]
        ensures v.name != vnrs[last].name
      {
        var i :| 0 <= i < last && vnrs[i] == v;
        assert VnrId(vnrs[i]) != VnrId(vnrs[last]);
      }
      VnrsUnrelated(vnrs[..last], vnrs[last], a, b, nodes, routes);
      CentredBoth(a, b);
    }
  }

  // ---------- The whole drawing ----------

  lemma {:induction false} VnrHeights(vs: seq<VnrModel>)
    ensures Heights(VnrsPart(vs), OfVnr, Some("master"), VnrsYs(vs))
    decreases |vs|
  {
    hide Heights, VnrPart, Within, Stacked, VnrY;
    if vs == [] {
      NoHeights(OfVnr, Some("master"));
    } else {
      var last := |vs| - 1;
      var middle := VnrsRows(vs[..last]);
      VnrHeights(vs[..last]);
      VnrsStacked(vs[..last]);
      VnrYWithin(vs[last], middle);
      OnlyVnr(vs[last], middle);
      HeightsOfMore(VnrsPart(vs[..last]), VnrPart(vs[last], middle), OfVnr, Some("master"), VnrsYs(vs[..last]),
                    VnrEntity(vs[last], middle), 0, middle);
    }
  }

  lemma OnlyVnr(v: VnrModel, row: nat)
    ensures VnrEntity(v, row) in VnrPart(v, row)
    ensures forall e :: e in VnrPart(v, row) && e.kind == OfVnr ==> e == VnrEntity(v, row)
  {
    hide VnrY, NodesPart, KeyOf, Within, Stacked;
    NodesStacked(v.nodes, Some(KeyOf(OfVnr, v.vnr.name)), row);
  }

  lemma ChildOfMaster(x: Entity, v: Vnr, nodes: seq<Node>, routes: seq<Route>)
    requires InVnrFamily(x, v, nodes, routes) && x.parentKey == Some("master")
    ensures x.kind == OfVnr
  {
    hide KeyOf, InVnrFamily;
    var n := FamilyMember(x, v, nodes, routes);
    if n.Some? {
      MasterIsNotKey(OfVnr, v.name);
      MasterIsNotKey(OfNode, n.value.id);
    }
  }

  lemma OrphanIsNotOfMaster(x: Entity, nodes: seq<Node>, routes: seq<Route>)
    requires InFamilies(x, nodes, None, routes)
    ensures x.parentKey != Some("master")
  {
    hide KeyOf;
    var n :| n in nodes && InNodeFamily(x, n, None, routes);
    MasterIsNotKey(OfNode, n.id);
  }

  lemma MasterIsHalfway(vnrs: seq<Vnr>, nodes: seq<Node>, routes: seq<Route>, latest: map<string, Runtime>,
                        rest: seq<Entity>)
    requires forall e :: e in rest ==> e.parentKey != Some("master")
    ensures var models := GroupVnrs(vnrs, nodes, routes, latest);
            CentredAt(VnrsPart(models) + rest, MasterEntity(models))
  {
    hide VnrsPart, GroupVnrs, VnrsYs, Heights, CentredAt, InVnrFamily;
    var models := GroupVnrs(vnrs, nodes, routes, latest);
    var es, p := VnrsPart(models), MasterEntity(models);
    VnrHeights(models);
    VnrsFamilies(vnrs, nodes, routes, latest);
    forall e | e in es && ChildOf(e, p)
      ensures e.kind == OfVnr
    {
      assert InVnrFamilies(e, vnrs, nodes, routes);
      var v :| v in vnrs && InVnrFamily(e, v, nodes, routes);
      ChildOfMaster(e, v, nodes, routes);
    }
    HeightsCentre(es, OfVnr, VnrsYs(models), p);
    CentredInMore(es, es + rest, p);
  }

  lemma StraysCentred(ab: seq<Entity>, c: seq<Entity>)
    requires Centred(ab) && (forall x :: x in ab ==> ProperParent(x.parentKey))
    requires forall y :: y in c ==> Keyed(y) && y.kind == OfRoute && y.parentKey.None?
    ensures Centred(ab + c)
  {
    hide Centred, ProperParent, Unrelated, Orderly;
    StraysOrderly(ab, c);
    NoChildrenCentred(c);
    CentredBoth(ab, c);
  }

  lemma LayoutCentred(vnrs: seq<Vnr>, nodes: seq<Node>, routes: seq<Route>, latest: map<string, Runtime>)
    requires Unique(VnrId, vnrs) && Unique(NodeId, nodes)
    ensures Centred(Layout(vnrs, nodes, routes, latest))
  {
    hide VnrsPart, NodesPart, GroupVnrs, GroupNodes, RouteEntities, OrphanNodes, OrphanRoutes, Centred, CentredAt;
    hide Unrelated;
    hide ProperParent, Unique, VnrsRows, NodesRows, VnrsYs, InVnrFamilies, InFamilies, Keyed;
    var models, orphans := GroupVnrs(vnrs, nodes, routes, latest), GroupNodes(OrphanNodes(vnrs, nodes), routes, latest);
    var strays := OrphanRoutes(nodes, routes);
    var row := VnrsRows(models);
    var row1 := row + NodesRows(orphans);
    var a, b, c := VnrsPart(models), NodesPart(orphans, None, row), RouteEntities(strays, None, row1);
    OrphanIdsUnique(vnrs, nodes);
    VnrsCentred(vnrs, nodes, routes, latest);
    NodesCentred(OrphanNodes(vnrs, nodes), routes, latest, None, row);
    VnrsFamilies(vnrs, nodes, routes, latest);
    NodesFamilies(OrphanNodes(vnrs, nodes), routes, latest, None, row);
    TreeUnrelated(vnrs, nodes, routes, a, b);
    CentredBoth(a, b);
    OrphanRouteEntities(nodes, routes, row1);
    StraysCentred(a + b, c);
    forall e: Entity | e in b + c
      ensures e.parentKey != Some("master")
    {
      if e in b { OrphanIsNotOfMaster(e, OrphanNodes(vnrs, nodes), routes); }
    }
    MasterIsHalfway(vnrs, nodes, routes, latest, b + c);
    assert a + (b + c) == a + b + c;
    CentredWithParent(a + b + c, MasterEntity(models));
  }

  /** Every entity with children lies halfway between its topmost and its lowest child. */
  lemma ParentsAreCentred(t: Topology, p: Entity, child: Entity)
    requires UniqueInputs(t)
    requires p in ModelOf(t).entities && child in ModelOf(t).entities && ChildOf(child, p)
    ensures exists c, d :: Halfway(ModelOf(t).entities, p, c, d)
  {
    hide ModelOf, Layout, Centred, SortVnrs, SortNodes, SortRoutes;
    SortedInputs(t);
    ModelHasLayout(t);
    LayoutCentred(SortVnrs(t.vnrs), SortNodes(t.nodes), SortRoutes(t.routes), LatestRuntime(t.runtime));
    CentredMember(LayoutOf(t), p);
    CentredInMore(LayoutOf(t), ModelOf(t).entities, p);
  }

  lemma CentredMember(es: seq<Entity>, p: Entity)
    requires Centred(es) && p in es
    ensures CentredAt(es, p)
  {
  }
}
