/** The drawn model: boxes do not overlap and edges between two columns do not cross. */
module TopologyReadability {
  import opened Wrappers
  import opened Records
  import opened TopologyLayout
  import opened TopologyGeometry
  import opened TopologyConservation
  import opened TopologyProofs

  // ---------- Boxes ----------

  const BOX_HEIGHT: real := 48.0

  function BoxWidth(kind: Kind): int {
    match kind
    case Master => 168
    case OfVnr => 190
    case OfNode => 206
    case OfRoute => 190
  }

  /** A point lies in the box drawn for an entity, which is centred on the entity's height. */
  predicate InBox(e: Entity, x: real, y: real) {
    && e.x as real <= x <= (e.x + BoxWidth(e.kind)) as real
    && e.y - BOX_HEIGHT / 2.0 <= y <= e.y + BOX_HEIGHT / 2.0
  }

  lemma StackedPair(es: seq<Entity>, e: Entity, f: Entity)
    requires Stacked(es) && e in es && f in es && e != f && e.kind == f.kind
    ensures e.y + ROW_GAP <= f.y || f.y + ROW_GAP <= e.y
  {
    var i :| 0 <= i < |es| && es[i] == e;
    var j :| 0 <= j < |es| && es[j] == f;
  }

  lemma ModelIsStacked(t: Topology, e: Entity, f: Entity)
    requires e in ModelOf(t).entities && f in ModelOf(t).entities && e != f && e.kind == f.kind
    ensures e.y + 72.0 <= f.y || f.y + 72.0 <= e.y
  {
    hide ModelOf, Stacked, Entities;
    ModelHasLayout(t);
    var vnrs, nodes, routes := SortVnrs(t.vnrs), SortNodes(t.nodes), SortRoutes(t.routes);
    var latest := LatestRuntime(t.runtime);
    EntitiesStacked(GroupVnrs(vnrs, nodes, routes, latest), GroupNodes(OrphanNodes(vnrs, nodes), routes, latest),
                    OrphanRoutes(nodes, routes));
    StackedPair(LayoutOf(t), e, f);
  }

  /** No two boxes of the drawing have a point in common. */
  lemma BoxesDoNotOverlap(t: Topology, e: Entity, f: Entity, x: real, y: real)
    requires UniqueInputs(t) && e in ModelOf(t).entities && f in ModelOf(t).entities && e != f
    requires InBox(e, x, y)
    ensures !InBox(f, x, y)
  {
    hide ModelOf, UniqueKeys, AllDrawn, UniqueInputs;
    EveryRecordOnce(t);
    assert StandsForRecord(e, t.vnrs, t.nodes, t.routes) && StandsForRecord(f, t.vnrs, t.nodes, t.routes);
    if e.kind == f.kind { ModelIsStacked(t, e, f); }
  }

  // ---------- Order of children ----------

  predicate ChildOf(c: Entity, p: Entity) {
    c.parentKey == Some(p.key)
  }

  /** If `p` lies above `q`, then its child `c` lies above the child `d` of `q`. */
  predicate InOrder(p: Entity, c: Entity, q: Entity, d: Entity) {
    ChildOf(c, p) && ChildOf(d, q) && p.kind == q.kind && p.y < q.y ==> c.y + ROW_GAP <= d.y
  }

  /** Children of different parents of one kind are stacked as their parents are. */
  ghost predicate Orderly(es: seq<Entity>) {
    forall p, c, q, d :: p in es && c in es && q in es && d in es ==> InOrder(p, c, q, d)
  }

  ghost predicate Unrelated(a: seq<Entity>, b: seq<Entity>) {
    forall x, y :: x in a && y in b ==> !ChildOf(x, y) && !ChildOf(y, x)
  }

  lemma MemberWithin(es: seq<Entity>, low: nat, high: nat, e: Entity)
    requires Within(es, low, high) && e in es
    ensures RowY(low) <= e.y <= RowY(high) - ROW_GAP
  {
    var i :| 0 <= i < |es| && es[i] == e;
  }

  /** Parent and child lie on the same side of a cut between unrelated stretches. */
  lemma SameSide(a: seq<Entity>, b: seq<Entity>, p: Entity, c: Entity)
    requires Unrelated(a, b) && p in a + b && c in a + b && ChildOf(c, p)
    ensures (p in a && c in a) || (p in b && c in b)
  {
  }

  lemma OrderAcross(a: seq<Entity>, b: seq<Entity>, low: nat, middle: nat, high: nat, p: Entity, c: Entity, q: Entity,
                    d: Entity)
    requires Orderly(a) && Orderly(b) && Within(a, low, middle) && Within(b, middle, high)
    requires (p in a && c in a) || (p in b && c in b)
    requires (q in a && d in a) || (q in b && d in b)
    ensures InOrder(p, c, q, d)
  {
    hide Within;
    if p in a && c in a && q in b && d in b {
      MemberWithin(a, low, middle, c);
      MemberWithin(b, middle, high, d);
    } else if p in b && c in b && q in a && d in a {
      MemberWithin(b, middle, high, p);
      MemberWithin(a, low, middle, q);
    }
  }

  lemma OrderlyBoth(a: seq<Entity>, b: seq<Entity>, low: nat, middle: nat, high: nat)
    requires Orderly(a) && Orderly(b) && Unrelated(a, b) && Within(a, low, middle) && Within(b, middle, high)
    ensures Orderly(a + b)
  {
    hide Within, Orderly, Unrelated, ChildOf;
    var es := a + b;
    forall p, c, q, d | p in es && c in es && q in es && d in es
      ensures InOrder(p, c, q, d)
    {
      if ChildOf(c, p) && ChildOf(d, q) {
        SameSide(a, b, p, c);
        SameSide(a, b, q, d);
        OrderAcross(a, b, low, middle, high, p, c, q, d);
      }
    }
    OrderlyFromPairs(es);
  }

  lemma OrderlyFromPairs(es: seq<Entity>)
    requires forall p, c, q, d :: p in es && c in es && q in es && d in es ==> InOrder(p, c, q, d)
    ensures Orderly(es)
  {
  }

  /** An entity that is the only one of its kind and has no parent here does not disturb the order. */
  lemma OrderlyWithOne(a: seq<Entity>, e: Entity)
    requires Orderly(a) && (forall x :: x in a ==> x.kind != e.kind && !ChildOf(e, x)) && !ChildOf(e, e)
    ensures Orderly(a + [e])
  {
    hide Orderly;
    var es := a + [e];
    forall p, c, q, d | p in es && c in es && q in es && d in es
      ensures InOrder(p, c, q, d)
    {
      if ChildOf(c, p) && ChildOf(d, q) && p.kind == q.kind && p.y < q.y {
        assert c in a && d in a;
        assert p in a && q in a;
        OrderIn(a, p, c, q, d);
      }
    }
    OrderlyFromPairs(es);
  }

  lemma OrderIn(a: seq<Entity>, p: Entity, c: Entity, q: Entity, d: Entity)
    requires Orderly(a) && p in a && c in a && q in a && d in a
    ensures InOrder(p, c, q, d)
  {
  }

  // ---------- Kinship ----------

  /** The parent keys that occur in the family of a node. */
  lemma NodeFamilyKin(x: Entity, n: Node, p: Option<string>, y: Entity, m: Node, q: Option<string>, routes: seq<Route>)
    requires InNodeFamily(x, n, p, routes) && InNodeFamily(y, m, q, routes) && n.id != m.id
    requires p.None? || exists name :: p == Some(KeyOf(OfVnr, name))
    ensures !ChildOf(x, y)
  {
    if ChildOf(x, y) {
      if x.kind == OfRoute {
        KeysTellKinds(OfNode, n.id, y.kind, y.entityId);
      } else {
        var name :| p == Some(KeyOf(OfVnr, name));
        KeysTellKinds(OfVnr, name, y.kind, y.entityId);
      }
    }
  }

  lemma NodeOrderly(node: Node, routes: seq<Route>, latest: map<string, Runtime>, parentKey: Option<string>, row: nat)
    requires parentKey.None? || exists name :: parentKey == Some(KeyOf(OfVnr, name))
    ensures Orderly(NodePart(GroupNode(node, routes, latest), parentKey, row))
  {
    hide NodePart, InNodeFamily, Orderly, NodeEntity;
    var n := GroupNode(node, routes, latest);
    var es, own := NodePart(n, parentKey, row), NodeEntity(n, parentKey, row);
    NodeFamily(node, routes, latest, parentKey, row);
    NodeIsLone(node, routes, latest, parentKey, row);
    forall p, c, q, d | p in es && c in es && q in es && d in es
      ensures InOrder(p, c, q, d)
    {
      if ChildOf(c, p) && ChildOf(d, q) {
        ParentIsNode(c, p, node, parentKey, routes);
        ParentIsNode(d, q, node, parentKey, routes);
        assert p == own && q == own;
      }
    }
    OrderlyFromPairs(es);
  }

  lemma NodeIsLone(node: Node, routes: seq<Route>, latest: map<string, Runtime>, parentKey: Option<string>, row: nat)
    ensures var n := GroupNode(node, routes, latest);
            forall e :: e in NodePart(n, parentKey, row) && e.kind == OfNode ==> e == NodeEntity(n, parentKey, row)
  {
    var n := GroupNode(node, routes, latest);
    RoutesStacked(n.routes, Some(KeyOf(OfNode, node.id)), row);
  }

  lemma ParentIsNode(c: Entity, p: Entity, node: Node, parentKey: Option<string>, routes: seq<Route>)
    requires InNodeFamily(p, node, parentKey, routes) && InNodeFamily(c, node, parentKey, routes) && ChildOf(c, p)
    requires parentKey.None? || exists name :: parentKey == Some(KeyOf(OfVnr, name))
    ensures p.kind == OfNode
  {
    if c.kind == OfRoute {
      KeysTellKinds(OfNode, node.id, p.kind, p.entityId);
    } else {
      var name :| parentKey == Some(KeyOf(OfVnr, name));
      KeysTellKinds(OfVnr, name, p.kind, p.entityId);
    }
  }

  lemma {:induction false} NodesOrderly(nodes: seq<Node>, routes: seq<Route>, latest: map<string, Runtime>,
                                        parentKey: Option<string>, row: nat)
    requires Unique(NodeId, nodes)
    requires parentKey.None? || exists name :: parentKey == Some(KeyOf(OfVnr, name))
    ensures Orderly(NodesPart(GroupNodes(nodes, routes, latest), parentKey, row))
    decreases |nodes|
  {
    hide GroupNodes, InNodeFamily, NodePart, Orderly, KeyOf, Within;
    if nodes == [] {
      NothingOrderly();
    } else {
      var last, all := |nodes| - 1, GroupNodes(nodes, routes, latest);
      GroupNodesSnoc(nodes, routes, latest);
      var middle := row + NodesRows(all[..last]);
      var a, b := NodesPart(all[..last], parentKey, row), NodePart(all[last], parentKey, middle);
      NodesOrderly(nodes[..last], routes, latest, parentKey, row);
      NodeOrderly(nodes[last], routes, latest, parentKey, middle);
      NodesFamilies(nodes[..last], routes, latest, parentKey, row);
      NodeFamily(nodes[last], routes, latest, parentKey, middle);
      forall x, y | x in a && y in b
        ensures !ChildOf(x, y) && !ChildOf(y, x)
      {
        assert InFamilies(x, nodes[..last], parentKey, routes);
        var n :| n in nodes[..last] && InNodeFamily(x, n, parentKey, routes);
        var i :| 0 <= i < last && nodes[i] == n;
        assert NodeId(nodes[i]) != NodeId(nodes[last]);
        NodeFamilyKin(x, n, parentKey, y, nodes[last], parentKey, routes);
        NodeFamilyKin(y, nodes[last], parentKey, x, n, parentKey, routes);
      }
      NodesStacked(all[..last], parentKey, row);
      NodeStacked(all[last], parentKey, middle);
      OrderlyBoth(a, b, row, middle, row + NodesRows(all));
    }
  }

  lemma NothingOrderly()
    ensures Orderly([])
  {
  }

  lemma VnrOrderly(vnr: Vnr, nodes: seq<Node>, routes: seq<Route>, latest: map<string, Runtime>, row: nat)
    requires Unique(NodeId, nodes)
    ensures Orderly(VnrPart(GroupVnr(vnr, nodes, routes, latest), row))
  {
    hide NodesPart, InFamilies, VnrY, GroupNodes, Orderly;
    var own := NodesOf(vnr, nodes);
    var parentKey := Some(KeyOf(OfVnr, vnr.name));
    UniqueOfFilter(NodeId, (n: Node) => n.vnrName == vnr.name, nodes);
    NodesOrderly(own, routes, latest, parentKey, row);
    NodesFamilies(own, routes, latest, parentKey, row);
    var v := GroupVnr(vnr, nodes, routes, latest);
    var e := VnrEntity(v, row);
    forall x | x in NodesPart(v.nodes, parentKey, row)
      ensures x.kind != e.kind && !ChildOf(e, x)
    {
      FamilyKinds(x, own, parentKey, routes);
      MasterIsNotKey(x.kind, x.entityId);
    }
    MasterIsNotKey(OfVnr, vnr.name);
    OrderlyWithOne(NodesPart(v.nodes, parentKey, row), e);
  }

  lemma MasterIsNotKey(kind: Kind, id: string)
    requires kind != Master
    ensures KeyOf(kind, id) != "master"
  {
    if KeyOf(kind, id) == "master" { KeysTellKinds(kind, id, Master, "master"); }
  }

  lemma FamilyMember(e: Entity, v: Vnr, nodes: seq<Node>, routes: seq<Route>) returns (n: Option<Node>)
    requires InVnrFamily(e, v, nodes, routes)
    ensures match n
            case None => Keyed(e) && e.kind == OfVnr && e.entityId == v.name && e.parentKey == Some("master")
            case Some(node) =>
              && node in nodes && node.vnrName == v.name
              && InNodeFamily(e, node, Some(KeyOf(OfVnr, v.name)), routes)
  {
    hide InNodeFamily;
    var p := Some(KeyOf(OfVnr, v.name));
    if InFamilies(e, NodesOf(v, nodes), p, routes) {
      var node :| node in NodesOf(v, nodes) && InNodeFamily(e, node, p, routes);
      n := Some(node);
    } else {
      n := None;
    }
  }

  lemma VnrKin(x: Entity, v: Vnr, y: Entity, w: Vnr, nodes: seq<Node>, routes: seq<Route>)
    requires InVnrFamily(x, v, nodes, routes) && InVnrFamily(y, w, nodes, routes) && v.name != w.name
            && Unique(NodeId, nodes)
    ensures !ChildOf(x, y)
  {
    hide InNodeFamily, InVnrFamily;
    var n := FamilyMember(x, v, nodes, routes);
    var m := FamilyMember(y, w, nodes, routes);
    if n.Some? && m.Some? {
      if n.value.id == m.value.id { UniqueTells(NodeId, nodes, n.value, m.value); }
      NodeFamilyKin(x, n.value, Some(KeyOf(OfVnr, v.name)), y, m.value, Some(KeyOf(OfVnr, w.name)), routes);
    } else if n.Some? {
      NodeIsNotChildOfVnr(x, n.value, v.name, y, w.name, routes);
    } else {
      KeyedOfMember(y, w, m, routes);
      MasterIsNotKey(y.kind, y.entityId);
    }
  }

  lemma KeyedOfMember(y: Entity, w: Vnr, m: Option<Node>, routes: seq<Route>)
    requires match m
             case None => Keyed(y) && y.kind == OfVnr
             case Some(node) => InNodeFamily(y, node, Some(KeyOf(OfVnr, w.name)), routes)
    ensures Keyed(y) && y.kind != Master
  {
  }

  lemma NodeIsNotChildOfVnr(x: Entity, n: Node, name: string, y: Entity, other: string, routes: seq<Route>)
    requires InNodeFamily(x, n, Some(KeyOf(OfVnr, name)), routes) && name != other
    requires Keyed(y) && y.kind == OfVnr && y.entityId == other
    ensures !ChildOf(x, y)
  {
    if ChildOf(x, y) {
      if x.kind == OfRoute {
        KeysTellKinds(OfNode, n.id, OfVnr, other);
      } else {
        KeysTellKinds(OfVnr, name, OfVnr, other);
      }
    }
  }

  lemma VnrsUnrelated(vnrs: seq<Vnr>, vnr: Vnr, a: seq<Entity>, b: seq<Entity>, nodes: seq<Node>, routes: seq<Route>)
    requires Unique(NodeId, nodes) && (forall v :: v in vnrs ==> v.name != vnr.name)
    requires forall x :: x in a ==> InVnrFamilies(x, vnrs, nodes, routes)
    requires forall y :: y in b ==> InVnrFamily(y, vnr, nodes, routes)
    ensures Unrelated(a, b)
  {
    hide InVnrFamily, ChildOf, Unique;
    forall x, y | x in a && y in b
      ensures !ChildOf(x, y) && !ChildOf(y, x)
    {
      var v :| v in vnrs && InVnrFamily(x, v, nodes, routes);
      VnrKin(x, v, y, vnr, nodes, routes);
      VnrKin(y, vnr, x, v, nodes, routes);
    }
  }

  lemma {:induction false} VnrsOrderly(vnrs: seq<Vnr>, nodes: seq<Node>, routes: seq<Route>,
                                       latest: map<string, Runtime>)
    requires Unique(VnrId, vnrs) && Unique(NodeId, nodes)
    ensures Orderly(VnrsPart(GroupVnrs(vnrs, nodes, routes, latest)))
    decreases |vnrs|
  {
    hide GroupVnrs, InVnrFamily, InVnrFamilies, VnrPart, Orderly, Within, Unrelated, Stacked;
    if vnrs == [] {
      NothingOrderly();
    } else {
      var last, all := |vnrs| - 1, GroupVnrs(vnrs, nodes, routes, latest);
      GroupVnrsSnoc(vnrs, nodes, routes, latest);
      var middle := VnrsRows(all[..last]);
      var a, b := VnrsPart(all[..last]), VnrPart(all[last], middle);
      VnrsOrderly(vnrs[..last], nodes, routes, latest);
      VnrOrderly(vnrs[last], nodes, routes, latest, middle);
      VnrsFamilies(vnrs[..last], nodes, routes, latest);
      VnrFamily(vnrs[last], nodes, routes, latest, middle);
      forall v | v in vnrs[..last]
        ensures v.name != vnrs[last].name
      {
        var i :| 0 <= i < last && vnrs[i] == v;
        assert VnrId(vnrs[i]) != VnrId(vnrs[last]);
      }
      VnrsUnrelated(vnrs[..last], vnrs[last], a, b, nodes, routes);
      VnrsStacked(all[..last]);
      VnrStacked(all[last], middle);
      OrderlyBoth(a, b, 0, middle, VnrsRows(all));
    }
  }

  // ---------- The whole drawing ----------

  /** An entity of a VNR and an entity of a node without VNR are not parent and child. */
  lemma OrphanKin(x: Entity, v: Vnr, y: Entity, m: Node, vnrs: seq<Vnr>, nodes: seq<Node>, routes: seq<Route>)
    requires v in vnrs && InVnrFamily(x, v, nodes, routes)
    requires m in OrphanNodes(vnrs, nodes) && InNodeFamily(y, m, None, routes) && Unique(NodeId, nodes)
    ensures !ChildOf(x, y) && !ChildOf(y, x)
  {
    hide InVnrFamily;
    var name := v.name;
    var p := Some(KeyOf(OfVnr, name));
    var n := FamilyMember(x, v, nodes, routes);
    if n.Some? {
      assert HasVnr(vnrs, n.value.vnrName);
      if n.value.id == m.id { UniqueTells(NodeId, nodes, n.value, m); }
      NodeFamilyKin(x, n.value, p, y, m, None, routes);
      NodeFamilyKin(y, m, None, x, n.value, p, routes);
    } else {
      MasterIsNotKey(y.kind, y.entityId);
      if ChildOf(y, x) { KeysTellKinds(OfNode, m.id, OfVnr, name); }
    }
  }

  /** Only the master, VNRs and nodes are parents. */
  ghost predicate ProperParent(parentKey: Option<string>) {
    parentKey.None? || parentKey == Some("master")
    || exists kind, id :: kind in {OfVnr, OfNode} && parentKey == Some(KeyOf(kind, id))
  }

  lemma FamilyParents(e: Entity, v: Vnr, nodes: seq<Node>, routes: seq<Route>)
    requires InVnrFamily(e, v, nodes, routes)
    ensures ProperParent(e.parentKey)
  {
    hide KeyOf;
    var n := FamilyMember(e, v, nodes, routes);
    if n.Some? {
      assert e.parentKey == Some(KeyOf(OfVnr, v.name)) || e.parentKey == Some(KeyOf(OfNode, n.value.id));
    }
  }

  lemma OrphanParents(e: Entity, nodes: seq<Node>, routes: seq<Route>)
    requires InFamilies(e, nodes, None, routes)
    ensures ProperParent(e.parentKey)
  {
    hide KeyOf;
    var n :| n in nodes && InNodeFamily(e, n, None, routes);
    assert e.parentKey.None? || e.parentKey == Some(KeyOf(OfNode, n.id));
  }

  lemma RouteIsNoParent(x: Entity, y: Entity)
    requires ProperParent(x.parentKey) && Keyed(y) && y.kind == OfRoute
    ensures !ChildOf(x, y)
  {
    if ChildOf(x, y) {
      if x.parentKey == Some("master") {
        MasterIsNotKey(OfRoute, y.entityId);
      } else {
        var kind, id :| kind in {OfVnr, OfNode} && x.parentKey == Some(KeyOf(kind, id));
        KeysTellKinds(kind, id, OfRoute, y.entityId);
      }
    }
  }

  lemma TreeUnrelated(vnrs: seq<Vnr>, nodes: seq<Node>, routes: seq<Route>, a: seq<Entity>, b: seq<Entity>)
    requires Unique(NodeId, nodes)
    requires forall x :: x in a ==> InVnrFamilies(x, vnrs, nodes, routes)
    requires forall y :: y in b ==> InFamilies(y, OrphanNodes(vnrs, nodes), None, routes)
    ensures Unrelated(a, b) && (forall x :: x in a + b ==> ProperParent(x.parentKey))
  {
    hide InVnrFamily, InNodeFamily, ChildOf, Unique, OrphanNodes, ProperParent;
    forall x | x in a
      ensures ProperParent(x.parentKey)
    {
      var v :| v in vnrs && InVnrFamily(x, v, nodes, routes);
      FamilyParents(x, v, nodes, routes);
    }
    forall y | y in b
      ensures ProperParent(y.parentKey)
    {
      OrphanParents(y, OrphanNodes(vnrs, nodes), routes);
    }
    forall x, y | x in a && y in b
      ensures !ChildOf(x, y) && !ChildOf(y, x)
    {
      var v :| v in vnrs && InVnrFamily(x, v, nodes, routes);
      var m :| m in OrphanNodes(vnrs, nodes) && InNodeFamily(y, m, None, routes);
      OrphanKin(x, v, y, m, vnrs, nodes, routes);
    }
  }

  lemma StraysOrderly(ab: seq<Entity>, c: seq<Entity>)
    requires forall x :: x in ab ==> ProperParent(x.parentKey)
    requires forall y :: y in c ==> Keyed(y) && y.kind == OfRoute && y.parentKey.None?
    ensures Unrelated(ab, c) && Orderly(c)
  {
    hide ProperParent, Keyed;
    forall x, y | x in ab && y in c
      ensures !ChildOf(x, y)
    {
      RouteIsNoParent(x, y);
    }
  }

  lemma TreeOrderly(vnrs: seq<Vnr>, nodes: seq<Node>, routes: seq<Route>, latest: map<string, Runtime>)
    requires Unique(VnrId, vnrs) && Unique(NodeId, nodes)
    ensures var models := GroupVnrs(vnrs, nodes, routes, latest);
            var orphans := GroupNodes(OrphanNodes(vnrs, nodes), routes, latest);
            var row := VnrsRows(models);
            var ab := VnrsPart(models) + NodesPart(orphans, None, row);
            && Orderly(ab) && Within(ab, 0, row + NodesRows(orphans))
            && (forall x :: x in ab ==> ProperParent(x.parentKey))
  {
    hide VnrsPart, NodesPart, GroupVnrs, GroupNodes, VnrsRows, NodesRows, Orderly, Within, Stacked, OrphanNodes;
    hide Unrelated;
    hide ProperParent, Unique, InVnrFamilies, InFamilies;
    var models, orphans := GroupVnrs(vnrs, nodes, routes, latest), GroupNodes(OrphanNodes(vnrs, nodes), routes, latest);
    var row := VnrsRows(models);
    var a, b := VnrsPart(models), NodesPart(orphans, None, row);
    OrphanIdsUnique(vnrs, nodes);
    VnrsOrderly(vnrs, nodes, routes, latest);
    NodesOrderly(OrphanNodes(vnrs, nodes), routes, latest, None, row);
    VnrsFamilies(vnrs, nodes, routes, latest);
    NodesFamilies(OrphanNodes(vnrs, nodes), routes, latest, None, row);
    TreeUnrelated(vnrs, nodes, routes, a, b);
    VnrsStacked(models);
    NodesStacked(orphans, None, row);
    OrderlyBoth(a, b, 0, row, row + NodesRows(orphans));
    StackedBoth(a, b, 0, row, row + NodesRows(orphans));
  }

  lemma OrphanIdsUnique(vnrs: seq<Vnr>, nodes: seq<Node>)
    requires Unique(NodeId, nodes)
    ensures Unique(NodeId, OrphanNodes(vnrs, nodes))
  {
    UniqueOfFilter(NodeId, (n: Node) => !HasVnr(vnrs, n.vnrName), nodes);
  }

  lemma LayoutOrderly(vnrs: seq<Vnr>, nodes: seq<Node>, routes: seq<Route>, latest: map<string, Runtime>)
    requires Unique(VnrId, vnrs) && Unique(NodeId, nodes)
    ensures Orderly(Layout(vnrs, nodes, routes, latest))
  {
    hide VnrsPart, NodesPart, GroupVnrs, GroupNodes, RouteEntities, OrphanNodes, OrphanRoutes, Orderly, Within;
    hide Stacked, Unrelated;
    hide InTree, ProperParent, Unique, VnrsRows, NodesRows, VnrsYs;
    var models, orphans := GroupVnrs(vnrs, nodes, routes, latest), GroupNodes(OrphanNodes(vnrs, nodes), routes, latest);
    var strays := OrphanRoutes(nodes, routes);
    var row := VnrsRows(models);
    var row1 := row + NodesRows(orphans);
    var ab, c := VnrsPart(models) + NodesPart(orphans, None, row), RouteEntities(strays, None, row1);
    var master := MasterEntity(models);
    TreeOrderly(vnrs, nodes, routes, latest);
    OrphanRouteEntities(nodes, routes, row1);
    StraysOrderly(ab, c);
    RoutesStacked(strays, None, row1);
    OrderlyBoth(ab, c, 0, row1, row1 + |strays|);
    TreeParts(vnrs, nodes, routes, latest, row);
    forall x: Entity | x in ab + c
      ensures x.kind != master.kind
    {
      if x in ab { InTreeKinds(x, nodes, routes); }
    }
    OrderlyWithOne(ab + c, master);
  }

  /** Of two parents in one column, the children of the upper one lie above the children of the lower one. */
  lemma ChildrenFollowParents(t: Topology, p: Entity, c: Entity, q: Entity, d: Entity)
    requires UniqueInputs(t)
    requires var es := ModelOf(t).entities; p in es && c in es && q in es && d in es
    requires ChildOf(c, p) && ChildOf(d, q) && p.kind == q.kind && p.y < q.y
    ensures c.y + 72.0 <= d.y
  {
    hide ModelOf, Layout, Orderly, SortVnrs, SortNodes, SortRoutes;
    SortedInputs(t);
    ModelHasLayout(t);
    LayoutOrderly(SortVnrs(t.vnrs), SortNodes(t.nodes), SortRoutes(t.routes), LatestRuntime(t.runtime));
    OrderIn(LayoutOf(t), p, c, q, d);
  }
}
