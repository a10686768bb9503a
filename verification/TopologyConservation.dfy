/** Every record becomes exactly one entity, with its own parent. */
module TopologyConservation {
  import opened Wrappers
  import opened Records
  import opened Ordering
  import opened TopologyLayout
  import opened TopologyGeometry

  // ---------- Keys ----------

  ghost predicate Keyed(e: Entity) {
    && e.key == KeyOf(e.kind, e.entityId) && e.x == ColumnX(e.kind)
    && (e.kind == Master ==> e.entityId == "master" && e.parentKey.None?)
  }

  lemma KeysTellKinds(a: Kind, i: string, b: Kind, j: string)
    requires KeyOf(a, i) == KeyOf(b, j)
    ensures a == b && (a == Master || i == j)
  {
    var s, t := KeyOf(a, i), KeyOf(b, j);
    assert s[0] == ['m', 'v', 'n', 'r'][KindNumber(a)] && t[0] == ['m', 'v', 'n', 'r'][KindNumber(b)];
    match a
    case Master =>
    case OfVnr => assert s[4..] == i && t[4..] == j;
    case OfNode => assert s[5..] == i && t[5..] == j;
    case OfRoute => assert s[6..] == i && t[6..] == j;
  }

  function KindNumber(k: Kind): (n: nat)
    ensures n < 4
  {
    match k
    case Master => 0
    case OfVnr => 1
    case OfNode => 2
    case OfRoute => 3
  }

  ghost predicate UniqueKeys(es: seq<Entity>) {
    forall i, j :: 0 <= i < j < |es| ==> es[i].key != es[j].key
  }

  ghost predicate NoCommonKey(a: seq<Entity>, b: seq<Entity>) {
    forall x, y :: x in a && y in b ==> x.key != y.key
  }

  lemma UniqueBoth(a: seq<Entity>, b: seq<Entity>)
    requires UniqueKeys(a) && UniqueKeys(b) && NoCommonKey(a, b)
    ensures UniqueKeys(a + b)
  {
    forall i, j | 0 <= i < j < |a + b|
      ensures (a + b)[i].key != (a + b)[j].key
    {
      if i < |a| <= j {
        assert a[i] in a && b[j - |a|] in b;
      }
    }
  }

  // ---------- Identifiers ----------

  function VnrId(v: Vnr): string { v.name }

  function NodeId(n: Node): string { n.id }

  function RouteId(r: Route): string { r.id }

  ghost predicate Unique<T>(id: T -> string, s: seq<T>) {
    forall i, j :: 0 <= i < j < |s| ==> id(s[i]) != id(s[j])
  }

  lemma UniqueTells<T>(id: T -> string, s: seq<T>, x: T, y: T)
    requires Unique(id, s) && x in s && y in s && id(x) == id(y)
    ensures x == y
  {
    var i :| 0 <= i < |s| && s[i] == x;
    var j :| 0 <= j < |s| && s[j] == y;
  }

  lemma TwiceInMultiset<T>(s: seq<T>, i: nat, j: nat)
    requires i < j < |s| && s[i] == s[j]
    ensures multiset(s)[s[i]] >= 2
  {
    var x := s[i];
    assert s == s[..j] + [s[j]] + s[j + 1..];
    assert s[..j][i] == x;
    assert x in multiset(s[..j]);
  }

  lemma {:induction false} UniqueMeansOnce<T>(id: T -> string, s: seq<T>, x: T)
    requires Unique(id, s)
    ensures multiset(s)[x] <= 1
    decreases |s|
  {
    if s != [] {
      var last := |s| - 1;
      UniqueMeansOnce(id, s[..last], x);
      assert s == s[..last] + [s[last]];
      if x in s[..last] {
        var i :| 0 <= i < last && s[i] == x;
        assert id(s[i]) != id(s[last]);
      }
    }
  }

  lemma UniqueOfPermutation<T>(id: T -> string, a: seq<T>, b: seq<T>)
    requires multiset(a) == multiset(b) && Unique(id, a)
    ensures Unique(id, b)
  {
    SameMembers(a, b);
    forall i, j | 0 <= i < j < |b|
      ensures id(b[i]) != id(b[j])
    {
      if id(b[i]) == id(b[j]) {
        assert b[i] in b && b[j] in b;
        UniqueTells(id, a, b[i], b[j]);
        TwiceInMultiset(b, i, j);
        UniqueMeansOnce(id, a, b[i]);
      }
    }
  }

  lemma {:induction false} UniqueOfFilter<T(!new)>(id: T -> string, keep: T -> bool, s: seq<T>)
    requires Unique(id, s)
    ensures Unique(id, Filter(keep, s))
    decreases |s|
  {
    if s != [] {
      var rest := Filter(keep, s[1..]);
      UniqueOfFilter(id, keep, s[1..]);
      forall i | 0 <= i < |rest|
        ensures id(s[0]) != id(rest[i])
      {
        assert rest[i] in rest && rest[i] in s[1..];
        var k :| 0 <= k < |s| - 1 && s[1..][k] == rest[i];
        assert id(s[0]) != id(s[k + 1]);
      }
    }
  }

  // ---------- Families ----------

  /** A node, or one of its routes. */
  ghost predicate InNodeFamily(e: Entity, node: Node, parentKey: Option<string>, routes: seq<Route>) {
    && Keyed(e)
    && (|| (e.kind == OfNode && e.entityId == node.id && e.text == node.name && e.parentKey == parentKey)
        || (e.kind == OfRoute && e.parentKey == Some(KeyOf(OfNode, node.id))
          && IsRouteOf(e.entityId, e.text, node, routes)))
  }

  ghost predicate IsRouteOf(id: string, text: string, node: Node, routes: seq<Route>) {
    exists r :: r in routes && r.nodeId == node.id && r.id == id && r.prefix == text
  }

  lemma RoutesUnique(routes: seq<Route>, parentKey: Option<string>, row: nat)
    requires Unique(RouteId, routes)
    ensures UniqueKeys(RouteEntities(routes, parentKey, row))
  {
    RoutesStacked(routes, parentKey, row);
    var es := RouteEntities(routes, parentKey, row);
    forall i, j | 0 <= i < j < |es|
      ensures es[i].key != es[j].key
    {
      assert RouteId(routes[i]) != RouteId(routes[j]);
      if es[i].key == es[j].key { KeysTellKinds(OfRoute, routes[i].id, OfRoute, routes[j].id); }
    }
  }

  lemma NodeFamily(node: Node, routes: seq<Route>, latest: map<string, Runtime>, parentKey: Option<string>, row: nat)
    ensures forall e :: e in NodePart(GroupNode(node, routes, latest), parentKey, row) ==>
            InNodeFamily(e, node, parentKey, routes)
  {
    var n := GroupNode(node, routes, latest);
    var es := RouteEntities(n.routes, Some(KeyOf(OfNode, node.id)), row);
    RoutesStacked(n.routes, Some(KeyOf(OfNode, node.id)), row);
    forall e | e in es
      ensures InNodeFamily(e, node, parentKey, routes)
    {
      var i :| 0 <= i < |es| && es[i] == e;
      assert n.routes[i] in n.routes;
    }
  }

  lemma NodeUnique(node: Node, routes: seq<Route>, latest: map<string, Runtime>, parentKey: Option<string>, row: nat)
    requires Unique(RouteId, routes)
    ensures UniqueKeys(NodePart(GroupNode(node, routes, latest), parentKey, row))
  {
    var n := GroupNode(node, routes, latest);
    var es := RouteEntities(n.routes, Some(KeyOf(OfNode, node.id)), row);
    UniqueOfFilter(RouteId, (r: Route) => r.nodeId == node.id, routes);
    assert Unique(RouteId, n.routes);
    RoutesUnique(n.routes, Some(KeyOf(OfNode, node.id)), row);
    RoutesStacked(n.routes, Some(KeyOf(OfNode, node.id)), row);
    var own := [NodeEntity(n, parentKey, row)];
    forall x, y | x in es && y in own
      ensures x.key != y.key
    {
      if x.key == y.key { KeysTellKinds(OfRoute, x.entityId, OfNode, y.entityId); }
    }
    UniqueBoth(es, own);
  }

  lemma FamiliesApart(x: Entity, n: Node, p: Option<string>, y: Entity, m: Node, q: Option<string>, routes: seq<Route>)
    requires InNodeFamily(x, n, p, routes) && InNodeFamily(y, m, q, routes)
    requires n.id != m.id && Unique(RouteId, routes)
    ensures x.key != y.key
  {
    if x.key == y.key {
      KeysTellKinds(x.kind, x.entityId, y.kind, y.entityId);
      if x.kind == OfRoute {
        var r :| r in routes && r.nodeId == n.id && r.id == x.entityId;
        var s :| s in routes && s.nodeId == m.id && s.id == y.entityId;
        UniqueTells(RouteId, routes, r, s);
      }
    }
  }

  /** An entity of one of the given nodes. */
  ghost predicate InFamilies(e: Entity, nodes: seq<Node>, parentKey: Option<string>, routes: seq<Route>) {
    exists n :: n in nodes && InNodeFamily(e, n, parentKey, routes)
  }

  lemma GroupNodesSnoc(nodes: seq<Node>, routes: seq<Route>, latest: map<string, Runtime>)
    requires nodes != []
    ensures var last, all := |nodes| - 1, GroupNodes(nodes, routes, latest);
            all[..last] == GroupNodes(nodes[..last], routes, latest)
              && all[last] == GroupNode(nodes[last], routes, latest)
  {
  }

  lemma {:induction false} NodesFamilies(nodes: seq<Node>, routes: seq<Route>, latest: map<string, Runtime>,
                                         parentKey: Option<string>, row: nat)
    ensures forall e :: e in NodesPart(GroupNodes(nodes, routes, latest), parentKey, row) ==>
            InFamilies(e, nodes, parentKey, routes)
    decreases |nodes|
  {
    hide GroupNodes, InNodeFamily, NodePart;
    if nodes != [] {
      var last := |nodes| - 1;
      GroupNodesSnoc(nodes, routes, latest);
      var all := GroupNodes(nodes, routes, latest);
      var middle := row + NodesRows(all[..last]);
      NodesFamilies(nodes[..last], routes, latest, parentKey, row);
      NodeFamily(nodes[last], routes, latest, parentKey, middle);
      forall e | e in NodesPart(all, parentKey, row)
        ensures InFamilies(e, nodes, parentKey, routes)
      {
        if e in NodePart(all[last], parentKey, middle) {
          assert nodes[last] in nodes;
        } else {
          assert InFamilies(e, nodes[..last], parentKey, routes);
        }
      }
    }
  }

  lemma {:induction false} NodesUnique(nodes: seq<Node>, routes: seq<Route>, latest: map<string, Runtime>,
                                       parentKey: Option<string>, row: nat)
    requires Unique(NodeId, nodes) && Unique(RouteId, routes)
    ensures UniqueKeys(NodesPart(GroupNodes(nodes, routes, latest), parentKey, row))
    decreases |nodes|
  {
    hide GroupNodes, InNodeFamily, NodePart, UniqueKeys;
    if nodes == [] {
      NoKeys();
    } else {
      var last := |nodes| - 1;
      GroupNodesSnoc(nodes, routes, latest);
      var all := GroupNodes(nodes, routes, latest);
      var middle := row + NodesRows(all[..last]);
      NodesUnique(nodes[..last], routes, latest, parentKey, row);
      NodeUnique(nodes[last], routes, latest, parentKey, middle);
      NodesFamilies(nodes[..last], routes, latest, parentKey, row);
      NodeFamily(nodes[last], routes, latest, parentKey, middle);
      var a, b := NodesPart(all[..last], parentKey, row), NodePart(all[last], parentKey, middle);
      forall x, y | x in a && y in b
        ensures x.key != y.key
      {
        var n :| n in nodes[..last] && InNodeFamily(x, n, parentKey, routes);
        var i :| 0 <= i < last && nodes[i] == n;
        assert NodeId(nodes[i]) != NodeId(nodes[last]);
        FamiliesApart(x, n, parentKey, y, nodes[last], parentKey, routes);
      }
      UniqueBoth(a, b);
    }
  }

  lemma NoKeys()
    ensures UniqueKeys([])
  {
  }

  /** A VNR, or an entity of one of its nodes. */
  ghost predicate InVnrFamily(e: Entity, vnr: Vnr, nodes: seq<Node>, routes: seq<Route>) {
    || (Keyed(e) && e.kind == OfVnr && e.entityId == e.text == vnr.name && e.parentKey == Some("master"))
    || InFamilies(e, NodesOf(vnr, nodes), Some(KeyOf(OfVnr, vnr.name)), routes)
  }

  function GroupVnr(vnr: Vnr, nodes: seq<Node>, routes: seq<Route>, latest: map<string, Runtime>): VnrModel {
    VnrModel(vnr, GroupNodes(NodesOf(vnr, nodes), routes, latest))
  }

  lemma VnrFamily(vnr: Vnr, nodes: seq<Node>, routes: seq<Route>, latest: map<string, Runtime>, row: nat)
    ensures forall e :: e in VnrPart(GroupVnr(vnr, nodes, routes, latest), row) ==> InVnrFamily(e, vnr, nodes, routes)
  {
    hide NodesPart, InFamilies, VnrY, NodesOf, GroupNodes;
    NodesFamilies(NodesOf(vnr, nodes), routes, latest, Some(KeyOf(OfVnr, vnr.name)), row);
  }

  lemma FamilyKinds(e: Entity, nodes: seq<Node>, parentKey: Option<string>, routes: seq<Route>)
    requires InFamilies(e, nodes, parentKey, routes)
    ensures Keyed(e) && (e.kind == OfNode || e.kind == OfRoute)
  {
  }

  lemma VnrUnique(vnr: Vnr, nodes: seq<Node>, routes: seq<Route>, latest: map<string, Runtime>, row: nat)
    requires Unique(NodeId, nodes) && Unique(RouteId, routes)
    ensures UniqueKeys(VnrPart(GroupVnr(vnr, nodes, routes, latest), row))
  {
    hide NodesPart, InFamilies, VnrY, GroupNodes, UniqueKeys;
    var own := NodesOf(vnr, nodes);
    var parentKey := Some(KeyOf(OfVnr, vnr.name));
    UniqueOfFilter(NodeId, (n: Node) => n.vnrName == vnr.name, nodes);
    assert Unique(NodeId, own);
    NodesUnique(own, routes, latest, parentKey, row);
    NodesFamilies(own, routes, latest, parentKey, row);
    var v := GroupVnr(vnr, nodes, routes, latest);
    var a, b := NodesPart(v.nodes, parentKey, row), [VnrEntity(v, row)];
    forall x, y | x in a && y in b
      ensures x.key != y.key
    {
      FamilyKinds(x, own, parentKey, routes);
      if x.key == y.key { KeysTellKinds(x.kind, x.entityId, OfVnr, v.vnr.name); }
    }
    OneKey(b[0]);
    UniqueBoth(a, b);
  }

  lemma OneKey(e: Entity)
    ensures UniqueKeys([e])
  {
  }

  lemma VnrFamiliesApart(x: Entity, v: Vnr, y: Entity, w: Vnr, nodes: seq<Node>, routes: seq<Route>)
    requires InVnrFamily(x, v, nodes, routes) && InVnrFamily(y, w, nodes, routes) && v.name != w.name
    requires Unique(NodeId, nodes) && Unique(RouteId, routes)
    ensures x.key != y.key
  {
    hide InNodeFamily;
    var p, q := Some(KeyOf(OfVnr, v.name)), Some(KeyOf(OfVnr, w.name));
    if InFamilies(x, NodesOf(v, nodes), p, routes) && InFamilies(y, NodesOf(w, nodes), q, routes) {
      var n :| n in NodesOf(v, nodes) && InNodeFamily(x, n, p, routes);
      var m :| m in NodesOf(w, nodes) && InNodeFamily(y, m, q, routes);
      if n.id == m.id { UniqueTells(NodeId, nodes, n, m); }
      FamiliesApart(x, n, p, y, m, q, routes);
    } else {
      if InFamilies(x, NodesOf(v, nodes), p, routes) { FamilyKinds(x, NodesOf(v, nodes), p, routes); }
      if InFamilies(y, NodesOf(w, nodes), q, routes) { FamilyKinds(y, NodesOf(w, nodes), q, routes); }
      if x.key == y.key { KeysTellKinds(x.kind, x.entityId, y.kind, y.entityId); }
    }
  }

  ghost predicate InVnrFamilies(e: Entity, vnrs: seq<Vnr>, nodes: seq<Node>, routes: seq<Route>) {
    exists v :: v in vnrs && InVnrFamily(e, v, nodes, routes)
  }

  lemma GroupVnrsSnoc(vnrs: seq<Vnr>, nodes: seq<Node>, routes: seq<Route>, latest: map<string, Runtime>)
    requires vnrs != []
    ensures var last, all := |vnrs| - 1, GroupVnrs(vnrs, nodes, routes, latest);
            && all[..last] == GroupVnrs(vnrs[..last], nodes, routes, latest)
            && all[last] == GroupVnr(vnrs[last], nodes, routes, latest)
  {
  }

  lemma {:induction false} VnrsFamilies(vnrs: seq<Vnr>, nodes: seq<Node>, routes: seq<Route>,
                                        latest: map<string, Runtime>)
    ensures forall e :: e in VnrsPart(GroupVnrs(vnrs, nodes, routes, latest)) ==> InVnrFamilies(e, vnrs, nodes, routes)
    decreases |vnrs|
  {
    hide GroupVnrs, InVnrFamily, VnrPart;
    if vnrs != [] {
      var last := |vnrs| - 1;
      GroupVnrsSnoc(vnrs, nodes, routes, latest);
      var all := GroupVnrs(vnrs, nodes, routes, latest);
      VnrsFamilies(vnrs[..last], nodes, routes, latest);
      VnrFamily(vnrs[last], nodes, routes, latest, VnrsRows(all[..last]));
      forall e | e in VnrsPart(all)
        ensures InVnrFamilies(e, vnrs, nodes, routes)
      {
        if e in VnrPart(all[last], VnrsRows(all[..last])) {
          assert vnrs[last] in vnrs;
        } else {
          assert InVnrFamilies(e, vnrs[..last], nodes, routes);
        }
      }
    }
  }

  lemma {:induction false} VnrsUnique(vnrs: seq<Vnr>, nodes: seq<Node>, routes: seq<Route>,
                                      latest: map<string, Runtime>)
    requires Unique(VnrId, vnrs) && Unique(NodeId, nodes) && Unique(RouteId, routes)
    ensures UniqueKeys(VnrsPart(GroupVnrs(vnrs, nodes, routes, latest)))
    decreases |vnrs|
  {
    hide GroupVnrs, InVnrFamily, VnrPart, UniqueKeys;
    if vnrs == [] {
      NoKeys();
    } else {
      var last := |vnrs| - 1;
      GroupVnrsSnoc(vnrs, nodes, routes, latest);
      var all := GroupVnrs(vnrs, nodes, routes, latest);
      var middle := VnrsRows(all[..last]);
      VnrsUnique(vnrs[..last], nodes, routes, latest);
      VnrUnique(vnrs[last], nodes, routes, latest, middle);
      VnrsFamilies(vnrs[..last], nodes, routes, latest);
      VnrFamily(vnrs[last], nodes, routes, latest, middle);
      var a, b := VnrsPart(all[..last]), VnrPart(all[last], middle);
      forall x, y | x in a && y in b
        ensures x.key != y.key
      {
        var v :| v in vnrs[..last] && InVnrFamily(x, v, nodes, routes);
        var i :| 0 <= i < last && vnrs[i] == v;
        assert VnrId(vnrs[i]) != VnrId(vnrs[last]);
        VnrFamiliesApart(x, v, y, vnrs[last], nodes, routes);
      }
      UniqueBoth(a, b);
    }
  }
}
