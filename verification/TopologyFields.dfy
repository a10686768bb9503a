/** The topology model on the fields that are shown: names, keys, columns, rows, order. */
module TopologyFields {
  import opened Wrappers
  import opened Records
  import opened Ordering
  import opened TopologyLayout
  import opened TopologyGeometry
  import opened TopologyConservation
  import opened TopologyProofs
  import opened TopologyDeterminism
  import opened TopologyRuntime
  import opened TopologyGroups

  // ---------- Texts ----------

  /** `a` is a proper prefix of `b`, or smaller where the two differ first. */
  ghost predicate IsBelow(a: string, b: string) {
    exists k: nat :: DiffersBelow(a, b, k)
  }

  ghost predicate DiffersBelow(a: string, b: string, k: nat) {
    && k <= |a| && k < |b| && a[..k] == b[..k] && (k == |a| || a[k] < b[k])
  }

  lemma {:induction false} CompareTextMeans(a: string, b: string)
    ensures CompareText(a, b) < 0 <==> IsBelow(a, b)
    decreases |a|
  {
    if a == [] || b == [] || a[0] != b[0] {
      forall k: nat
        ensures DiffersBelow(a, b, k) <==> DiffersBelow(a, b, 0) && k == 0
      {
        if k > 0 && k <= |a| && k < |b| { assert a[..k][0] == a[0] && b[..k][0] == b[0]; }
      }
      assert a[..0] == b[..0];
      if DiffersBelow(a, b, 0) { assert IsBelow(a, b); }
    } else {
      CompareTextMeans(a[1..], b[1..]);
      forall k: nat
        ensures DiffersBelow(a, b, k + 1) <==> DiffersBelow(a[1..], b[1..], k)
      {
        if k + 1 <= |a| && k + 1 < |b| {
          assert a[..k + 1] == [a[0]] + a[1..][..k] && b[..k + 1] == [b[0]] + b[1..][..k];
        }
      }
      assert !DiffersBelow(a, b, 0);
      if k: nat :| DiffersBelow(a, b, k) { assert DiffersBelow(a[1..], b[1..], k - 1); }
      if k: nat :| DiffersBelow(a[1..], b[1..], k) { assert DiffersBelow(a, b, k + 1); }
    }
  }

  /** The first texts decide, and the second ones where the first are equal. */
  ghost predicate NotAbove(a: string, b: string, c: string, d: string) {
    IsBelow(a, c) || (a == c && (b == d || IsBelow(b, d)))
  }

  lemma CompareMeans(x: Key, y: Key)
    ensures Compare(x, y) <= 0 <==> NotAbove(x.0, x.1, y.0, y.1)
  {
    hide IsBelow, CompareText;
    CompareTextMeans(x.0, y.0);
    CompareTextMeans(x.1, y.1);
    CompareTextOrder(x.0, y.0);
    CompareTextOrder(x.1, y.1);
  }

  // ---------- Order ----------

  lemma ModelKeepsTime(t: Topology)
    ensures ModelOf(t).generation == t.generation && ModelOf(t).observedAt == t.observedAt
  {
    hide SortVnrs, SortNodes, SortRoutes, SortIds, SortEdges, SortEntities, OrphanNodes, OrphanRoutes;
    hide GroupVnrs, GroupNodes, Entities, Links, NodeIds, RouteIds, LatestRuntime;
  }

  /** VNRs stand in the order of name and range, nodes of name and identifier, routes of prefix and identifier. */
  lemma ModelIsInOrder(t: Topology)
    ensures var vs := ModelOf(t).vnrs;
            && (forall i, j :: 0 <= i < j < |vs| ==>
                  NotAbove(vs[i].vnr.name, vs[i].vnr.cidr, vs[j].vnr.name, vs[j].vnr.cidr))
            && (forall i :: 0 <= i < |vs| ==> NodesInOrder(vs[i].nodes))
  {
    hide ModelOf, NotAbove, Compare, NodesInOrder;
    GroupsAreExact(t);
    var vs := ModelOf(t).vnrs;
    forall i, j | 0 <= i < j < |vs|
      ensures NotAbove(vs[i].vnr.name, vs[i].vnr.cidr, vs[j].vnr.name, vs[j].vnr.cidr)
    {
      assert Map(VnrOf, vs)[i] == vs[i].vnr && Map(VnrOf, vs)[j] == vs[j].vnr;
      CompareMeans(VnrKey(vs[i].vnr), VnrKey(vs[j].vnr));
    }
    forall i | 0 <= i < |vs|
      ensures NodesInOrder(vs[i].nodes)
    {
      assert vs[i] in vs;
      ListedInOrder(vs[i], t);
    }
  }

  ghost predicate NodesInOrder(ms: seq<NodeModel>) {
    && (forall i, j :: 0 <= i < j < |ms| ==>
          NotAbove(ms[i].node.name, ms[i].node.id, ms[j].node.name, ms[j].node.id))
    && (forall i :: 0 <= i < |ms| ==> RoutesInOrder(ms[i].routes))
  }

  ghost predicate RoutesInOrder(rs: seq<Route>) {
    forall i, j :: 0 <= i < j < |rs| ==> NotAbove(rs[i].prefix, rs[i].id, rs[j].prefix, rs[j].id)
  }

  lemma ListedInOrder(m: VnrModel, t: Topology)
    requires IsVnrModel(m, t)
    ensures NodesInOrder(m.nodes)
  {
    hide NotAbove, Compare;
    var ms := m.nodes;
    forall i, j | 0 <= i < j < |ms|
      ensures NotAbove(ms[i].node.name, ms[i].node.id, ms[j].node.name, ms[j].node.id)
    {
      assert Map(NodeOf, ms)[i] == ms[i].node && Map(NodeOf, ms)[j] == ms[j].node;
      CompareMeans(NodeKey(ms[i].node), NodeKey(ms[j].node));
    }
    forall i | 0 <= i < |ms|
      ensures RoutesInOrder(ms[i].routes)
    {
      assert ms[i] in ms;
      var rs := ms[i].routes;
      forall j, k | 0 <= j < k < |rs|
        ensures NotAbove(rs[j].prefix, rs[j].id, rs[k].prefix, rs[k].id)
      {
        CompareMeans(RouteKey(rs[j]), RouteKey(rs[k]));
      }
    }
  }

  /** Entities and edges are sorted by key, and the orphan lists by identifier. */
  lemma ListsAreSorted(t: Topology)
    ensures var m := ModelOf(t);
            && (forall i, j :: 0 <= i < j < |m.entities| ==> !IsBelow(m.entities[j].key, m.entities[i].key))
            && (forall i, j :: 0 <= i < j < |m.edges| ==> !IsBelow(m.edges[j].key, m.edges[i].key))
            && (forall i, j :: 0 <= i < j < |m.orphanNodeIds| ==> !IsBelow(m.orphanNodeIds[j], m.orphanNodeIds[i]))
            && (forall i, j :: 0 <= i < j < |m.orphanRouteIds| ==> !IsBelow(m.orphanRouteIds[j], m.orphanRouteIds[i]))
  {
    hide ModelOf, LayoutOf, Links, SortOn, CompareText, IsBelow, Ordered;
    var m := ModelOf(t);
    ModelIsSortedLayout(t);
    OrphansAreListed(t);
    SortIsOrderedPermutation(EntityKey, LayoutOf(t));
    SortIsOrderedPermutation(EdgeKey, Links(LayoutOf(t)));
    forall i, j | 0 <= i < j < |m.entities|
      ensures !IsBelow(m.entities[j].key, m.entities[i].key)
    {
      InOrderOf(EntityKey, m.entities, i, j);
    }
    forall i, j | 0 <= i < j < |m.edges|
      ensures !IsBelow(m.edges[j].key, m.edges[i].key)
    {
      InOrderOf(EdgeKey, m.edges, i, j);
    }
    forall i, j | 0 <= i < j < |m.orphanNodeIds|
      ensures !IsBelow(m.orphanNodeIds[j], m.orphanNodeIds[i])
    {
      InOrderOf(IdKey, m.orphanNodeIds, i, j);
    }
    forall i, j | 0 <= i < j < |m.orphanRouteIds|
      ensures !IsBelow(m.orphanRouteIds[j], m.orphanRouteIds[i])
    {
      InOrderOf(IdKey, m.orphanRouteIds, i, j);
    }
  }

  lemma InOrderOf<T>(key: T -> Key, s: seq<T>, i: nat, j: nat)
    requires Ordered(key, s) && i < j < |s|
    ensures !IsBelow(key(s[j]).0, key(s[i]).0)
  {
    hide IsBelow, CompareText;
    CompareTextMeans(key(s[j]).0, key(s[i]).0);
    CompareTextOrder(key(s[j]).0, key(s[i]).0);
  }

  // ---------- Entities and edges ----------

  /** Each kind has its keys and its column. */
  lemma EntitiesAreLabelled(t: Topology, e: Entity)
    requires UniqueInputs(t) && e in ModelOf(t).entities
    ensures match e.kind
            case Master => e.key == "master" && e.entityId == "master" && e.text == "Master" && e.x == 48
            case OfVnr => e.key == "vnr:" + e.entityId && e.x == 304
                          && exists v :: v in t.vnrs && v.name == e.entityId == e.text
            case OfNode => e.key == "node:" + e.entityId && e.x == 592
                           && exists n :: n in t.nodes && n.id == e.entityId && n.name == e.text
            case OfRoute => e.key == "route:" + e.entityId && e.x == 880
                            && exists r :: r in t.routes && r.id == e.entityId && r.prefix == e.text
  {
    hide ModelOf, UniqueInputs, UniqueKeys, AllDrawn;
    EveryRecordOnce(t);
    assert StandsForRecord(e, t.vnrs, t.nodes, t.routes);
  }

  /** Every entity hangs below its record's parent: the master, the VNR of that name, or the node of that identifier. */
  lemma EntitiesHangBelow(t: Topology, e: Entity)
    requires UniqueInputs(t) && e in ModelOf(t).entities
    ensures e.kind == Master ==> e.parentKey.None?
    ensures e.kind == OfVnr ==> e.parentKey == Some("master")
    ensures forall n :: e.kind == OfNode && n in t.nodes && n.id == e.entityId ==>
              e.parentKey == if exists v :: v in t.vnrs && v.name == n.vnrName then Some("vnr:" + n.vnrName) else None
    ensures forall r :: e.kind == OfRoute && r in t.routes && r.id == e.entityId ==>
              e.parentKey == if exists n :: n in t.nodes && n.id == r.nodeId then Some("node:" + r.nodeId) else None
  {
    hide ModelOf, UniqueInputs, UniqueKeys, Drawn;
    EveryRecordOnce(t);
    var es := ModelOf(t).entities;
    assert StandsForRecord(e, t.vnrs, t.nodes, t.routes);
    if e.kind == OfVnr {
      var v :| v in t.vnrs && v.name == e.entityId;
      SameParent(es, e, OfVnr, v.name, Some("master"));
    }
    forall n | e.kind == OfNode && n in t.nodes && n.id == e.entityId
      ensures e.parentKey == NodeParent(t.vnrs, n)
    {
      SameParent(es, e, OfNode, n.id, NodeParent(t.vnrs, n));
    }
    forall r | e.kind == OfRoute && r in t.routes && r.id == e.entityId
      ensures e.parentKey == RouteParent(t.nodes, r)
    {
      SameParent(es, e, OfRoute, r.id, RouteParent(t.nodes, r));
    }
  }

  lemma {:induction false} LinkHasChild(es: seq<Entity>, edge: Edge) returns (c: Entity)
    requires edge in Links(es)
    ensures c in es && c.parentKey.Some?
    ensures edge == Edge(c.parentKey.value + "->" + c.key, if c.kind == OfRoute then Owns else Contains,
                         c.parentKey.value, c.key)
    decreases |es|
  {
    var last := |es| - 1;
    if edge in LinkOf(es[last]) {
      c := es[last];
    } else {
      c := LinkHasChild(es[..last], edge);
    }
  }

  /** Every edge leads from a parent to its child, is named after both, and routes are owned, others contained. */
  lemma EdgesAreLabelled(t: Topology, edge: Edge) returns (c: Entity)
    requires edge in ModelOf(t).edges
    ensures c in ModelOf(t).entities && c.parentKey == Some(edge.sourceKey) && c.key == edge.targetKey
    ensures edge.key == edge.sourceKey + "->" + edge.targetKey && (edge.kind == Owns <==> c.kind == OfRoute)
  {
    hide ModelOf, Links;
    EdgesAreParentLinks(t);
    SameMembers(ModelOf(t).edges, Links(ModelOf(t).entities));
    c := LinkHasChild(ModelOf(t).entities, edge);
  }

  // ---------- Rows ----------

  function RouteLeaves(routes: seq<Route>): (keys: seq<string>)
    ensures |keys| == |routes| && (forall i :: 0 <= i < |routes| ==> keys[i] == "route:" + routes[i].id)
  {
    seq(|routes|, i requires 0 <= i < |routes| => "route:" + routes[i].id)
  }

  /** The keys of the routes of a node, or its own when it has none. */
  function NodeLeaves(n: NodeModel): seq<string> {
    if n.routes == [] then ["node:" + n.node.id] else RouteLeaves(n.routes)
  }

  function NodesLeaves(ns: seq<NodeModel>): seq<string> {
    if ns == [] then [] else NodesLeaves(ns[..|ns| - 1]) + NodeLeaves(ns[|ns| - 1])
  }

  function VnrLeaves(v: VnrModel): seq<string> {
    if v.nodes == [] then ["vnr:" + v.vnr.name] else NodesLeaves(v.nodes)
  }

  /** The keys of the leaves of the tree, from the first to the last. */
  function VnrsLeaves(vs: seq<VnrModel>): seq<string> {
    if vs == [] then [] else VnrsLeaves(vs[..|vs| - 1]) + VnrLeaves(vs[|vs| - 1])
  }

  ghost predicate Stands(es: seq<Entity>, key: string, row: nat) {
    exists e :: e in es && e.key == key && e.y == 72.0 * row as real
  }

  /** The entities with these keys stand in one row after the other, from `row` on. */
  ghost predicate InRows(es: seq<Entity>, keys: seq<string>, row: nat) {
    forall i :: 0 <= i < |keys| ==> Stands(es, keys[i], row + i)
  }

  lemma InRowsBoth(a: seq<Entity>, b: seq<Entity>, keys: seq<string>, more: seq<string>, row: nat)
    requires InRows(a, keys, row) && InRows(b, more, row + |keys|)
    ensures InRows(a + b, keys + more, row)
  {
    var all := keys + more;
    forall i | 0 <= i < |all|
      ensures Stands(a + b, all[i], row + i)
    {
      if i < |keys| {
        StandsInMore(a, a + b, keys[i], row + i);
      } else {
        StandsInMore(b, a + b, more[i - |keys|], row + |keys| + (i - |keys|));
      }
    }
  }

  lemma StandsInMore(es: seq<Entity>, all: seq<Entity>, key: string, row: nat)
    requires Stands(es, key, row) && (forall e :: e in es ==> e in all)
    ensures Stands(all, key, row)
  {
  }

  lemma InRowsOfMore(es: seq<Entity>, all: seq<Entity>, keys: seq<string>, row: nat)
    requires InRows(es, keys, row) && (forall e :: e in es ==> e in all)
    ensures InRows(all, keys, row)
  {
    forall i | 0 <= i < |keys|
      ensures Stands(all, keys[i], row + i)
    {
      StandsInMore(es, all, keys[i], row + i);
    }
  }

  lemma RoutesInRows(routes: seq<Route>, parentKey: Option<string>, row: nat)
    ensures InRows(RouteEntities(routes, parentKey, row), RouteLeaves(routes), row)
  {
    RoutesStacked(routes, parentKey, row);
    var es, keys := RouteEntities(routes, parentKey, row), RouteLeaves(routes);
    forall i | 0 <= i < |keys|
      ensures Stands(es, keys[i], row + i)
    {
      assert es[i] in es && es[i].key == keys[i] && es[i].y == 72.0 * (row + i) as real;
    }
  }

  lemma NodeInRows(n: NodeModel, parentKey: Option<string>, row: nat)
    ensures |NodeLeaves(n)| == NodeRows(n) && InRows(NodePart(n, parentKey, row), NodeLeaves(n), row)
  {
    hide RouteEntities;
    var own := Some(KeyOf(OfNode, n.node.id));
    RoutesInRows(n.routes, own, row);
    if n.routes == [] {
      var e := NodeEntity(n, parentKey, row);
      assert e in NodePart(n, parentKey, row) && e.key == "node:" + n.node.id && e.y == 72.0 * row as real;
    } else {
      InRowsOfMore(RouteEntities(n.routes, own, row), NodePart(n, parentKey, row), NodeLeaves(n), row);
    }
  }

  lemma {:induction false} NodesInRows(ns: seq<NodeModel>, parentKey: Option<string>, row: nat)
    ensures |NodesLeaves(ns)| == NodesRows(ns) && InRows(NodesPart(ns, parentKey, row), NodesLeaves(ns), row)
    decreases |ns|
  {
    hide NodePart, NodeLeaves, InRows, NodeRows;
    if ns == [] {
      NothingInRows(row);
    } else {
      var last := |ns| - 1;
      NodesInRows(ns[..last], parentKey, row);
      NodeInRows(ns[last], parentKey, row + NodesRows(ns[..last]));
      InRowsBoth(NodesPart(ns[..last], parentKey, row), NodePart(ns[last], parentKey, row + NodesRows(ns[..last])),
                 NodesLeaves(ns[..last]), NodeLeaves(ns[last]), row);
    }
  }

  lemma NothingInRows(row: nat)
    ensures InRows([], [], row)
  {
  }

  lemma VnrInRows(v: VnrModel, row: nat)
    ensures |VnrLeaves(v)| == VnrRows(v) && InRows(VnrPart(v, row), VnrLeaves(v), row)
  {
    hide NodesPart, NodesLeaves, InRows, NodesYs, NodesRows;
    var parentKey := Some(KeyOf(OfVnr, v.vnr.name));
    NodesInRows(v.nodes, parentKey, row);
    if v.nodes == [] {
      EmptyVnrInRow(v, row);
    } else {
      InRowsOfMore(NodesPart(v.nodes, parentKey, row), VnrPart(v, row), VnrLeaves(v), row);
    }
  }

  lemma EmptyVnrInRow(v: VnrModel, row: nat)
    requires v.nodes == []
    ensures InRows(VnrPart(v, row), ["vnr:" + v.vnr.name], row)
  {
    var e := VnrEntity(v, row);
    assert e in VnrPart(v, row) && e.key == "vnr:" + v.vnr.name && e.y == 72.0 * row as real;
  }

  lemma {:induction false} VnrsInRows(vs: seq<VnrModel>)
    ensures |VnrsLeaves(vs)| == VnrsRows(vs) && InRows(VnrsPart(vs), VnrsLeaves(vs), 0)
    decreases |vs|
  {
    hide VnrPart, VnrLeaves, InRows, VnrRows;
    if vs == [] {
      NothingInRows(0);
    } else {
      var last := |vs| - 1;
      VnrsInRows(vs[..last]);
      VnrInRows(vs[last], VnrsRows(vs[..last]));
      InRowsBoth(VnrsPart(vs[..last]), VnrPart(vs[last], VnrsRows(vs[..last])),
                 VnrsLeaves(vs[..last]), VnrLeaves(vs[last]), 0);
    }
  }

  /** The leaves of the whole drawing: those of the tree, then of the nodes without VNR, then the routes
      without node. */
  function AllLeaves(vs: seq<VnrModel>, orphanNodes: seq<NodeModel>, orphanRoutes: seq<Route>): seq<string> {
    VnrsLeaves(vs) + NodesLeaves(orphanNodes) + RouteLeaves(orphanRoutes)
  }

  lemma EntitiesInRows(vs: seq<VnrModel>, orphanNodes: seq<NodeModel>, orphanRoutes: seq<Route>)
    ensures InRows(Entities(vs, orphanNodes, orphanRoutes), AllLeaves(vs, orphanNodes, orphanRoutes), 0)
  {
    hide VnrsPart, NodesPart, RouteEntities, InRows, VnrsLeaves, NodesLeaves, VnrsRows, NodesRows, VnrsYs;
    var a, b, row := VnrsPart(vs), NodesPart(orphanNodes, None, VnrsRows(vs)), VnrsRows(vs);
    var row1 := row + NodesRows(orphanNodes);
    VnrsInRows(vs);
    NodesInRows(orphanNodes, None, row);
    RoutesInRows(orphanRoutes, None, row1);
    InRowsBoth(a, b, VnrsLeaves(vs), NodesLeaves(orphanNodes), 0);
    InRowsBoth(a + b, RouteEntities(orphanRoutes, None, row1), VnrsLeaves(vs) + NodesLeaves(orphanNodes),
               RouteLeaves(orphanRoutes), 0);
    InRowsOfMore(a + b + RouteEntities(orphanRoutes, None, row1), Entities(vs, orphanNodes, orphanRoutes),
                 AllLeaves(vs, orphanNodes, orphanRoutes), 0);
  }

  /** Leaf number `i` of the drawing stands at height `72 * i`, whether it is a route, a node or a VNR. */
  lemma LeavesStandInRows(t: Topology, i: nat)
    ensures var vnrs, nodes, routes := SortVnrs(t.vnrs), SortNodes(t.nodes), SortRoutes(t.routes);
            var orphans := GroupNodes(OrphanNodes(vnrs, nodes), routes, LatestRuntime(t.runtime));
            var leaves := AllLeaves(ModelOf(t).vnrs, orphans, OrphanRoutes(nodes, routes));
            i < |leaves| ==> exists e :: e in ModelOf(t).entities && e.key == leaves[i] && e.y == 72.0 * i as real
  {
    hide ModelOf, AllLeaves, Entities, GroupVnrs, GroupNodes, OrphanNodes, OrphanRoutes;
    hide SortVnrs, SortNodes, SortRoutes, LatestRuntime;
    var vnrs, nodes, routes := SortVnrs(t.vnrs), SortNodes(t.nodes), SortRoutes(t.routes);
    var orphans := GroupNodes(OrphanNodes(vnrs, nodes), routes, LatestRuntime(t.runtime));
    var models, strays := GroupVnrs(vnrs, nodes, routes, LatestRuntime(t.runtime)), OrphanRoutes(nodes, routes);
    ModelHasGroups(t);
    ModelHasLayout(t);
    EntitiesInRows(models, orphans, strays);
    InRowsOfMore(LayoutOf(t), ModelOf(t).entities, AllLeaves(models, orphans, strays), 0);
    if i < |AllLeaves(models, orphans, strays)| {
      assert Stands(ModelOf(t).entities, AllLeaves(models, orphans, strays)[i], 0 + i);
    }
  }

  // ---------- Ties ----------

  /** The texts by which runtime entries are compared, the one that counts most first. */
  function TieTexts(r: Runtime): seq<string> {
    [r.observedAt, r.liveness, r.sessionState, r.trafficState,
     if r.observedEndpoint.None? then "" else r.observedEndpoint.value,
     if r.authenticatedRxAt.None? then "" else r.authenticatedRxAt.value,
     if r.authenticatedTxAt.None? then "" else r.authenticatedTxAt.value]
  }

  /** The first text that differs decides. */
  ghost predicate FirstDifferenceBelow(a: seq<string>, b: seq<string>, k: nat) {
    k < |a| && k < |b| && a[..k] == b[..k] && IsBelow(a[k], b[k])
  }

  function Joined(texts: seq<string>): string {
    if texts == [] then "" else if |texts| == 1 then texts[0] else texts[0] + "\0" + Joined(texts[1..])
  }

  lemma {:induction false} NoNulFirst(a: string, x: string, b: string, y: string)
    requires NoNul(a) && NoNul(b)
    ensures CompareText(a + "\0" + x, b + "\0" + y) == if a == b then CompareText(x, y) else CompareText(a, b)
    decreases |a|
  {
    var s, u := a + "\0" + x, b + "\0" + y;
    assert s[0] == (if a == [] then '\0' else a[0]) && u[0] == (if b == [] then '\0' else b[0]);
    if a == [] && b == [] {
      assert s[1..] == x && u[1..] == y;
    } else if a != [] && b != [] && a[0] == b[0] {
      assert s[1..] == a[1..] + "\0" + x && u[1..] == b[1..] + "\0" + y;
      NoNulFirst(a[1..], x, b[1..], y);
      assert a == [a[0]] + a[1..] && b == [b[0]] + b[1..];
    }
  }

  lemma {:induction false} JoinedCompare(a: seq<string>, b: seq<string>)
    requires |a| == |b| >= 1 && (forall k :: 0 <= k < |a| ==> NoNul(a[k]) && NoNul(b[k]))
    ensures CompareText(Joined(a), Joined(b)) < 0 <==> exists k: nat :: FirstDifferenceBelow(a, b, k)
    decreases |a|
  {
    hide IsBelow, NoNul, CompareText;
    CompareTextMeans(a[0], b[0]);
    CompareTextOrder(a[0], b[0]);
    assert a[..0] == b[..0];
    if |a| > 1 {
      NoNulFirst(a[0], Joined(a[1..]), b[0], Joined(b[1..]));
      JoinedCompare(a[1..], b[1..]);
    }
    FirstOrLater(a, b);
  }

  lemma FirstOrLater(a: seq<string>, b: seq<string>)
    requires |a| == |b| >= 1
    ensures (exists k: nat :: FirstDifferenceBelow(a, b, k))
            <==> IsBelow(a[0], b[0]) || (a[0] == b[0] && exists k: nat :: FirstDifferenceBelow(a[1..], b[1..], k))
  {
    hide IsBelow;
    if k: nat :| FirstDifferenceBelow(a, b, k) {
      if k > 0 {
        assert a[..k][0] == b[..k][0];
        assert a[1..][..k - 1] == a[..k][1..] && b[1..][..k - 1] == b[..k][1..];
        assert FirstDifferenceBelow(a[1..], b[1..], k - 1);
      }
    }
    if IsBelow(a[0], b[0]) {
      assert a[..0] == b[..0];
      assert FirstDifferenceBelow(a, b, 0);
    }
    if a[0] == b[0] {
      if k: nat :| FirstDifferenceBelow(a[1..], b[1..], k) {
        assert a[..k + 1] == [a[0]] + a[1..][..k] && b[..k + 1] == [b[0]] + b[1..][..k];
        assert FirstDifferenceBelow(a, b, k + 1);
      }
    }
  }

  lemma {:induction false} JoinedAppends(texts: seq<string>, x: string)
    requires texts != []
    ensures Joined(texts + [x]) == Joined(texts) + "\0" + x
    decreases |texts|
  {
    if |texts| == 1 {
      assert (texts + [x])[1..] == [x];
    } else {
      assert (texts + [x])[1..] == texts[1..] + [x];
      JoinedAppends(texts[1..], x);
      assert texts[0] + "\0" + (Joined(texts[1..]) + "\0" + x) == (texts[0] + "\0" + Joined(texts[1..])) + "\0" + x;
    }
  }

  lemma TieBreakerIsJoined(r: Runtime)
    ensures TieBreaker(r) == Joined(TieTexts(r))
  {
    hide Joined;
    var s := TieTexts(r);
    assert Joined([s[0]]) == s[0] by { JoinedOne(s[0]); }
    assert [s[0], s[1]] == [s[0]] + [s[1]];
    JoinedAppends([s[0]], s[1]);
    assert s[..3] == [s[0], s[1]] + [s[2]];
    JoinedAppends([s[0], s[1]], s[2]);
    forall k | 3 <= k < 7
      ensures Joined(s[..k + 1]) == Joined(s[..k]) + "\0" + s[k]
    {
      assert s[..k + 1] == s[..k] + [s[k]];
      JoinedAppends(s[..k], s[k]);
    }
    assert Joined(s[..4]) == Joined(s[..3]) + "\0" + s[3] && Joined(s[..5]) == Joined(s[..4]) + "\0" + s[4];
    assert Joined(s[..6]) == Joined(s[..5]) + "\0" + s[5] && Joined(s[..7]) == Joined(s[..6]) + "\0" + s[6];
    assert s[..7] == s;
  }

  lemma JoinedOne(text: string)
    ensures Joined([text]) == text
  {
  }

  /**
   Of two entries whose texts hold no NUL, the later observed compares greater; of two of one time, liveness, session
   state, traffic state, endpoint and the two authentication times decide in turn.
   */
  lemma TieBreakerOrder(a: Runtime, b: Runtime)
    requires forall k :: 0 <= k < 7 ==> NoNul(TieTexts(a)[k]) && NoNul(TieTexts(b)[k])
    ensures CompareText(TieBreaker(a), TieBreaker(b)) < 0
            <==> exists k: nat :: FirstDifferenceBelow(TieTexts(a), TieTexts(b), k)
  {
    hide TieBreaker, NoNul, Joined, CompareText;
    TieBreakerIsJoined(a);
    TieBreakerIsJoined(b);
    JoinedCompare(TieTexts(a), TieTexts(b));
  }
}
