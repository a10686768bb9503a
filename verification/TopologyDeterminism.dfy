/** The order in which the server lists its records does not show in the model. */
module TopologyDeterminism {
  import opened Wrappers
  import opened Records
  import opened Ordering
  import opened TopologyLayout
  import opened TopologyConservation
  import opened TopologyProofs
  import opened TopologyRuntime

  /** The same records, listed in any order. */
  ghost predicate Rearranged(t: Topology, u: Topology) {
    && t.generation == u.generation && t.observedAt == u.observedAt
    && multiset(t.vnrs) == multiset(u.vnrs) && multiset(t.nodes) == multiset(u.nodes)
    && multiset(t.routes) == multiset(u.routes) && multiset(t.runtime) == multiset(u.runtime)
  }

  // ---------- Runtime ----------

  ghost predicate NotAfter(a: Runtime, b: Runtime) {
    CompareText(TieBreaker(a), TieBreaker(b)) <= 0
  }

  /** The runtime kept for a node is one of its own entries, and none of its entries compares greater. */
  ghost predicate IsLatest(latest: map<string, Runtime>, entries: seq<Runtime>) {
    && (forall id :: id in latest ==> latest[id] in entries && latest[id].nodeId == id)
    && (forall r :: r in entries ==> r.nodeId in latest && NotAfter(r, latest[r.nodeId]))
  }

  lemma LatestRuntimeIsLatest(entries: seq<Runtime>)
    ensures IsLatest(LatestRuntime(entries), entries)
  {
    hide LatestRuntime, TieBreaker, CompareText, FirstAt;
    LatestRuntimeKeepsFirst(entries);
    KeptIsMember(TieBreaker, LatestRuntime(entries), entries);
  }

  /** Both know the same nodes, and their entries for a node read the same when joined to one text. */
  ghost predicate SameUpToTies(latest: map<string, Runtime>, other: map<string, Runtime>) {
    && latest.Keys == other.Keys
    && forall id :: id in latest ==> TieBreaker(latest[id]) == TieBreaker(other[id])
  }

  lemma LatestForgetsOrder(a: seq<Runtime>, b: seq<Runtime>)
    requires multiset(a) == multiset(b)
    ensures SameUpToTies(LatestRuntime(a), LatestRuntime(b))
  {
    hide TieBreaker, LatestRuntime;
    SameMembers(a, b);
    LatestRuntimeIsLatest(a);
    LatestRuntimeIsLatest(b);
    var l, m := LatestRuntime(a), LatestRuntime(b);
    forall id | id in l
      ensures id in m && TieBreaker(l[id]) == TieBreaker(m[id])
    {
      assert l[id] in b && m[id] in a;
      CompareTextOrder(TieBreaker(l[id]), TieBreaker(m[id]));
    }
    forall id | id in m
      ensures id in l
    {
      assert m[id] in a;
    }
  }

  // ---------- The drawing does not look at runtime ----------

  lemma {:induction false} NodesIgnoreRuntime(nodes: seq<Node>, routes: seq<Route>, l: map<string, Runtime>,
                                              m: map<string, Runtime>,
                                              parentKey: Option<string>, row: nat)
    ensures var a, b := GroupNodes(nodes, routes, l), GroupNodes(nodes, routes, m);
            NodesPart(a, parentKey, row) == NodesPart(b, parentKey, row) && NodesRows(a) == NodesRows(b)
            && NodesYs(a, row) == NodesYs(b, row)
    decreases |nodes|
  {
    hide GroupNodes, RouteEntities, NodeY, NodeRows, RoutesOf;
    if nodes != [] {
      var last := |nodes| - 1;
      var before := nodes[..last];
      GroupNodesSnoc(nodes, routes, l);
      GroupNodesSnoc(nodes, routes, m);
      NodesIgnoreRuntime(before, routes, l, m, parentKey, row);
      NodeIgnoresRuntime(nodes[last], routes, l, m, parentKey, row + NodesRows(GroupNodes(before, routes, l)));
    }
  }

  lemma NodeIgnoresRuntime(node: Node, routes: seq<Route>, l: map<string, Runtime>, m: map<string, Runtime>,
                           parentKey: Option<string>, row: nat)
    ensures var a, b := GroupNode(node, routes, l), GroupNode(node, routes, m);
            NodePart(a, parentKey, row) == NodePart(b, parentKey, row) && NodeRows(a) == NodeRows(b)
              && NodeY(a, row) == NodeY(b, row)
  {
    hide RouteEntities, RoutesOf;
  }

  lemma VnrIgnoresRuntime(vnr: Vnr, nodes: seq<Node>, routes: seq<Route>, l: map<string, Runtime>,
                          m: map<string, Runtime>, row: nat)
    ensures var a, b := GroupVnr(vnr, nodes, routes, l), GroupVnr(vnr, nodes, routes, m);
            VnrPart(a, row) == VnrPart(b, row) && VnrRows(a) == VnrRows(b) && VnrY(a, row) == VnrY(b, row)
  {
    hide GroupNodes, NodesPart, NodesRows, NodesYs, NodesOf, RoutesOf, GroupNode;
    var own := NodesOf(vnr, nodes);
    var a, b := GroupNodes(own, routes, l), GroupNodes(own, routes, m);
    NodesIgnoreRuntime(own, routes, l, m, Some(KeyOf(OfVnr, vnr.name)), row);
    assert |a| == |b| == |own|;
  }

  lemma {:induction false} VnrsIgnoreRuntime(vnrs: seq<Vnr>, nodes: seq<Node>, routes: seq<Route>,
                                             l: map<string, Runtime>, m: map<string, Runtime>)
    ensures var a, b := GroupVnrs(vnrs, nodes, routes, l), GroupVnrs(vnrs, nodes, routes, m);
            VnrsPart(a) == VnrsPart(b) && VnrsRows(a) == VnrsRows(b) && VnrsYs(a) == VnrsYs(b)
    decreases |vnrs|
  {
    hide GroupVnrs, VnrPart, VnrRows, VnrY, GroupVnr;
    if vnrs != [] {
      var last := |vnrs| - 1;
      var before := vnrs[..last];
      GroupVnrsSnoc(vnrs, nodes, routes, l);
      GroupVnrsSnoc(vnrs, nodes, routes, m);
      VnrsIgnoreRuntime(before, nodes, routes, l, m);
      VnrIgnoresRuntime(vnrs[last], nodes, routes, l, m, VnrsRows(GroupVnrs(before, nodes, routes, l)));
    }
  }

  lemma LayoutIgnoresRuntime(vnrs: seq<Vnr>, nodes: seq<Node>, routes: seq<Route>, l: map<string, Runtime>,
                             m: map<string, Runtime>)
    ensures Layout(vnrs, nodes, routes, l) == Layout(vnrs, nodes, routes, m)
  {
    hide GroupVnrs, GroupNodes, VnrsPart, NodesPart, RouteEntities, VnrsRows, NodesRows, VnrsYs, OrphanNodes;
    hide OrphanRoutes;
    VnrsIgnoreRuntime(vnrs, nodes, routes, l, m);
    NodesIgnoreRuntime(OrphanNodes(vnrs, nodes), routes, l, m, None, VnrsRows(GroupVnrs(vnrs, nodes, routes, l)));
  }

  // ---------- Rearranged records ----------

  lemma SortingForgetsOrder(t: Topology, u: Topology)
    requires UniqueInputs(t) && Rearranged(t, u)
    ensures SortVnrs(t.vnrs) == SortVnrs(u.vnrs) && SortNodes(t.nodes) == SortNodes(u.nodes)
            && SortRoutes(t.routes) == SortRoutes(u.routes)
  {
    hide SortOn;
    VnrKeysTell(t.vnrs);
    NodeKeysTell(t.nodes);
    RouteKeysTell(t.routes);
    SortForgetsOrder(VnrKey, t.vnrs, u.vnrs);
    SortForgetsOrder(NodeKey, t.nodes, u.nodes);
    SortForgetsOrder(RouteKey, t.routes, u.routes);
  }

  lemma VnrKeysTell(vnrs: seq<Vnr>)
    requires Unique(VnrId, vnrs)
    ensures KeysTell(VnrKey, vnrs)
  {
    forall x, y | x in vnrs && y in vnrs && VnrKey(x) == VnrKey(y)
      ensures x == y
    {
      UniqueTells(VnrId, vnrs, x, y);
    }
  }

  lemma NodeKeysTell(nodes: seq<Node>)
    requires Unique(NodeId, nodes)
    ensures KeysTell(NodeKey, nodes)
  {
    forall x, y | x in nodes && y in nodes && NodeKey(x) == NodeKey(y)
      ensures x == y
    {
      UniqueTells(NodeId, nodes, x, y);
    }
  }

  lemma RouteKeysTell(routes: seq<Route>)
    requires Unique(RouteId, routes)
    ensures KeysTell(RouteKey, routes)
  {
    forall x, y | x in routes && y in routes && RouteKey(x) == RouteKey(y)
      ensures x == y
    {
      UniqueTells(RouteId, routes, x, y);
    }
  }

  ghost predicate AlikeNode(a: NodeModel, b: NodeModel) {
    && a.node == b.node && a.routes == b.routes && a.runtime.Some? == b.runtime.Some?
    && (a.runtime.Some? ==> TieBreaker(a.runtime.value) == TieBreaker(b.runtime.value))
  }

  ghost predicate AlikeVnr(a: VnrModel, b: VnrModel) {
    a.vnr == b.vnr && |a.nodes| == |b.nodes| && forall i :: 0 <= i < |a.nodes| ==> AlikeNode(a.nodes[i], b.nodes[i])
  }

  /** Equal but for the choice between runtime entries with the same tie-break text. */
  ghost predicate Alike(a: Model, b: Model) {
    && a.edges == b.edges && a.entities == b.entities && a.generation == b.generation && a.observedAt == b.observedAt
    && a.orphanNodeIds == b.orphanNodeIds && a.orphanRouteIds == b.orphanRouteIds
    && |a.vnrs| == |b.vnrs| && forall i :: 0 <= i < |a.vnrs| ==> AlikeVnr(a.vnrs[i], b.vnrs[i])
  }

  lemma GroupsAlike(vnrs: seq<Vnr>, nodes: seq<Node>, routes: seq<Route>, l: map<string, Runtime>,
                    m: map<string, Runtime>)
    requires SameUpToTies(l, m)
    ensures var a, b := GroupVnrs(vnrs, nodes, routes, l), GroupVnrs(vnrs, nodes, routes, m);
            forall i :: 0 <= i < |vnrs| ==> AlikeVnr(a[i], b[i])
  {
    hide TieBreaker, NodesOf, RoutesOf;
  }

  /** Any rearrangement of the records gives the same model, up to the choice between tied runtime entries. */
  lemma ModelForgetsOrder(t: Topology, u: Topology)
    requires UniqueInputs(t) && Rearranged(t, u)
    ensures Alike(ModelOf(t), ModelOf(u))
  {
    hide SortVnrs, SortNodes, SortRoutes, SortIds, SortEdges, SortEntities, OrphanNodes, OrphanRoutes;
    hide GroupVnrs, GroupNodes, Entities, Links, LatestRuntime, NodeIds, RouteIds, UniqueInputs, SameUpToTies, AlikeVnr;
    var l, m := LatestRuntime(t.runtime), LatestRuntime(u.runtime);
    SortingForgetsOrder(t, u);
    LatestForgetsOrder(t.runtime, u.runtime);
    var vnrs, nodes, routes := SortVnrs(t.vnrs), SortNodes(t.nodes), SortRoutes(t.routes);
    LayoutIgnoresRuntime(vnrs, nodes, routes, l, m);
    GroupsAlike(vnrs, nodes, routes, l, m);
    GroupSizes(vnrs, nodes, routes, l);
    GroupSizes(vnrs, nodes, routes, m);
  }

  lemma GroupSizes(vnrs: seq<Vnr>, nodes: seq<Node>, routes: seq<Route>, latest: map<string, Runtime>)
    ensures |GroupVnrs(vnrs, nodes, routes, latest)| == |vnrs|
  {
  }

  // ---------- Ties ----------

  /** The runtime of the node is shown in the tree. */
  ghost predicate Shows(t: Topology, id: string) {
    exists n :: n in t.nodes && n.id == id && HasVnr(t.vnrs, n.vnrName)
  }

  /** Two different entries of a shown node have the same tie-break text, and no entry of the node has a greater one. */
  ghost predicate TopTie(t: Topology, x: Runtime, y: Runtime) {
    && x in t.runtime && y in t.runtime && x != y && x.nodeId == y.nodeId && TieBreaker(x) == TieBreaker(y)
    && Shows(t, x.nodeId)
    && forall z :: z in t.runtime && z.nodeId == x.nodeId ==> NotAfter(z, x)
  }

  lemma ShownLatestAgrees(t: Topology, u: Topology, id: string)
    requires Rearranged(t, u) && Shows(t, id) && (forall x, y :: !TopTie(t, x, y))
    ensures var l, m := LatestRuntime(t.runtime), LatestRuntime(u.runtime);
            (id in l <==> id in m) && (id in l ==> l[id] == m[id])
  {
    hide TieBreaker, LatestRuntime, NotAfter, Shows;
    var l, m := LatestRuntime(t.runtime), LatestRuntime(u.runtime);
    SameMembers(t.runtime, u.runtime);
    LatestForgetsOrder(t.runtime, u.runtime);
    LatestRuntimeIsLatest(t.runtime);
    LatestRuntimeIsLatest(u.runtime);
    if id in l {
      assert m[id] in u.runtime;
      assert !TopTie(t, l[id], m[id]);
    }
  }

  lemma GroupsAgree(vnrs: seq<Vnr>, nodes: seq<Node>, routes: seq<Route>, l: map<string, Runtime>,
                    m: map<string, Runtime>)
    requires forall n :: n in nodes && HasVnr(vnrs, n.vnrName) ==> GroupNode(n, routes, l) == GroupNode(n, routes, m)
    ensures GroupVnrs(vnrs, nodes, routes, l) == GroupVnrs(vnrs, nodes, routes, m)
  {
    hide GroupNode;
    forall i | 0 <= i < |vnrs|
      ensures GroupNodes(NodesOf(vnrs[i], nodes), routes, l) == GroupNodes(NodesOf(vnrs[i], nodes), routes, m)
    {
      var own := NodesOf(vnrs[i], nodes);
      forall j | 0 <= j < |own|
        ensures GroupNode(own[j], routes, l) == GroupNode(own[j], routes, m)
      {
        assert own[j] in own && vnrs[i] in vnrs;
      }
    }
  }

  /** Without a tie that shows, any rearrangement of the records gives the very same model. */
  lemma ModelIsDetermined(t: Topology, u: Topology)
    requires UniqueInputs(t) && Rearranged(t, u) && (forall x, y :: !TopTie(t, x, y))
    ensures ModelOf(t) == ModelOf(u)
  {
    hide SortVnrs, SortNodes, SortRoutes, SortIds, SortEdges, SortEntities, OrphanNodes, OrphanRoutes, TopTie;
    hide GroupVnrs, GroupNodes, Entities, Links, NodeIds, RouteIds, UniqueInputs, LatestRuntime, RoutesOf;
    var l, m := LatestRuntime(t.runtime), LatestRuntime(u.runtime);
    var vnrs, nodes, routes := SortVnrs(t.vnrs), SortNodes(t.nodes), SortRoutes(t.routes);
    SortingForgetsOrder(t, u);
    SortedInputs(t);
    forall n | n in nodes && HasVnr(vnrs, n.vnrName)
      ensures GroupNode(n, routes, l) == GroupNode(n, routes, m)
    {
      assert Shows(t, n.id);
      ShownLatestAgrees(t, u, n.id);
    }
    GroupsAgree(vnrs, nodes, routes, l, m);
    LayoutIgnoresRuntime(vnrs, nodes, routes, l, m);
  }

  lemma ToFront(entries: seq<Runtime>, x: Runtime) returns (front: seq<Runtime>)
    requires x in entries
    ensures multiset(front) == multiset(entries) && front != [] && front[0] == x
  {
    var i :| 0 <= i < |entries| && entries[i] == x;
    front := [x] + entries[..i] + entries[i + 1..];
    assert entries == entries[..i] + [x] + entries[i + 1..];
  }

  lemma FrontIsKept(entries: seq<Runtime>, x: Runtime)
    requires entries != [] && entries[0] == x && (forall z :: z in entries && z.nodeId == x.nodeId ==> NotAfter(z, x))
    ensures x.nodeId in LatestRuntime(entries) && LatestRuntime(entries)[x.nodeId] == x
  {
    hide TieBreaker, LatestRuntime, CompareText;
    LatestRuntimeKeepsFirst(entries);
    KeptIsMember(TieBreaker, LatestRuntime(entries), entries);
    assert x in entries;
    var kept := LatestRuntime(entries)[x.nodeId];
    CompareTextOrder(TieBreaker(x), TieBreaker(kept));
    var i :| FirstAt(TieBreaker, entries, kept, i);
  }

  lemma GroupsDiffer(vnrs: seq<Vnr>, nodes: seq<Node>, routes: seq<Route>, l: map<string, Runtime>,
                     m: map<string, Runtime>, n: Node)
    requires n in nodes && HasVnr(vnrs, n.vnrName) && n.id in l && n.id in m && l[n.id] != m[n.id]
    ensures GroupVnrs(vnrs, nodes, routes, l) != GroupVnrs(vnrs, nodes, routes, m)
  {
    var i :| 0 <= i < |vnrs| && vnrs[i].name == n.vnrName;
    var own := NodesOf(vnrs[i], nodes);
    var j :| 0 <= j < |own| && own[j] == n;
    assert GroupVnrs(vnrs, nodes, routes, l)[i].nodes[j].runtime == Some(l[n.id]);
    assert GroupVnrs(vnrs, nodes, routes, m)[i].nodes[j].runtime == Some(m[n.id]);
  }

  lemma ModelHasGroups(t: Topology)
    ensures ModelOf(t).vnrs
            == GroupVnrs(SortVnrs(t.vnrs), SortNodes(t.nodes), SortRoutes(t.routes), LatestRuntime(t.runtime))
  {
    hide SortVnrs, SortNodes, SortRoutes, SortIds, SortEdges, SortEntities, OrphanNodes, OrphanRoutes;
    hide GroupVnrs, GroupNodes, Entities, Links, NodeIds, RouteIds, LatestRuntime;
  }

  /** A tie that shows: listing one or the other of the tied entries first gives different models. */
  lemma TieShows(t: Topology, x: Runtime, y: Runtime) returns (u: Topology, v: Topology)
    requires TopTie(t, x, y)
    ensures Rearranged(t, u) && Rearranged(t, v) && ModelOf(u) != ModelOf(v)
  {
    hide ModelOf, GroupVnrs, LatestRuntime, SortVnrs, SortNodes, SortRoutes, TieBreaker, CompareText;
    var a := ToFront(t.runtime, x);
    var b := ToFront(t.runtime, y);
    u, v := t.(runtime := a), t.(runtime := b);
    SameMembers(a, t.runtime);
    SameMembers(b, t.runtime);
    FrontIsKept(a, x);
    FrontIsKept(b, y);
    SortedInputs(t);
    var n :| n in t.nodes && n.id == x.nodeId && HasVnr(t.vnrs, n.vnrName);
    ModelHasGroups(u);
    ModelHasGroups(v);
    GroupsDiffer(SortVnrs(t.vnrs), SortNodes(t.nodes), SortRoutes(t.routes), LatestRuntime(a), LatestRuntime(b), n);
  }

  /** The model forgets the order of its input exactly when no tie shows. */
  lemma OrderIsForgottenUnlessTied(t: Topology)
    requires UniqueInputs(t)
    ensures (forall u :: Rearranged(t, u) ==> ModelOf(u) == ModelOf(t)) <==> !exists x, y :: TopTie(t, x, y)
  {
    hide ModelOf, TopTie, UniqueInputs, Rearranged;
    if x, y :| TopTie(t, x, y) {
      var u, v := TieShows(t, x, y);
    } else {
      forall u | Rearranged(t, u)
        ensures ModelOf(u) == ModelOf(t)
      {
        ModelIsDetermined(t, u);
      }
    }
  }

  /** Ties can show: an endpoint that is absent and one that is empty join to the same text. */
  lemma TiesAreTold() returns (t: Topology, x: Runtime, y: Runtime)
    ensures UniqueInputs(t) && TopTie(t, x, y) && y == x.(observedEndpoint := Some("")) && x.observedEndpoint.None?
  {
    hide TieBreaker, CompareText;
    var id, at := "018f8d95b0f74d669f16a606fa9c87e2", "2026-07-20T12:34:56Z";
    x := Runtime(id, at, "online", "established", "warm", None, Some(at), Some(at));
    y := x.(observedEndpoint := Some(""));
    var v, n := Vnr("berlin", "10.42.0.0/24", "10.42.0.1"), Node(id, "edge-berlin-01", "10.42.0.2", "berlin");
    t := Topology(7, at, [v], [n], [], [x, y]);
    TieBreaksEqual(x, y);
    CompareTextOrder(TieBreaker(x), TieBreaker(y));
    CompareTextOrder(TieBreaker(x), TieBreaker(x));
    assert v in t.vnrs && n in t.nodes && HasVnr(t.vnrs, n.vnrName);
  }

  lemma TieBreaksEqual(x: Runtime, y: Runtime)
    requires x.observedEndpoint.None? && y == x.(observedEndpoint := Some(""))
    ensures TieBreaker(x) == TieBreaker(y)
  {
  }
}
