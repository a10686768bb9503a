/** The filters of the topology page (`topology-workspace.tsx`). */
module TopologyFilter {
  import opened Records
  import opened Ordering
  import opened TopologyLayout

  const ALL := "all"

  /** The trimmed, lower-case query and the two selections; `ALL` selects everything. */
  datatype Criteria = Criteria(query: string, vnr: string, liveness: string)

  // ---------- Latest runtime ----------

  function ObservedAt(r: Runtime): string { r.observedAt }

  /** Of each node, the first of the entries observed last, given what was found before. */
  function Observed(before: map<string, Runtime>, items: seq<Runtime>): map<string, Runtime>
    decreases |items|
  {
    if items == [] then before
    else Observed(Keep(ObservedAt, before, items[0]), items[1..])
  }

  /** `latestRuntime`. */
  method LatestObserved(items: seq<Runtime>) returns (result: map<string, Runtime>)
    ensures result == Observed(map[], items)
  {
    result := map[];
    for i := 0 to |items|
      invariant Observed(result, items[i..]) == Observed(map[], items)
    {
      assert items[i..][0] == items[i] && items[i..][1..] == items[i + 1..];
      if Beats(ObservedAt, result, items[i]) {
        result := result[items[i].nodeId := items[i]];
      }
    }
  }

  function LivenessOf(latest: map<string, Runtime>, id: string): string {
    if id in latest then latest[id].liveness else "unknown"
  }

  // ---------- Routes of nodes ----------

  function RoutesFor(byNode: map<string, seq<Route>>, id: string): seq<Route> {
    if id in byNode then byNode[id] else []
  }

  lemma RoutesOfSnoc(routes: seq<Route>, i: nat, id: string)
    requires i < |routes|
    ensures RoutesOf(id, routes[..i + 1])
            == RoutesOf(id, routes[..i]) + if routes[i].nodeId == id then [routes[i]] else []
  {
    assert routes[..i + 1] == routes[..i] + [routes[i]];
    FilterSnoc((r: Route) => r.nodeId == id, routes[..i], routes[i]);
  }

  /** `routeByNode`: the routes of each node, in their order. */
  method RouteByNode(routes: seq<Route>) returns (byNode: map<string, seq<Route>>)
    ensures forall id :: RoutesFor(byNode, id) == RoutesOf(id, routes)
  {
    hide RoutesOf;
    byNode := map[];
    NoRoutes();
    for i := 0 to |routes|
      invariant forall id :: RoutesFor(byNode, id) == RoutesOf(id, routes[..i])
    {
      var id := routes[i].nodeId;
      ghost var before := byNode;
      byNode := byNode[id := RoutesFor(byNode, id) + [routes[i]]];
      forall other: string
        ensures RoutesFor(byNode, other) == RoutesOf(other, routes[..i + 1])
      {
        RoutesOfSnoc(routes, i, other);
        assert RoutesFor(before, other) == RoutesOf(other, routes[..i]);
      }
    }
    assert routes[..|routes|] == routes;
  }

  lemma NoRoutes()
    ensures forall id :: RoutesOf(id, []) == []
  {
  }

  // ---------- Matching ----------

  predicate FoundAt(text: string, part: string, i: nat) {
    i + |part| <= |text| && text[i..i + |part|] == part
  }

  predicate Includes(text: string, part: string) {
    exists i: nat :: i <= |text| && FoundAt(text, part, i)
  }

  /** `value.toLowerCase().includes(normalized)` for the given conversion to lower case. */
  predicate Matches(lower: string -> string, text: string, query: string) {
    Includes(lower(text), query)
  }

  /** The address range of the first VNR with the name, or nothing. */
  function CidrOf(vnrs: seq<Vnr>, name: string): string {
    if vnrs == [] then "" else if vnrs[0].name == name then vnrs[0].cidr else CidrOf(vnrs[1..], name)
  }

  predicate RouteMatches(lower: string -> string, query: string, routes: seq<Route>, id: string) {
    exists r :: r in routes && r.nodeId == id && Matches(lower, r.prefix, query)
  }

  predicate NodeMatches(lower: string -> string, query: string, t: Topology, n: Node) {
    || RouteMatches(lower, query, t.routes, n.id)
    || Matches(lower, n.id, query) || Matches(lower, n.name, query) || Matches(lower, n.address, query)
    || Matches(lower, n.vnrName, query) || Matches(lower, CidrOf(t.vnrs, n.vnrName), query)
  }

  predicate Included(lower: string -> string, c: Criteria, t: Topology, latest: map<string, Runtime>, n: Node) {
    && (c.vnr == ALL || n.vnrName == c.vnr)
    && (c.liveness == ALL || LivenessOf(latest, n.id) == c.liveness)
    && (c.query == "" || NodeMatches(lower, c.query, t, n))
  }

  predicate SomeNodeIn(nodes: seq<Node>, name: string) {
    exists n :: n in nodes && n.vnrName == name
  }

  predicate VnrIncluded(lower: string -> string, c: Criteria, included: seq<Node>, v: Vnr) {
    && (c.vnr == ALL || v.name == c.vnr)
    && (|| SomeNodeIn(included, v.name)
        || (c.query != "" && (Matches(lower, v.name, c.query) || Matches(lower, v.cidr, c.query))))
  }

  // ---------- Filtering ----------

  function IncludedNodes(lower: string -> string, c: Criteria, t: Topology): (ns: seq<Node>)
    ensures forall n :: n in ns <==> n in t.nodes && Included(lower, c, t, Observed(map[], t.runtime), n)
  {
    Filter((n: Node) => Included(lower, c, t, Observed(map[], t.runtime), n), t.nodes)
  }

  function KeptVnrs(lower: string -> string, c: Criteria, included: seq<Node>, vnrs: seq<Vnr>): (vs: seq<Vnr>)
    ensures forall v :: v in vs <==> v in vnrs && VnrIncluded(lower, c, included, v)
  {
    Filter((v: Vnr) => VnrIncluded(lower, c, included, v), vnrs)
  }

  function KeptNodes(vnrs: seq<Vnr>, included: seq<Node>): (ns: seq<Node>)
    ensures forall n :: n in ns <==> n in included && HasVnr(vnrs, n.vnrName)
  {
    Filter((n: Node) => HasVnr(vnrs, n.vnrName), included)
  }

  function KeptRoutes(nodes: seq<Node>, routes: seq<Route>): (rs: seq<Route>)
    ensures forall r :: r in rs <==> r in routes && HasNode(nodes, r.nodeId)
  {
    Filter((r: Route) => HasNode(nodes, r.nodeId), routes)
  }

  function KeptRuntime(nodes: seq<Node>, runtime: seq<Runtime>): (rs: seq<Runtime>)
    ensures forall r :: r in rs <==> r in runtime && HasNode(nodes, r.nodeId)
  {
    Filter((r: Runtime) => HasNode(nodes, r.nodeId), runtime)
  }

  function Filtered(lower: string -> string, c: Criteria, t: Topology): Topology {
    var included := IncludedNodes(lower, c, t);
    var vnrs := KeptVnrs(lower, c, included, t.vnrs);
    var nodes := KeptNodes(vnrs, included);
    Topology(t.generation, t.observedAt, vnrs, nodes, KeptRoutes(nodes, t.routes), KeptRuntime(nodes, t.runtime))
  }

  /** The test for nodes as it is made, with the routes looked up in the index. */
  predicate IncludedBy(lower: string -> string, c: Criteria, vnrs: seq<Vnr>, latest: map<string, Runtime>,
                       byNode: map<string, seq<Route>>, n: Node)
  {
    && (c.vnr == ALL || n.vnrName == c.vnr)
    && (c.liveness == ALL || LivenessOf(latest, n.id) == c.liveness)
    && (|| c.query == ""
        || (exists r :: r in RoutesFor(byNode, n.id) && Matches(lower, r.prefix, c.query))
        || (exists text ::
              text in [n.id, n.name, n.address, n.vnrName, CidrOf(vnrs, n.vnrName)] && Matches(lower, text, c.query)))
  }

  lemma IndexAgrees(lower: string -> string, c: Criteria, t: Topology, latest: map<string, Runtime>,
                    byNode: map<string, seq<Route>>, n: Node)
    requires RoutesFor(byNode, n.id) == RoutesOf(n.id, t.routes)
    ensures IncludedBy(lower, c, t.vnrs, latest, byNode, n) == Included(lower, c, t, latest, n)
  {
    hide Matches, CidrOf, LivenessOf, RoutesFor, RoutesOf;
  }

  /** `filterTopology`: runtime and routes are indexed by node once, and then looked up for every node. */
  method FilterTopology(lower: string -> string, c: Criteria, t: Topology) returns (u: Topology)
    ensures u == Filtered(lower, c, t)
  {
    hide Included, IncludedBy, KeptVnrs, KeptNodes, KeptRoutes, KeptRuntime, Observed, RoutesFor, RoutesOf;
    var latest := LatestObserved(t.runtime);
    var byNode := RouteByNode(t.routes);
    var included := Filter((n: Node) => IncludedBy(lower, c, t.vnrs, latest, byNode, n), t.nodes);
    forall n: Node
      ensures IncludedBy(lower, c, t.vnrs, latest, byNode, n) == Included(lower, c, t, latest, n)
    {
      IndexAgrees(lower, c, t, latest, byNode, n);
    }
    FilterAgrees((n: Node) => IncludedBy(lower, c, t.vnrs, latest, byNode, n),
                 (n: Node) => Included(lower, c, t, Observed(map[], t.runtime), n), t.nodes);
    var vnrs := KeptVnrs(lower, c, included, t.vnrs);
    var nodes := KeptNodes(vnrs, included);
    u := Topology(t.generation, t.observedAt, vnrs, nodes, KeptRoutes(nodes, t.routes), KeptRuntime(nodes, t.runtime));
  }
}
