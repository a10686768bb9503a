/** The topology model of `topology.ts`: sorting, grouping, and one row per leaf of the tree. */
module TopologyLayout {
  import opened Wrappers
  import opened Records
  import opened Ordering

  datatype Kind = Master | OfVnr | OfNode | OfRoute
  datatype EdgeKind = Contains | Owns

  datatype Entity = Entity(
    entityId: string, key: string, kind: Kind, text: string, parentKey: Option<string>, x: int, y: real)
  datatype Edge = Edge(key: string, kind: EdgeKind, sourceKey: string, targetKey: string)

  datatype NodeModel = NodeModel(node: Node, routes: seq<Route>, runtime: Option<Runtime>)
  datatype VnrModel = VnrModel(vnr: Vnr, nodes: seq<NodeModel>)

  datatype Model = Model(
    edges: seq<Edge>, entities: seq<Entity>, generation: int, observedAt: string,
    orphanNodeIds: seq<string>, orphanRouteIds: seq<string>, vnrs: seq<VnrModel>)

  const ROW_GAP: real := 72.0

  function ColumnX(kind: Kind): int {
    match kind
    case Master => 48
    case OfVnr => 304
    case OfNode => 592
    case OfRoute => 880
  }

  function KeyOf(kind: Kind, id: string): string {
    match kind
    case Master => "master"
    case OfVnr => "vnr:" + id
    case OfNode => "node:" + id
    case OfRoute => "route:" + id
  }

  // ---------- Runtime ----------

  function OrEmpty(text: Option<string>): string {
    if text.None? then "" else text.value
  }

  function TieBreaker(r: Runtime): string {
    r.observedAt + "\0" + r.liveness + "\0" + r.sessionState + "\0" + r.trafficState + "\0"
    + OrEmpty(r.observedEndpoint) + "\0" + OrEmpty(r.authenticatedRxAt) + "\0" + OrEmpty(r.authenticatedTxAt)
  }

  /** The entry is the first of its node, or its text compares greater than that of the entry kept so far. */
  predicate Beats(text: Runtime -> string, kept: map<string, Runtime>, r: Runtime) {
    r.nodeId !in kept || CompareText(text(kept[r.nodeId]), text(r)) < 0
  }

  function Keep(text: Runtime -> string, kept: map<string, Runtime>, r: Runtime): map<string, Runtime> {
    if Beats(text, kept, r) then kept[r.nodeId := r] else kept
  }

  function LatestRuntime(entries: seq<Runtime>): map<string, Runtime> {
    if entries == [] then map[]
    else Keep(TieBreaker, LatestRuntime(entries[..|entries| - 1]), entries[|entries| - 1])
  }

  /** `latestRuntimeByNode`. */
  method LatestRuntimeByNode(entries: seq<Runtime>) returns (result: map<string, Runtime>)
    ensures result == LatestRuntime(entries)
  {
    result := map[];
    for i := 0 to |entries|
      invariant result == LatestRuntime(entries[..i])
    {
      assert entries[..i + 1][..i] == entries[..i];
      if Beats(TieBreaker, result, entries[i]) {
        result := result[entries[i].nodeId := entries[i]];
      }
    }
    assert entries[..|entries|] == entries;
  }

  // ---------- Grouping ----------

  function VnrKey(v: Vnr): Key { (v.name, v.cidr) }

  function NodeKey(n: Node): Key { (n.name, n.id) }

  function RouteKey(r: Route): Key { (r.prefix, r.id) }

  function IdKey(id: string): Key { (id, "") }

  function SortVnrs(vnrs: seq<Vnr>): seq<Vnr> { SortOn(VnrKey, vnrs) }

  function SortNodes(nodes: seq<Node>): seq<Node> { SortOn(NodeKey, nodes) }

  function SortRoutes(routes: seq<Route>): seq<Route> { SortOn(RouteKey, routes) }

  function SortIds(ids: seq<string>): seq<string> { SortOn(IdKey, ids) }

  function NodesOf(vnr: Vnr, nodes: seq<Node>): (r: seq<Node>)
    ensures forall n :: n in r <==> n in nodes && n.vnrName == vnr.name
  {
    Filter((n: Node) => n.vnrName == vnr.name, nodes)
  }

  function RoutesOf(id: string, routes: seq<Route>): (rs: seq<Route>)
    ensures forall r :: r in rs <==> r in routes && r.nodeId == id
  {
    Filter((r: Route) => r.nodeId == id, routes)
  }

  function GroupNode(node: Node, routes: seq<Route>, latest: map<string, Runtime>): NodeModel {
    NodeModel(node, RoutesOf(node.id, routes), if node.id in latest then Some(latest[node.id]) else None)
  }

  function GroupNodes(nodes: seq<Node>, routes: seq<Route>, latest: map<string, Runtime>): (models: seq<NodeModel>)
    ensures |models| == |nodes| && (forall i :: 0 <= i < |nodes| ==> models[i] == GroupNode(nodes[i], routes, latest))
  {
    seq(|nodes|, i requires 0 <= i < |nodes| => GroupNode(nodes[i], routes, latest))
  }

  function GroupVnrs(vnrs: seq<Vnr>, nodes: seq<Node>, routes: seq<Route>,
                     latest: map<string, Runtime>): (models: seq<VnrModel>)
    ensures |models| == |vnrs|
    ensures forall i :: 0 <= i < |vnrs| ==>
              models[i] == VnrModel(vnrs[i], GroupNodes(NodesOf(vnrs[i], nodes), routes, latest))
  {
    seq(|vnrs|, i requires 0 <= i < |vnrs| => VnrModel(vnrs[i], GroupNodes(NodesOf(vnrs[i], nodes), routes, latest)))
  }

  predicate HasVnr(vnrs: seq<Vnr>, name: string) {
    exists v :: v in vnrs && v.name == name
  }

  predicate HasNode(nodes: seq<Node>, id: string) {
    exists n :: n in nodes && n.id == id
  }

  function OrphanNodes(vnrs: seq<Vnr>, nodes: seq<Node>): (r: seq<Node>)
    ensures forall n :: n in r <==> n in nodes && !HasVnr(vnrs, n.vnrName)
  {
    Filter((n: Node) => !HasVnr(vnrs, n.vnrName), nodes)
  }

  function OrphanRoutes(nodes: seq<Node>, routes: seq<Route>): (rs: seq<Route>)
    ensures forall r :: r in rs <==> r in routes && !HasNode(nodes, r.nodeId)
  {
    Filter((r: Route) => !HasNode(nodes, r.nodeId), routes)
  }

  // ---------- Rows ----------

  /** The midpoint of the first and the last row of a group. */
  function Center(rows: seq<real>): real {
    if rows == [] then 0.0 else (rows[0] + rows[|rows| - 1]) / 2.0
  }

  function RowY(row: nat): real {
    row as real * ROW_GAP
  }

  function RouteEntity(route: Route, parentKey: Option<string>, row: nat): Entity {
    Entity(route.id, KeyOf(OfRoute, route.id), OfRoute, route.prefix, parentKey, ColumnX(OfRoute), RowY(row))
  }

  function RouteEntities(routes: seq<Route>, parentKey: Option<string>, row: nat): seq<Entity> {
    if routes == [] then []
    else
      var last := |routes| - 1;
      RouteEntities(routes[..last], parentKey, row) + [RouteEntity(routes[last], parentKey, row + last)]
  }

  function NodeRows(n: NodeModel): nat {
    if n.routes == [] then 1 else |n.routes|
  }

  function NodeY(n: NodeModel, row: nat): real {
    (RowY(row) + RowY(row + NodeRows(n) - 1)) / 2.0
  }

  function NodeEntity(n: NodeModel, parentKey: Option<string>, row: nat): Entity {
    Entity(n.node.id, KeyOf(OfNode, n.node.id), OfNode, n.node.name, parentKey, ColumnX(OfNode), NodeY(n, row))
  }

  function NodePart(n: NodeModel, parentKey: Option<string>, row: nat): seq<Entity> {
    RouteEntities(n.routes, Some(KeyOf(OfNode, n.node.id)), row) + [NodeEntity(n, parentKey, row)]
  }

  function NodesRows(ns: seq<NodeModel>): nat {
    if ns == [] then 0 else NodesRows(ns[..|ns| - 1]) + NodeRows(ns[|ns| - 1])
  }

  function NodesPart(ns: seq<NodeModel>, parentKey: Option<string>, row: nat): seq<Entity> {
    if ns == [] then []
    else
      var last := |ns| - 1;
      NodesPart(ns[..last], parentKey, row) + NodePart(ns[last], parentKey, row + NodesRows(ns[..last]))
  }

  function NodesYs(ns: seq<NodeModel>, row: nat): (ys: seq<real>)
    ensures |ys| == |ns|
  {
    if ns == [] then []
    else
      var last := |ns| - 1;
      NodesYs(ns[..last], row) + [NodeY(ns[last], row + NodesRows(ns[..last]))]
  }

  function VnrRows(v: VnrModel): nat {
    if v.nodes == [] then 1 else NodesRows(v.nodes)
  }

  function VnrY(v: VnrModel, row: nat): real {
    Center(if v.nodes == [] then [RowY(row)] else NodesYs(v.nodes, row))
  }

  function VnrEntity(v: VnrModel, row: nat): Entity {
    Entity(v.vnr.name, KeyOf(OfVnr, v.vnr.name), OfVnr, v.vnr.name, Some("master"), ColumnX(OfVnr), VnrY(v, row))
  }

  function VnrPart(v: VnrModel, row: nat): seq<Entity> {
    NodesPart(v.nodes, Some(KeyOf(OfVnr, v.vnr.name)), row) + [VnrEntity(v, row)]
  }

  function VnrsRows(vs: seq<VnrModel>): nat {
    if vs == [] then 0 else VnrsRows(vs[..|vs| - 1]) + VnrRows(vs[|vs| - 1])
  }

  function VnrsPart(vs: seq<VnrModel>): seq<Entity> {
    if vs == [] then []
    else VnrsPart(vs[..|vs| - 1]) + VnrPart(vs[|vs| - 1], VnrsRows(vs[..|vs| - 1]))
  }

  function VnrsYs(vs: seq<VnrModel>): seq<real> {
    if vs == [] then []
    else VnrsYs(vs[..|vs| - 1]) + [VnrY(vs[|vs| - 1], VnrsRows(vs[..|vs| - 1]))]
  }

  function MasterEntity(vs: seq<VnrModel>): Entity {
    Entity("master", "master", Master, "Master", None, ColumnX(Master), Center(VnrsYs(vs)))
  }

  /** All entities in the order in which they are laid out. */
  function Entities(vs: seq<VnrModel>, orphanNodes: seq<NodeModel>, orphanRoutes: seq<Route>): seq<Entity> {
    VnrsPart(vs)
    + NodesPart(orphanNodes, None, VnrsRows(vs))
    + RouteEntities(orphanRoutes, None, VnrsRows(vs) + NodesRows(orphanNodes))
    + [MasterEntity(vs)]
  }

  /** The edge from the parent of an entity, if it has one. */
  function LinkOf(e: Entity): seq<Edge> {
    if e.parentKey.None? then []
    else
      var kind := if e.kind == OfRoute then Owns else Contains;
      [Edge(e.parentKey.value + "->" + e.key, kind, e.parentKey.value, e.key)]
  }

  function Links(es: seq<Entity>): seq<Edge> {
    if es == [] then [] else Links(es[..|es| - 1]) + LinkOf(es[|es| - 1])
  }

  function EntityKey(e: Entity): Key { (e.key, "") }

  function EdgeKey(e: Edge): Key { (e.key, "") }

  function SortEntities(es: seq<Entity>): seq<Entity> { SortOn(EntityKey, es) }

  function SortEdges(es: seq<Edge>): seq<Edge> { SortOn(EdgeKey, es) }

  function NodeIds(nodes: seq<Node>): (ids: seq<string>)
    ensures |ids| == |nodes| && (forall i :: 0 <= i < |nodes| ==> ids[i] == nodes[i].id)
  {
    seq(|nodes|, i requires 0 <= i < |nodes| => nodes[i].id)
  }

  function RouteIds(routes: seq<Route>): (ids: seq<string>)
    ensures |ids| == |routes| && (forall i :: 0 <= i < |routes| ==> ids[i] == routes[i].id)
  {
    seq(|routes|, i requires 0 <= i < |routes| => routes[i].id)
  }

  function ModelOf(t: Topology): Model {
    var vnrs, nodes, routes := SortVnrs(t.vnrs), SortNodes(t.nodes), SortRoutes(t.routes);
    var latest := LatestRuntime(t.runtime);
    var orphanNodes, orphanRoutes := OrphanNodes(vnrs, nodes), OrphanRoutes(nodes, routes);
    var models := GroupVnrs(vnrs, nodes, routes, latest);
    var entities := Entities(models, GroupNodes(orphanNodes, routes, latest), orphanRoutes);
    Model(SortEdges(Links(entities)), SortEntities(entities), t.generation, t.observedAt,
          SortIds(NodeIds(orphanNodes)), SortIds(RouteIds(orphanRoutes)), models)
  }
}
