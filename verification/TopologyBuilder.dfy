/** `createTopologyModel` as it runs: a row counter and lists that grow, proved equal to the layout functions. */
module TopologyBuilder {
  import opened Wrappers
  import opened Records
  import opened TopologyLayout

  lemma {:induction false} LinksOfConcat(a: seq<Entity>, b: seq<Entity>)
    ensures Links(a + b) == Links(a) + Links(b)
  {
    hide LinkOf;
    if b == [] {
      assert a + b == a;
    } else {
      var last := |b| - 1;
      assert (a + b)[..|a + b| - 1] == a + b[..last];
      LinksOfConcat(a, b[..last]);
    }
  }

  lemma LinksOfSnoc(a: seq<Entity>, e: Entity)
    ensures Links(a + [e]) == Links(a) + LinkOf(e)
  {
    assert (a + [e])[..|a|] == a;
  }

  lemma NodesSnoc(ns: seq<NodeModel>, i: nat, parentKey: Option<string>, row: nat)
    requires i < |ns|
    ensures var before := row + NodesRows(ns[..i]);
            && NodesRows(ns[..i + 1]) == NodesRows(ns[..i]) + NodeRows(ns[i])
            && NodesPart(ns[..i + 1], parentKey, row)
              == NodesPart(ns[..i], parentKey, row) + NodePart(ns[i], parentKey, before)
            && NodesYs(ns[..i + 1], row) == NodesYs(ns[..i], row) + [NodeY(ns[i], before)]
  {
    hide NodeRows, NodeY, NodePart;
    assert ns[..i + 1][..i] == ns[..i];
  }

  lemma RoutesSnoc(routes: seq<Route>, i: nat, parentKey: Option<string>, row: nat)
    requires i < |routes|
    ensures RouteEntities(routes[..i + 1], parentKey, row) ==
            RouteEntities(routes[..i], parentKey, row) + [RouteEntity(routes[i], parentKey, row + i)]
  {
    assert routes[..i + 1][..i] == routes[..i];
  }

  lemma NoNodes(ns: seq<NodeModel>, parentKey: Option<string>, row: nat)
    ensures ns == [] ==> NodesRows(ns) == 0 && NodesYs(ns, row) == [] && NodesPart(ns, parentKey, row) == []
  {
  }

  /** The lists under construction: the entities so far and the edges to those that have a parent. */
  class Drawing {
    var entities: seq<Entity>
    var edges: seq<Edge>
    var row: nat

    constructor ()
      ensures entities == [] && edges == [] && row == 0
    {
      entities, edges, row := [], [], 0;
    }

    ghost predicate Linked()
      reads this
    {
      edges == Links(entities)
    }

    /** Push an entity, and the edge from its parent. */
    method Push(e: Entity)
      requires Linked()
      modifies `entities, `edges
      ensures Linked() && entities == old(entities) + [e]
    {
      LinksOfSnoc(entities, e);
      entities := entities + [e];
      edges := edges + LinkOf(e);
    }

    /** One row per route, or one empty row for a node without routes. */
    method PlaceRoutes(nodeKey: string, n: NodeModel) returns (nodeY: real)
      requires Linked() && nodeKey == KeyOf(OfNode, n.node.id)
      modifies this
      ensures Linked() && row == old(row) + NodeRows(n)
      ensures entities == old(entities) + RouteEntities(n.routes, Some(nodeKey), old(row))
      ensures nodeY == NodeY(n, old(row))
    {
      hide Links, LinkOf;
      var routeRows: seq<real> := [];
      if n.routes == [] {
        routeRows := [RowY(row)];
        row := row + 1;
      } else {
        for i := 0 to |n.routes|
          invariant Linked() && row == old(row) + i
          invariant entities == old(entities) + RouteEntities(n.routes[..i], Some(nodeKey), old(row))
          invariant |routeRows| == i && (forall k :: 0 <= k < i ==> routeRows[k] == RowY(old(row) + k))
        {
          RoutesSnoc(n.routes, i, Some(nodeKey), old(row));
          routeRows := routeRows + [RowY(row)];
          Push(RouteEntity(n.routes[i], Some(nodeKey), row));
          row := row + 1;
        }
        assert n.routes[..|n.routes|] == n.routes;
      }
      nodeY := Center(routeRows);
    }

    method PlaceNode(n: NodeModel, parentKey: Option<string>) returns (nodeY: real)
      requires Linked()
      modifies this
      ensures Linked() && row == old(row) + NodeRows(n)
      ensures entities == old(entities) + NodePart(n, parentKey, old(row))
      ensures nodeY == NodeY(n, old(row))
    {
      var nodeKey := KeyOf(OfNode, n.node.id);
      nodeY := PlaceRoutes(nodeKey, n);
      Push(Entity(n.node.id, nodeKey, OfNode, n.node.name, parentKey, ColumnX(OfNode), nodeY));
    }

    method PlaceNodes(ns: seq<NodeModel>, parentKey: Option<string>) returns (nodeRows: seq<real>)
      requires Linked()
      modifies this
      ensures Linked() && row == old(row) + NodesRows(ns)
      ensures entities == old(entities) + NodesPart(ns, parentKey, old(row))
      ensures nodeRows == NodesYs(ns, old(row))
    {
      hide NodeRows, NodeY, NodePart, Links;
      nodeRows := [];
      assert ns[..0] == [];
      for i := 0 to |ns|
        invariant Linked() && row == old(row) + NodesRows(ns[..i])
        invariant entities == old(entities) + NodesPart(ns[..i], parentKey, old(row))
        invariant nodeRows == NodesYs(ns[..i], old(row))
      {
        NodesSnoc(ns, i, parentKey, old(row));
        var nodeY := PlaceNode(ns[i], parentKey);
        nodeRows := nodeRows + [nodeY];
      }
      assert ns[..|ns|] == ns;
    }

    method PlaceVnr(v: VnrModel) returns (vnrY: real)
      requires Linked()
      modifies this
      ensures Linked() && row == old(row) + VnrRows(v)
      ensures entities == old(entities) + VnrPart(v, old(row))
      ensures vnrY == VnrY(v, old(row))
    {
      hide NodesPart, NodesRows, NodesYs, Links, LinkOf, KeyOf;
      var vnrKey := KeyOf(OfVnr, v.vnr.name);
      NoNodes(v.nodes, Some(vnrKey), row);
      NoNodes(v.nodes, Some(vnrKey), row + 1);
      var emptyRow: seq<real> := [];
      if v.nodes == [] {
        emptyRow := [RowY(row)];
        row := row + 1;
      }
      var nodeRows := PlaceNodes(v.nodes, Some(vnrKey));
      vnrY := Center(emptyRow + nodeRows);
      Push(Entity(v.vnr.name, vnrKey, OfVnr, v.vnr.name, Some("master"), ColumnX(OfVnr), vnrY));
    }

    method PlaceVnrs(vs: seq<VnrModel>) returns (vnrRows: seq<real>)
      requires Linked() && entities == [] && row == 0
      modifies this
      ensures Linked() && row == VnrsRows(vs) && entities == VnrsPart(vs)
      ensures vnrRows == VnrsYs(vs)
    {
      hide VnrPart, VnrRows, VnrY, Links;
      vnrRows := [];
      assert vs[..0] == [];
      for i := 0 to |vs|
        invariant Linked() && row == VnrsRows(vs[..i]) && entities == VnrsPart(vs[..i])
        invariant vnrRows == VnrsYs(vs[..i])
      {
        assert vs[..i + 1][..i] == vs[..i];
        var vnrY := PlaceVnr(vs[i]);
        vnrRows := vnrRows + [vnrY];
      }
      assert vs[..|vs|] == vs;
    }

    method PlaceOrphanRoutes(routes: seq<Route>)
      requires Linked()
      modifies this
      ensures Linked() && entities == old(entities) + RouteEntities(routes, None, old(row))
    {
      hide Links, LinkOf, RouteEntity;
      assert routes[..0] == [];
      for i := 0 to |routes|
        invariant Linked() && row == old(row) + i
        invariant entities == old(entities) + RouteEntities(routes[..i], None, old(row))
      {
        RoutesSnoc(routes, i, None, old(row));
        Push(RouteEntity(routes[i], None, row));
        row := row + 1;
      }
      assert routes[..|routes|] == routes;
    }
  }

  /** The VNRs with their nodes, then the orphans, then the Master in the middle of the VNRs. */
  method Draw(vs: seq<VnrModel>, orphanNodes: seq<NodeModel>, orphanRoutes: seq<Route>)
    returns (entities: seq<Entity>, edges: seq<Edge>)
    ensures entities == Entities(vs, orphanNodes, orphanRoutes)
    ensures edges == Links(entities)
  {
    hide VnrsPart, NodesPart, RouteEntities, VnrsYs, VnrsRows, NodesRows, Center;
    var drawing := new Drawing();
    var vnrRows := drawing.PlaceVnrs(vs);
    var orphanRows := drawing.PlaceNodes(orphanNodes, None);
    drawing.PlaceOrphanRoutes(orphanRoutes);
    drawing.Push(Entity("master", "master", Master, "Master", None, ColumnX(Master), Center(vnrRows)));
    return drawing.entities, drawing.edges;
  }

  method CreateTopologyModel(t: Topology) returns (model: Model)
    ensures model == ModelOf(t)
  {
    hide SortVnrs, SortNodes, SortRoutes, SortIds, SortEdges, SortEntities, OrphanNodes, OrphanRoutes;
    hide GroupVnrs, GroupNodes, Entities, Links, LatestRuntime, NodeIds, RouteIds;
    var vnrs, nodes, routes := SortVnrs(t.vnrs), SortNodes(t.nodes), SortRoutes(t.routes);
    var latest := LatestRuntimeByNode(t.runtime);
    var orphanNodes, orphanRoutes := OrphanNodes(vnrs, nodes), OrphanRoutes(nodes, routes);
    var models := GroupVnrs(vnrs, nodes, routes, latest);
    var entities, edges := Draw(models, GroupNodes(orphanNodes, routes, latest), orphanRoutes);
    model := Model(SortEdges(edges), SortEntities(entities), t.generation, t.observedAt,
                   SortIds(NodeIds(orphanNodes)), SortIds(RouteIds(orphanRoutes)), models);
  }
}
