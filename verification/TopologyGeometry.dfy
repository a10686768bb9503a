/** The rows of the drawing: the entities of a column follow each other downwards, one row apart. */
module TopologyGeometry {
  import opened Wrappers
  import opened Records
  import opened TopologyLayout

  // ---------- Distance ----------

  /** All entities lie in the rows from `low` up to, not including, `high`. */
  ghost predicate Within(es: seq<Entity>, low: nat, high: nat) {
    forall i :: 0 <= i < |es| ==> RowY(low) <= es[i].y <= RowY(high) - ROW_GAP
  }

  /** Entities of one kind follow each other downwards, at least one row apart. */
  ghost predicate Stacked(es: seq<Entity>) {
    forall i, j :: 0 <= i < j < |es| && es[i].kind == es[j].kind ==> es[i].y + ROW_GAP <= es[j].y
  }

  lemma RowsApart(a: nat, b: nat)
    requires a < b
    ensures RowY(a) + ROW_GAP <= RowY(b)
  {
  }

  lemma RowsOrdered(a: nat, b: nat)
    requires a <= b
    ensures RowY(a) <= RowY(b)
  {
  }

  lemma StackedBoth(a: seq<Entity>, b: seq<Entity>, low: nat, middle: nat, high: nat)
    requires low <= middle <= high
    requires Stacked(a) && Within(a, low, middle) && Stacked(b) && Within(b, middle, high)
    ensures Stacked(a + b) && Within(a + b, low, high)
  {
    RowsOrdered(low, middle);
    RowsOrdered(middle, high);
  }

  /** An entity that is the only one of its kind may lie anywhere. */
  lemma StackedWithOne(a: seq<Entity>, e: Entity)
    requires Stacked(a) && (forall i :: 0 <= i < |a| ==> a[i].kind != e.kind)
    ensures Stacked(a + [e])
  {
  }

  lemma {:induction false} RoutesStacked(routes: seq<Route>, parentKey: Option<string>, row: nat)
    ensures var es := RouteEntities(routes, parentKey, row);
            && |es| == |routes|
            && (forall i :: 0 <= i < |es| ==> es[i] == RouteEntity(routes[i], parentKey, row + i))
            && Within(es, row, row + |routes|) && Stacked(es)
  {
    if routes != [] {
      var last := |routes| - 1;
      RoutesStacked(routes[..last], parentKey, row);
      var es := [RouteEntity(routes[last], parentKey, row + last)];
      RowsApart(row + last, row + last + 1);
      StackedBoth(RouteEntities(routes[..last], parentKey, row), es, row, row + last, row + last + 1);
    }
  }

  lemma NodeYWithin(n: NodeModel, row: nat)
    ensures RowY(row) <= NodeY(n, row) <= RowY(row + NodeRows(n)) - ROW_GAP
  {
  }

  lemma NodeStacked(n: NodeModel, parentKey: Option<string>, row: nat)
    ensures Within(NodePart(n, parentKey, row), row, row + NodeRows(n)) && Stacked(NodePart(n, parentKey, row))
    ensures forall i :: 0 <= i < |NodePart(n, parentKey, row)| ==>
            NodePart(n, parentKey, row)[i].kind in {OfRoute, OfNode}
  {
    hide NodeY, NodeRows, RouteEntities;
    var routes := RouteEntities(n.routes, Some(KeyOf(OfNode, n.node.id)), row);
    RoutesStacked(n.routes, Some(KeyOf(OfNode, n.node.id)), row);
    NodeRowsAtLeastRoutes(n);
    RowsOrdered(row + |n.routes|, row + NodeRows(n));
    NodeYWithin(n, row);
    StackedWithOne(routes, NodeEntity(n, parentKey, row));
  }

  lemma NodeRowsAtLeastRoutes(n: NodeModel)
    ensures |n.routes| <= NodeRows(n) && 1 <= NodeRows(n)
  {
  }

  lemma {:induction false} NodesStacked(ns: seq<NodeModel>, parentKey: Option<string>, row: nat)
    ensures Within(NodesPart(ns, parentKey, row), row, row + NodesRows(ns)) && Stacked(NodesPart(ns, parentKey, row))
    ensures forall i :: 0 <= i < |NodesPart(ns, parentKey, row)| ==>
            NodesPart(ns, parentKey, row)[i].kind in {OfRoute, OfNode}
  {
    hide NodePart, Within, Stacked;
    if ns == [] {
      NothingStacked(row);
    } else {
      var last := |ns| - 1;
      var middle := row + NodesRows(ns[..last]);
      NodesStacked(ns[..last], parentKey, row);
      NodeStacked(ns[last], parentKey, middle);
      StackedBoth(NodesPart(ns[..last], parentKey, row), NodePart(ns[last], parentKey, middle),
                  row, middle, row + NodesRows(ns));
    }
  }

  lemma NothingStacked(row: nat)
    ensures Within([], row, row) && Stacked([])
  {
  }

  lemma {:induction false} NodesYsWithin(ns: seq<NodeModel>, row: nat)
    ensures forall i :: 0 <= i < |ns| ==> RowY(row) <= NodesYs(ns, row)[i] <= RowY(row + NodesRows(ns)) - ROW_GAP
  {
    hide NodeY;
    if ns != [] {
      var last := |ns| - 1;
      var middle := row + NodesRows(ns[..last]);
      NodesYsWithin(ns[..last], row);
      NodeYWithin(ns[last], middle);
      RowsOrdered(row, middle);
      RowsOrdered(middle, row + NodesRows(ns));
    }
  }

  lemma VnrYWithin(v: VnrModel, row: nat)
    ensures RowY(row) <= VnrY(v, row) <= RowY(row + VnrRows(v)) - ROW_GAP
  {
    NodesYsWithin(v.nodes, row);
    RowsApart(row, row + 1);
  }

  lemma VnrStacked(v: VnrModel, row: nat)
    ensures Within(VnrPart(v, row), row, row + VnrRows(v)) && Stacked(VnrPart(v, row))
    ensures forall i :: 0 <= i < |VnrPart(v, row)| ==> VnrPart(v, row)[i].kind != Master
  {
    hide VnrY, NodesPart, NodesRows;
    var parentKey := Some(KeyOf(OfVnr, v.vnr.name));
    NodesStacked(v.nodes, parentKey, row);
    VnrYWithin(v, row);
    VnrRowsAtLeastNodes(v);
    RowsOrdered(row + NodesRows(v.nodes), row + VnrRows(v));
    StackedWithOne(NodesPart(v.nodes, parentKey, row), VnrEntity(v, row));
  }

  lemma VnrRowsAtLeastNodes(v: VnrModel)
    ensures NodesRows(v.nodes) <= VnrRows(v)
  {
  }

  lemma {:induction false} VnrsStacked(vs: seq<VnrModel>)
    ensures Within(VnrsPart(vs), 0, VnrsRows(vs)) && Stacked(VnrsPart(vs))
    ensures forall i :: 0 <= i < |VnrsPart(vs)| ==> VnrsPart(vs)[i].kind != Master
  {
    hide VnrPart, Within, Stacked;
    if vs == [] {
      NothingStacked(0);
    } else {
      var last := |vs| - 1;
      var middle := VnrsRows(vs[..last]);
      VnrsStacked(vs[..last]);
      VnrStacked(vs[last], middle);
      StackedBoth(VnrsPart(vs[..last]), VnrPart(vs[last], middle), 0, middle, VnrsRows(vs));
    }
  }

  /** In every column of the drawing, entities are at least one row gap apart. */
  lemma EntitiesStacked(vs: seq<VnrModel>, orphanNodes: seq<NodeModel>, orphanRoutes: seq<Route>)
    ensures Stacked(Entities(vs, orphanNodes, orphanRoutes))
  {
    hide VnrsPart, NodesPart, RouteEntities, VnrsRows, NodesRows, Within, Stacked;
    var a := VnrsRows(vs);
    var b := a + NodesRows(orphanNodes);
    var c := b + |orphanRoutes|;
    VnrsStacked(vs);
    NodesStacked(orphanNodes, None, a);
    RoutesStacked(orphanRoutes, None, b);
    StackedBoth(VnrsPart(vs), NodesPart(orphanNodes, None, a), 0, a, b);
    StackedBoth(VnrsPart(vs) + NodesPart(orphanNodes, None, a), RouteEntities(orphanRoutes, None, b), 0, b, c);
    StackedWithOne(VnrsPart(vs) + NodesPart(orphanNodes, None, a) + RouteEntities(orphanRoutes, None, b),
                   MasterEntity(vs));
  }
}
