/** The curves drawn for the edges: between two columns they meet at most where they start. */
module TopologyEdges {
  import opened Wrappers
  import opened Records
  import opened Ordering
  import opened TopologyLayout
  import opened TopologyConservation
  import opened TopologyProofs
  import opened TopologyReadability

  /** One coordinate of a cubic curve with the given start, control and end coordinates. */
  function Cubic(a: real, b: real, c: real, d: real, s: real): real {
    a * (1.0 - s) * (1.0 - s) * (1.0 - s) + 3.0 * b * s * (1.0 - s) * (1.0 - s)
    + 3.0 * c * s * s * (1.0 - s) + d * s * s * s
  }

  function StartX(source: Entity): real {
    (source.x + BoxWidth(source.kind)) as real
  }

  /** The path from the right side of the source box to the left side of the target box, at `0 <= s <= 1`. */
  function CurveX(source: Entity, target: Entity, s: real): real {
    var middle := (StartX(source) + target.x as real) / 2.0;
    Cubic(StartX(source), middle, middle, target.x as real, s)
  }

  function CurveY(source: Entity, target: Entity, s: real): real {
    Cubic(source.y, source.y, target.y, target.y, s)
  }

  // ---------- The shape of the curve ----------

  /** How far the curve has come from left to right. */
  function Across(s: real): real {
    1.5 * s - 1.5 * s * s + s * s * s
  }

  lemma CurveXIsAcross(a: real, b: real, s: real)
    ensures Cubic(a, (a + b) / 2.0, (a + b) / 2.0, b, s) == a + (b - a) * Across(s)
  {
    var m := (a + b) / 2.0;
    var u := 1.0 - s;
    assert 3.0 * m * s * u * u + 3.0 * m * s * s * u == 3.0 * m * s * u;
    assert u * u * u == 1.0 - 3.0 * s + 3.0 * s * s - s * s * s;
    assert s * u == s - s * s;
  }

  lemma AcrossIncreases(s: real, u: real)
    requires s < u
    ensures Across(s) < Across(u)
  {
    var k := 1.5 - 1.5 * (u + s) + u * u + u * s + s * s;
    assert Across(u) - Across(s) == (u - s) * k;
    var w := u + s - 1.0;
    assert 4.0 * k == 3.0 * w * w + 3.0 + (u - s) * (u - s);
    assert w * w >= 0.0 && (u - s) * (u - s) >= 0.0;
  }

  /** The weight of the start in the height of the curve. */
  function StartWeight(s: real): real {
    (1.0 - s) * (1.0 - s) * (1.0 + 2.0 * s)
  }

  lemma CurveYIsWeighted(a: real, b: real, s: real)
    ensures Cubic(a, a, b, b, s) == Weighted(a, b, StartWeight(s))
  {
    var u := 1.0 - s;
    assert u * u == 1.0 - 2.0 * s + s * s;
    assert StartWeight(s) == 1.0 - 3.0 * s * s + 2.0 * s * s * s;
    assert u * u * u == 1.0 - 3.0 * s + 3.0 * s * s - s * s * s;
  }

  lemma StartWeightIsFraction(s: real)
    requires 0.0 <= s <= 1.0
    ensures 0.0 <= StartWeight(s) <= 1.0
    ensures StartWeight(s) == 1.0 ==> s == 0.0
  {
    var r := s * s;
    assert 1.0 - StartWeight(s) == Times(r, 3.0 - 2.0 * s);
    TimesPositive((1.0 - s) * (1.0 - s), 1.0 + 2.0 * s);
    TimesPositive(r, 3.0 - 2.0 * s);
  }

  // ---------- Columns ----------

  lemma ParentKind(es: seq<Entity>, p: Entity, c: Entity, id: string, parentKey: Option<string>, kind: Kind,
                   parentId: string)
    requires UniqueKeys(es) && c in es && Keyed(c) && Keyed(p) && c.entityId == id && Drawn(es, c.kind, id, parentKey)
    requires ChildOf(c, p) && (parentKey.None? || parentKey == Some(KeyOf(kind, parentId)))
    ensures p.kind == kind
  {
    hide UniqueKeys, KeyOf, Drawn;
    SameParent(es, c, c.kind, id, parentKey);
    KeysTellKinds(p.kind, p.entityId, kind, parentId);
  }

  lemma ChildIsRight(t: Topology, p: Entity, c: Entity)
    requires UniqueInputs(t) && p in ModelOf(t).entities && c in ModelOf(t).entities && ChildOf(c, p)
    ensures StartX(p) < c.x as real && p.x == ColumnX(p.kind) && c.x == ColumnX(c.kind)
  {
    hide ModelOf, UniqueInputs, UniqueKeys, KeyOf, Drawn;
    EveryRecordOnce(t);
    var es := ModelOf(t).entities;
    assert StandsForRecord(p, t.vnrs, t.nodes, t.routes);
    match c.kind
    case Master =>
    case OfVnr =>
      var v :| v in t.vnrs && v.name == c.entityId;
      MasterKey();
      ParentKind(es, p, c, v.name, Some("master"), Master, "master");
    case OfNode =>
      var n :| n in t.nodes && n.id == c.entityId;
      ParentKind(es, p, c, n.id, NodeParent(t.vnrs, n), OfVnr, n.vnrName);
    case OfRoute =>
      var r :| r in t.routes && r.id == c.entityId;
      ParentKind(es, p, c, r.id, RouteParent(t.nodes, r), OfNode, r.nodeId);
  }

  // ---------- Edges and kinship ----------

  lemma {:induction false} LinksMembers(es: seq<Entity>, edge: Edge)
    ensures edge in Links(es) <==> exists c :: c in es && edge in LinkOf(c)
  {
    hide LinkOf;
    if es != [] {
      var last := |es| - 1;
      LinksMembers(es[..last], edge);
      assert es == es[..last] + [es[last]];
    }
  }

  /** There is an edge from one entity to another exactly when they are parent and child. */
  lemma EdgeMeansChild(t: Topology, p: Entity, c: Entity)
    requires UniqueInputs(t) && p in ModelOf(t).entities && c in ModelOf(t).entities
    ensures ChildOf(c, p) <==> exists e :: e in ModelOf(t).edges && e.sourceKey == p.key && e.targetKey == c.key
  {
    hide ModelOf, UniqueInputs, Links, AllDrawn, StandsForRecord, UniqueKeys, Unique;
    var es := ModelOf(t).entities;
    EdgesAreParentLinks(t);
    SameMembers(ModelOf(t).edges, Links(es));
    if ChildOf(c, p) {
      var e := LinkOf(c)[0];
      LinksMembers(es, e);
      assert e in Links(es);
    }
    if e :| e in ModelOf(t).edges && e.sourceKey == p.key && e.targetKey == c.key {
      LinksMembers(es, e);
      var d :| d in es && e in LinkOf(d);
      EveryRecordOnce(t);
      UniqueKeysIsUnique(es);
      UniqueTells(KeyOfEntity, es, d, c);
    }
  }

  // ---------- Two edges ----------

  lemma SameXSameParameter(p: Entity, c: Entity, q: Entity, d: Entity, s: real, u: real)
    requires StartX(p) == StartX(q) < c.x as real && c.x == d.x
    requires CurveX(p, c, s) == CurveX(q, d, u)
    ensures s == u
  {
    hide Across, Cubic;
    var a, b := StartX(p), c.x as real;
    CurveXIsAcross(a, b, s);
    CurveXIsAcross(a, b, u);
    if s < u { AcrossIncreases(s, u); LessOfProduct(b - a, Across(s), Across(u)); }
    if u < s { AcrossIncreases(u, s); LessOfProduct(b - a, Across(u), Across(s)); }
  }

  lemma LessOfProduct(k: real, x: real, y: real)
    requires k > 0.0 && x < y
    ensures k * x < k * y
  {
    TimesPositive(k, y - x);
  }

  function Times(x: real, y: real): real {
    x * y
  }

  lemma TimesAdds(x: real, y: real, w: real)
    ensures Times(x + y, w) == Times(x, w) + Times(y, w)
  {
  }

  lemma TimesRest(x: real, w: real)
    ensures Times(x, w) + Times(x, 1.0 - w) == x
  {
  }

  lemma TimesPositive(x: real, y: real)
    requires x >= 0.0 && y >= 0.0
    ensures Times(x, y) >= 0.0 && (x > 0.0 && y > 0.0 ==> Times(x, y) > 0.0)
  {
  }

  /** The point at the fraction `w` of the way from `b` to `a`. */
  function Weighted(a: real, b: real, w: real): real {
    b + Times(a - b, w)
  }

  lemma WeightedByStart(a: real, b: real, a1: real, w: real)
    requires a <= a1 && 0.0 <= w
    ensures Weighted(a, b, w) <= Weighted(a1, b, w) && (a < a1 && 0.0 < w ==> Weighted(a, b, w) < Weighted(a1, b, w))
  {
    hide Times;
    TimesAdds(a - b, a1 - a, w);
    TimesPositive(a1 - a, w);
  }

  lemma WeightedByEnd(a: real, b: real, b1: real, w: real)
    requires b < b1 && w <= 1.0
    ensures Weighted(a, b, w) <= Weighted(a, b1, w) && (w < 1.0 ==> Weighted(a, b, w) < Weighted(a, b1, w))
  {
    hide Times;
    TimesAdds(a - b1, b1 - b, w);
    TimesRest(b1 - b, w);
    TimesPositive(b1 - b, 1.0 - w);
  }

  lemma WeightedOrder(a: real, b: real, a1: real, b1: real, w: real)
    requires 0.0 <= w <= 1.0 && a <= a1 && b < b1 && (a == a1 ==> w < 1.0)
    ensures Weighted(a, b, w) < Weighted(a1, b1, w)
  {
    hide Weighted;
    WeightedByStart(a, b, a1, w);
    WeightedByEnd(a1, b, b1, w);
  }

  lemma CurveAbove(p: Entity, c: Entity, q: Entity, d: Entity, s: real)
    requires 0.0 <= s <= 1.0 && p.y <= q.y && c.y < d.y && (p.y == q.y ==> s > 0.0)
    ensures CurveY(p, c, s) < CurveY(q, d, s)
  {
    hide Cubic, StartWeight;
    var w := StartWeight(s);
    CurveYIsWeighted(p.y, c.y, s);
    CurveYIsWeighted(q.y, d.y, s);
    StartWeightIsFraction(s);
    WeightedOrder(p.y, c.y, q.y, d.y, w);
  }

  /** Edges between the same two columns never cross: those of different parents have no point in common, and those of
      one parent only the point where they start. */
  lemma EdgesDoNotCross(t: Topology, p: Entity, c: Entity, q: Entity, d: Entity, s: real, u: real)
    requires UniqueInputs(t)
    requires var es := ModelOf(t).entities; p in es && c in es && q in es && d in es
    requires ChildOf(c, p) && ChildOf(d, q) && p.kind == q.kind && c.kind == d.kind && (p, c) != (q, d)
    requires 0.0 <= s <= 1.0 && 0.0 <= u <= 1.0
    requires CurveX(p, c, s) == CurveX(q, d, u) && CurveY(p, c, s) == CurveY(q, d, u)
    ensures p == q && s == u == 0.0
  {
    hide ModelOf, UniqueInputs, CurveX, CurveY;
    ChildIsRight(t, p, c);
    ChildIsRight(t, q, d);
    SameXSameParameter(p, c, q, d, s, u);
    if p == q {
      ModelIsStacked(t, c, d);
      if s > 0.0 { EdgesSplit(p, c, d, s); }
    } else {
      ModelIsStacked(t, p, q);
      EdgesApart(t, p, c, q, d, s);
    }
  }

  lemma EdgesSplit(p: Entity, c: Entity, d: Entity, s: real)
    requires 0.0 < s <= 1.0 && c.y != d.y
    ensures CurveY(p, c, s) != CurveY(p, d, s)
  {
    hide CurveY;
    if c.y < d.y { CurveAbove(p, c, p, d, s); } else { CurveAbove(p, d, p, c, s); }
  }

  lemma EdgesApart(t: Topology, p: Entity, c: Entity, q: Entity, d: Entity, s: real)
    requires UniqueInputs(t) && 0.0 <= s <= 1.0 && p.y != q.y
    requires var es := ModelOf(t).entities; p in es && c in es && q in es && d in es
    requires ChildOf(c, p) && ChildOf(d, q) && p.kind == q.kind
    ensures CurveY(p, c, s) != CurveY(q, d, s)
  {
    hide ModelOf, UniqueInputs, CurveY;
    if p.y < q.y {
      ChildrenFollowParents(t, p, c, q, d);
      CurveAbove(p, c, q, d, s);
    } else {
      ChildrenFollowParents(t, q, d, p, c);
      CurveAbove(q, d, p, c, s);
    }
  }
}
