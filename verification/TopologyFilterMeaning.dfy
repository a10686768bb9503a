/** Which records the filters of the topology page keep, said of the records alone. */
module TopologyFilterMeaning {
  import opened Records
  import opened Ordering
  import opened TopologyLayout
  import opened TopologyFilter
  import opened TopologyFilterProofs
  import opened TopologyRuntime

  ghost predicate OccursAt(text: string, part: string, i: nat) {
    i + |part| <= |text| && text[i..i + |part|] == part
  }

  /** The query occurs somewhere in the text in lower case. */
  ghost predicate Says(lower: string -> string, text: string, query: string) {
    exists i: nat :: OccursAt(lower(text), query, i)
  }

  /** Entry `i` is the first among the latest entries of the node. */
  ghost predicate IsLatestEntry(runtime: seq<Runtime>, id: string, i: nat) {
    && i < |runtime| && runtime[i].nodeId == id
    && (forall j :: 0 <= j < |runtime| && runtime[j].nodeId == id ==>
          CompareText(runtime[j].observedAt, runtime[i].observedAt) <= 0)
    && (forall j :: 0 <= j < i && runtime[j].nodeId == id ==>
          CompareText(runtime[j].observedAt, runtime[i].observedAt) < 0)
  }

  /** The latest entry of the node has this liveness; a node without entries counts as unknown. */
  ghost predicate HasLiveness(runtime: seq<Runtime>, id: string, liveness: string) {
    || (exists i: nat :: IsLatestEntry(runtime, id, i) && runtime[i].liveness == liveness)
    || (liveness == "unknown" && forall r :: r in runtime ==> r.nodeId != id)
  }

  /** VNR `i` is the first of the name. */
  ghost predicate IsFirstVnr(vnrs: seq<Vnr>, name: string, i: nat) {
    i < |vnrs| && vnrs[i].name == name && forall j :: 0 <= j < i ==> vnrs[j].name != name
  }

  /** A text by which a node of a VNR can be found: its own, the range of its VNR, or the prefix of one of
      its routes. */
  ghost predicate IsTextOf(t: Topology, n: Node, text: string) {
    || text == n.id || text == n.name || text == n.address || text == n.vnrName
    || (exists i: nat :: IsFirstVnr(t.vnrs, n.vnrName, i) && text == t.vnrs[i].cidr)
    || (exists r :: r in t.routes && r.nodeId == n.id && text == r.prefix)
  }

  // ---------- Matching ----------

  lemma MatchesSays(lower: string -> string, text: string, query: string)
    ensures Matches(lower, text, query) <==> Says(lower, text, query)
  {
    var s := lower(text);
    forall i: nat
      ensures OccursAt(s, query, i) <==> FoundAt(s, query, i)
    {
    }
    if i: nat :| OccursAt(s, query, i) { assert i <= |s| && FoundAt(s, query, i); }
    if i: nat :| i <= |s| && FoundAt(s, query, i) { assert OccursAt(s, query, i); }
  }

  lemma {:induction false} CidrIsOfFirst(vnrs: seq<Vnr>, name: string) returns (i: nat)
    requires HasVnr(vnrs, name)
    ensures IsFirstVnr(vnrs, name, i) && CidrOf(vnrs, name) == vnrs[i].cidr
    ensures forall j: nat :: IsFirstVnr(vnrs, name, j) ==> j == i
    decreases |vnrs|
  {
    if vnrs[0].name == name {
      i := 0;
    } else {
      var v :| v in vnrs && v.name == name;
      assert v in vnrs[1..];
      i := CidrIsOfFirst(vnrs[1..], name);
      i := i + 1;
    }
  }

  lemma NodeMatchesSays(lower: string -> string, query: string, t: Topology, n: Node)
    requires HasVnr(t.vnrs, n.vnrName)
    ensures NodeMatches(lower, query, t, n) <==> exists text :: IsTextOf(t, n, text) && Says(lower, text, query)
  {
    hide Matches, Says, CidrOf, IsFirstVnr;
    forall text: string
      ensures Matches(lower, text, query) <==> Says(lower, text, query)
    {
      MatchesSays(lower, text, query);
    }
    var i := CidrIsOfFirst(t.vnrs, n.vnrName);
    var texts := [n.id, n.name, n.address, n.vnrName, t.vnrs[i].cidr];
    forall k | 0 <= k < |texts|
      ensures IsTextOf(t, n, texts[k])
    {
    }
    forall r | r in t.routes && r.nodeId == n.id
      ensures IsTextOf(t, n, r.prefix)
    {
    }
    if NodeMatches(lower, query, t, n) {
      if RouteMatches(lower, query, t.routes, n.id) {
        var r :| r in t.routes && r.nodeId == n.id && Matches(lower, r.prefix, query);
        assert IsTextOf(t, n, r.prefix) && Says(lower, r.prefix, query);
      } else {
        assert exists k :: 0 <= k < |texts| && Says(lower, texts[k], query) by {
          assert Matches(lower, texts[0], query) || Matches(lower, texts[1], query) || Matches(lower, texts[2], query)
                 || Matches(lower, texts[3], query) || Matches(lower, texts[4], query);
        }
      }
    }
  }

  // ---------- Liveness ----------

  lemma LivenessIs(runtime: seq<Runtime>, id: string, liveness: string)
    ensures LivenessOf(Observed(map[], runtime), id) == liveness <==> HasLiveness(runtime, id, liveness)
  {
    hide Observed, CompareText;
    var latest := Observed(map[], runtime);
    ObservedKeepsFirst(runtime);
    if id in latest {
      var i: nat :| FirstAt(ObservedAt, runtime, latest[id], i);
      assert runtime[i] in runtime;
      forall j | 0 <= j < |runtime| && runtime[j].nodeId == id
        ensures CompareText(runtime[j].observedAt, runtime[i].observedAt) <= 0
      {
        assert runtime[j] in runtime;
      }
      assert IsLatestEntry(runtime, id, i);
      forall k: nat | IsLatestEntry(runtime, id, k)
        ensures k == i
      {
        OnlyOneLatest(runtime, id, i, k);
      }
    } else {
      forall r | r in runtime
        ensures r.nodeId != id
      {
      }
      forall k: nat
        ensures !IsLatestEntry(runtime, id, k)
      {
        if k < |runtime| { assert runtime[k] in runtime; }
      }
    }
  }

  lemma OnlyOneLatest(runtime: seq<Runtime>, id: string, i: nat, k: nat)
    requires IsLatestEntry(runtime, id, i) && IsLatestEntry(runtime, id, k)
    ensures i == k
  {
    hide CompareText;
    CompareTextOrder(runtime[i].observedAt, runtime[k].observedAt);
  }

  // ---------- What is kept ----------

  /** The node has a VNR, which is selected, and passes the choice of liveness and the query. */
  ghost predicate IsShown(lower: string -> string, c: Criteria, t: Topology, n: Node) {
    && n in t.nodes && (exists v :: v in t.vnrs && v.name == n.vnrName) && (c.vnr == "all" || c.vnr == n.vnrName)
    && (c.liveness == "all" || HasLiveness(t.runtime, n.id, c.liveness))
    && (c.query == "" || exists text :: IsTextOf(t, n, text) && Says(lower, text, c.query))
  }

  lemma IncludedIsShown(lower: string -> string, c: Criteria, t: Topology, n: Node)
    ensures Shown(lower, c, t, n) <==> IsShown(lower, c, t, n)
  {
    hide LivenessOf, HasLiveness, NodeMatches, IsTextOf, Says, Observed;
    LivenessIs(t.runtime, n.id, c.liveness);
    if HasVnr(t.vnrs, n.vnrName) { NodeMatchesSays(lower, c.query, t, n); }
  }

  /**
   The filters keep exactly the nodes shown, the selected VNRs that have one of these or match the query themselves,
   and the routes and runtime entries of the nodes shown.
   */
  lemma FiltersKeepExactly(lower: string -> string, c: Criteria, t: Topology)
    ensures var u := Filtered(lower, c, t);
            && u.generation == t.generation && u.observedAt == t.observedAt
            && (forall n :: n in u.nodes <==> IsShown(lower, c, t, n))
            && (forall v :: v in u.vnrs <==>
                  && v in t.vnrs && (c.vnr == "all" || c.vnr == v.name)
                  && (|| (exists n :: IsShown(lower, c, t, n) && n.vnrName == v.name)
                      || (c.query != "" && (Says(lower, v.name, c.query) || Says(lower, v.cidr, c.query)))))
            && (forall r :: r in u.routes <==> r in t.routes && exists n :: IsShown(lower, c, t, n) && n.id == r.nodeId)
            && (forall r :: r in u.runtime <==>
                  r in t.runtime && exists n :: IsShown(lower, c, t, n) && n.id == r.nodeId)
  {
    hide Shown, IsShown, Matches, Says, IncludedNodes, KeptVnrs, KeptNodes;
    ShownNodesAreKept(lower, c, t);
    forall n: Node
      ensures Shown(lower, c, t, n) <==> IsShown(lower, c, t, n)
    {
      IncludedIsShown(lower, c, t, n);
    }
    forall v: Vnr
      ensures Matches(lower, v.name, c.query) <==> Says(lower, v.name, c.query)
      ensures Matches(lower, v.cidr, c.query) <==> Says(lower, v.cidr, c.query)
    {
      MatchesSays(lower, v.name, c.query);
      MatchesSays(lower, v.cidr, c.query);
    }
  }
}
