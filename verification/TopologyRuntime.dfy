/** The two folds that keep one runtime entry per node: which entry they keep, exactly. */
module TopologyRuntime {
  import opened Records
  import opened Ordering
  import opened TopologyLayout
  import opened TopologyFilter

  // ---------- The first of the greatest entries ----------

  /** Entry `i` is `r`, and compares greater than all earlier entries of its node. */
  ghost predicate FirstAt(text: Runtime -> string, entries: seq<Runtime>, r: Runtime, i: nat) {
    && i < |entries| && entries[i] == r
    && forall j :: 0 <= j < i && entries[j].nodeId == r.nodeId ==> CompareText(text(entries[j]), text(r)) < 0
  }

  /** For each node, the first of its entries with the greatest text is kept. */
  ghost predicate KeepsFirst(text: Runtime -> string, kept: map<string, Runtime>, entries: seq<Runtime>) {
    && (forall id :: id in kept ==> kept[id].nodeId == id && exists i :: FirstAt(text, entries, kept[id], i))
    && (forall r :: r in entries ==> r.nodeId in kept && CompareText(text(r), text(kept[r.nodeId])) <= 0)
  }

  lemma NothingKept(text: Runtime -> string)
    ensures KeepsFirst(text, map[], [])
  {
  }

  lemma BelowBelow(a: string, b: string, c: string)
    requires CompareText(a, b) <= 0 && CompareText(b, c) < 0
    ensures CompareText(a, c) < 0
  {
    CompareTextTransitive(a, b, c);
    if CompareText(a, c) == 0 { CompareTextTransitive(a, b, c); }
  }

  /** A new entry that beats the kept one is the first of the greatest. */
  lemma WinnerIsFirst(text: Runtime -> string, kept: map<string, Runtime>, entries: seq<Runtime>, r: Runtime)
    requires KeepsFirst(text, kept, entries) && Beats(text, kept, r)
    ensures FirstAt(text, entries + [r], r, |entries|)
  {
    hide CompareText;
    forall j | 0 <= j < |entries| && entries[j].nodeId == r.nodeId
      ensures CompareText(text(entries[j]), text(r)) < 0
    {
      assert entries[j] in entries;
      BelowBelow(text(entries[j]), text(kept[r.nodeId]), text(r));
    }
  }

  lemma StaysFirst(text: Runtime -> string, entries: seq<Runtime>, r: Runtime, kept: Runtime)
    requires exists i :: FirstAt(text, entries, kept, i)
    ensures exists i :: FirstAt(text, entries + [r], kept, i)
  {
    hide CompareText;
    var i :| FirstAt(text, entries, kept, i);
    assert FirstAt(text, entries + [r], kept, i);
  }

  lemma NoneGreater(text: Runtime -> string, kept: map<string, Runtime>, entries: seq<Runtime>, r: Runtime, e: Runtime)
    requires KeepsFirst(text, kept, entries) && e in entries + [r]
    ensures e.nodeId in Keep(text, kept, r) && CompareText(text(e), text(Keep(text, kept, r)[e.nodeId])) <= 0
  {
    hide CompareText, FirstAt;
    CompareTextOrder(text(r), text(r));
    if r.nodeId in kept { CompareTextOrder(text(kept[r.nodeId]), text(r)); }
    if Beats(text, kept, r) && e in entries && e.nodeId == r.nodeId && r.nodeId in kept {
      BelowBelow(text(e), text(kept[r.nodeId]), text(r));
    }
  }

  lemma KeepsFirstOfMore(text: Runtime -> string, kept: map<string, Runtime>, entries: seq<Runtime>, r: Runtime)
    requires KeepsFirst(text, kept, entries)
    ensures KeepsFirst(text, Keep(text, kept, r), entries + [r])
  {
    hide CompareText, FirstAt;
    var after := Keep(text, kept, r);
    if Beats(text, kept, r) { WinnerIsFirst(text, kept, entries, r); }
    forall id | id in after
      ensures after[id].nodeId == id && exists i :: FirstAt(text, entries + [r], after[id], i)
    {
      if !(Beats(text, kept, r) && id == r.nodeId) { StaysFirst(text, entries, r, kept[id]); }
    }
    forall e | e in entries + [r]
      ensures e.nodeId in after && CompareText(text(e), text(after[e.nodeId])) <= 0
    {
      NoneGreater(text, kept, entries, r, e);
    }
  }

  /** `latestRuntimeByNode` keeps the first of the entries with the greatest tie-break text. */
  lemma {:induction false} LatestRuntimeKeepsFirst(entries: seq<Runtime>)
    ensures KeepsFirst(TieBreaker, LatestRuntime(entries), entries)
  {
    hide KeepsFirst, TieBreaker, CompareText;
    if entries == [] {
      NothingKept(TieBreaker);
    } else {
      var last := |entries| - 1;
      LatestRuntimeKeepsFirst(entries[..last]);
      KeepsFirstOfMore(TieBreaker, LatestRuntime(entries[..last]), entries[..last], entries[last]);
      assert entries == entries[..last] + [entries[last]];
    }
  }

  lemma {:induction false} ObservedKeepsFirstSince(before: map<string, Runtime>, past: seq<Runtime>,
                                                   items: seq<Runtime>)
    requires KeepsFirst(ObservedAt, before, past)
    ensures KeepsFirst(ObservedAt, Observed(before, items), past + items)
    decreases |items|
  {
    hide KeepsFirst, CompareText;
    if items == [] {
      assert past + items == past;
    } else {
      KeepsFirstOfMore(ObservedAt, before, past, items[0]);
      ObservedKeepsFirstSince(Keep(ObservedAt, before, items[0]), past + [items[0]], items[1..]);
      assert past + [items[0]] + items[1..] == past + items;
    }
  }

  /** `latestRuntime` keeps the first of the entries observed last. */
  lemma ObservedKeepsFirst(items: seq<Runtime>)
    ensures KeepsFirst(ObservedAt, Observed(map[], items), items)
  {
    hide KeepsFirst, Observed;
    NothingKept(ObservedAt);
    ObservedKeepsFirstSince(map[], [], items);
    assert [] + items == items;
  }

  lemma KeptIsMember(text: Runtime -> string, kept: map<string, Runtime>, entries: seq<Runtime>)
    requires KeepsFirst(text, kept, entries)
    ensures forall id :: id in kept ==> kept[id] in entries
  {
    hide CompareText;
  }

  // ---------- Where the two agree ----------

  ghost predicate NoNul(text: string) {
    forall i :: 0 <= i < |text| ==> text[i] != '\0'
  }

  /** Texts joined by NUL compare by their first parts first. */
  lemma {:induction false} JoinedOrder(a: string, x: string, b: string, y: string)
    requires NoNul(a) && NoNul(b) && CompareText(a + "\0" + x, b + "\0" + y) <= 0
    ensures CompareText(a, b) <= 0
    decreases |a|
  {
    var s, u := a + "\0" + x, b + "\0" + y;
    assert s[0] == (if a == [] then '\0' else a[0]) && u[0] == (if b == [] then '\0' else b[0]);
    if a != [] && b != [] && a[0] == b[0] {
      assert s[1..] == a[1..] + "\0" + x && u[1..] == b[1..] + "\0" + y;
      JoinedOrder(a[1..], x, b[1..], y);
    }
  }

  function TieRest(r: Runtime): string {
    r.liveness + "\0" + r.sessionState + "\0" + r.trafficState + "\0"
    + OrEmpty(r.observedEndpoint) + "\0" + OrEmpty(r.authenticatedRxAt) + "\0" + OrEmpty(r.authenticatedTxAt)
  }

  lemma TieBreakerParts(r: Runtime)
    ensures TieBreaker(r) == r.observedAt + "\0" + TieRest(r)
  {
  }

  lemma NotAfterIsNotLater(r: Runtime, kept: Runtime)
    requires CompareText(TieBreaker(r), TieBreaker(kept)) <= 0 && NoNul(r.observedAt) && NoNul(kept.observedAt)
    ensures CompareText(r.observedAt, kept.observedAt) <= 0
  {
    hide TieBreaker, TieRest, CompareText, NoNul;
    TieBreakerParts(r);
    TieBreakerParts(kept);
    JoinedOrder(r.observedAt, TieRest(r), kept.observedAt, TieRest(kept));
  }

  /** An entry of the same node and time as `r` that reads greater. */
  ghost predicate Outranks(e: Runtime, r: Runtime) {
    e.nodeId == r.nodeId && e.observedAt == r.observedAt && CompareText(TieBreaker(r), TieBreaker(e)) < 0
  }

  /** The first of the entries observed last and the first of the greatest are one when they read the same. */
  lemma FirstsMeet(entries: seq<Runtime>, a: Runtime, b: Runtime)
    requires a.nodeId == b.nodeId && a.observedAt == b.observedAt && TieBreaker(a) == TieBreaker(b)
    requires exists i :: FirstAt(ObservedAt, entries, a, i)
    requires exists i :: FirstAt(TieBreaker, entries, b, i)
    ensures a == b
  {
    hide TieBreaker, CompareText;
    CompareTextOrder(a.observedAt, a.observedAt);
    CompareTextOrder(TieBreaker(a), TieBreaker(a));
    var i :| FirstAt(ObservedAt, entries, a, i);
    var j :| FirstAt(TieBreaker, entries, b, j);
  }

  /**
   The entry whose liveness the filters test and the entry that the model shows belong to one time, and they are the
   same entry exactly when no entry of the node and time outranks the one tested.
   */
  lemma FilterSeesWhatIsShown(entries: seq<Runtime>, id: string)
    requires forall r :: r in entries ==> NoNul(r.observedAt)
    ensures var tested, shown := Observed(map[], entries), LatestRuntime(entries);
            && (id in tested <==> id in shown)
            && (id in tested ==> tested[id].observedAt == shown[id].observedAt)
            && (id in tested ==> (tested[id] == shown[id] <==> !exists e :: e in entries && Outranks(e, tested[id])))
  {
    hide CompareText, NoNul, Observed, LatestRuntime, TieBreaker, FirstAt;
    var tested, shown := Observed(map[], entries), LatestRuntime(entries);
    ObservedKeepsFirst(entries);
    LatestRuntimeKeepsFirst(entries);
    KeptIsMember(ObservedAt, tested, entries);
    KeptIsMember(TieBreaker, shown, entries);
    if id in shown { assert shown[id] in entries; }
    if id in tested {
      var a, b := tested[id], shown[id];
      assert a in entries && b in entries;
      NotAfterIsNotLater(a, b);
      CompareTextOrder(a.observedAt, b.observedAt);
      CompareTextOrder(TieBreaker(a), TieBreaker(b));
      if a == b {
        forall e | e in entries
          ensures !Outranks(e, a)
        {
          CompareTextOrder(TieBreaker(a), TieBreaker(e));
        }
      } else if !exists e :: e in entries && Outranks(e, a) {
        assert !Outranks(b, a);
        FirstsMeet(entries, a, b);
      }
    }
  }
}
