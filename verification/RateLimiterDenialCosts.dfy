/** Exactly when a denied call can cost somebody an answer, and a run in which it does although its peer is kept. */
module RateLimiterDenialCosts {
  import opened RateLimiter
  import opened RateLimiterRuns
  import opened RateLimiterBounds
  import opened RateLimiterPeers
  import opened RateLimiterDenials
  import opened RateLimiterCosts

  // ---------- Runs that are told apart ----------

  lemma WithoutOfMore(calls: seq<Call>, k: nat, more: seq<Call>)
    requires k < |calls|
    ensures Without(calls + more, k) == Without(calls, k) + more
  {
  }

  /** Calls that tell the two maps apart get different answers in the two runs. */
  lemma {:induction false} TellsInRun(calls: seq<Call>, k: nat, more: seq<Call>) returns (n: nat)
    requires k < |calls| && Tells(After(calls, |calls|), After(Without(calls, k), |calls| - 1), more)
    ensures |calls| <= n < |calls + more| && Answer(calls + more, n) != Answer(Without(calls + more, k), n - 1)
    decreases |more|
  {
    hide Admit, Limiter.Valid, Answer, Without;
    var c, calls1, rest := more[0], calls + [more[0]], Without(calls, k);
    assert |rest| == |calls| - 1 by { WithoutSize(calls, k); }
    WithoutOfMore(calls, k, [c]);
    WithoutOfMore(calls, k, more);
    assert calls + more == calls1 + more[1..];
    Appended(calls, c);
    Appended(rest, c);
    if Answer(calls1, |calls|) != Answer(rest + [c], |rest|) {
      n := |calls|;
      AnswerOfPrefix(calls1, calls + more, n, n + 1);
      assert rest + more == rest + [c] + more[1..];
      AnswerOfPrefix(rest + [c], rest + more, n - 1, n);
    } else {
      n := TellsInRun(calls1, k, more[1..]);
    }
  }

  lemma WithoutSize(calls: seq<Call>, k: nat)
    requires k < |calls|
    ensures |Without(calls, k)| == |calls| - 1
  {
  }

  lemma Appended(calls: seq<Call>, c: Call)
    ensures var more, l := calls + [c], After(calls, |calls|);
            && Answer(more, |calls|) == Admit(l, c.now, c.address).1
            && After(more, |more|) == Admit(l, c.now, c.address).0
  {
    hide Admit, Limiter.Valid;
    SamePrefix(calls, calls + [c], |calls|);
  }

  lemma AllSeenBy(calls: seq<Call>, n: nat, u: real)
    requires n <= |calls| && (forall j :: 0 <= j < n ==> calls[j].now <= u)
    ensures SeenAllBy(After(calls, n), u)
  {
    hide Limiter.Valid;
    forall b | b in After(calls, n).peers
      ensures After(calls, n).peers[b].lastSeen <= u
    {
      SeenBefore(calls, n, b, u);
    }
  }

  /** The last call of the run is the first that sets the two maps apart: calls at the same time can tell the
      runs apart. */
  lemma SettingApartCosts(calls: seq<Call>, k: nat) returns (more: seq<Call>, n: nat)
    requires Monotone(calls) && k + 1 < |calls| && !Answer(calls, k)
    requires SetApartBy(calls, k, |calls| - 2) && (forall m :: k <= m < |calls| - 2 ==> !SetApartBy(calls, k, m))
    ensures AllAt(more, calls[|calls| - 1].now)
    ensures |calls| <= n < |calls + more| && Answer(calls + more, n) != Answer(Without(calls + more, k), n - 1)
  {
    hide Admit, Limiter.Valid, Similar, SetsApart, Tells, Answer, KeptBy;
    var m, rest, a := |calls| - 2, Without(calls, k), calls[k].address;
    var u := calls[m + 1].now;
    RestFollows(calls, k, m);
    assert rest[m] == calls[m + 1];
    var l, l1 := After(calls, m + 1), After(rest, m);
    NotApart(l, calls[m + 1].address, a);
    SimilarLater(l, l1, a, calls[m].now, u);
    AllSeenBy(calls, m + 1, u);
    more := PartedMapsTell(l, l1, a, u, calls[m + 1].address);
    n := TellsInRun(calls, k, more);
  }

  lemma NotApart(l: Limiter, address: string, a: string)
    requires l.Valid()
    ensures !SetsApart(l, l, address, a)
  {
  }

  // ---------- The exact condition ----------

  /** The run and the run without call `k` give the same answers after that call. */
  ghost predicate SameAnswers(calls: seq<Call>, k: nat)
    requires k < |calls|
  {
    forall n :: k < n < |calls| ==> Answer(calls, n) == Answer(Without(calls, k), n - 1)
  }

  lemma {:induction false} FirstSetApart(calls: seq<Call>, k: nat, m: nat) returns (first: nat)
    requires k <= m < |calls| - 1 && SetApartBy(calls, k, m)
    ensures k <= first <= m && SetApartBy(calls, k, first) && (forall j :: k <= j < first ==> !SetApartBy(calls, k, j))
    decreases m
  {
    hide SetApartBy;
    if j :| k <= j < m && SetApartBy(calls, k, j) {
      first := FirstSetApart(calls, k, j);
    } else {
      first := m;
    }
  }

  lemma SetApartInPrefix(calls: seq<Call>, k: nat, m: nat, n: nat)
    requires k <= m < n - 1 && n <= |calls|
    ensures SetApartBy(calls[..n], k, m) <==> SetApartBy(calls, k, m)
  {
    hide SetsApart, Limiter.Valid;
    var run := calls[..n];
    assert run[..m + 1] == calls[..m + 1];
    SamePrefix(run, calls, m + 1);
    assert Without(run, k)[..m] == Without(calls, k)[..m];
    SamePrefix(Without(run, k), Without(calls, k), m);
  }

  lemma MonotonePrefix(calls: seq<Call>, more: seq<Call>, n: nat)
    requires Monotone(calls) && 0 < n <= |calls| && AllAt(more, calls[n - 1].now)
    ensures Monotone(calls[..n]) && Monotone(calls[..n] + more)
  {
    var run := calls[..n] + more;
    forall i, j | 0 <= i <= j < |run|
      ensures run[i].now <= run[j].now
    {
      if i >= n { assert more[i - n] in more; }
      if j >= n { assert more[j - n] in more; }
    }
  }

  /** A run in which the two maps are set apart can be cut off and continued so that the answers differ. */
  lemma SetApartRunCosts(past: seq<Call>, more: seq<Call>, m: nat) returns (more1: seq<Call>)
    requires past != [] && Monotone(past + more) && !Answer(past, |past| - 1)
    requires |past| - 1 <= m < |past + more| - 1 && SetApartBy(past + more, |past| - 1, m)
    ensures Monotone(past + more1) && !SameAnswers(past + more1, |past| - 1)
  {
    hide Answer, SetApartBy, Monotone;
    var calls, k := past + more, |past| - 1;
    var first := FirstSetApart(calls, k, m);
    var run := calls[..first + 2];
    assert past[..k + 1] == run[..k + 1];
    AnswerOfPrefix(past, run, k, k + 1);
    SetApartInPrefix(calls, k, first, first + 2);
    forall j | k <= j < first
      ensures !SetApartBy(run, k, j)
    {
      SetApartInPrefix(calls, k, j, first + 2);
    }
    MonotonePrefix(calls, [], first + 2);
    var more2, n := SettingApartCosts(run, k);
    MonotonePrefix(calls, more2, first + 2);
    more1 := more[..first + 2 - |past|] + more2;
    assert past + more1 == run + more2;
  }

  /**
   The call that has just been denied costs nobody anything in any future if and only if in no future a call makes the
   run without it forget its peer while the real run keeps it.
   */
  lemma DenialIsFreeUnlessSetApart(past: seq<Call>)
    requires past != [] && !Answer(past, |past| - 1)
    ensures (forall more :: Monotone(past + more) ==> SameAnswers(past + more, |past| - 1))
            <==> (forall more :: Monotone(past + more) ==> NeverSetApart(past + more, |past| - 1))
  {
    hide Answer, SetApartBy, Monotone, SameAnswers;
    var k := |past| - 1;
    if forall more :: Monotone(past + more) ==> NeverSetApart(past + more, k) {
      forall more | Monotone(past + more)
        ensures SameAnswers(past + more, k)
      {
        assert NeverSetApart(past + more, k);
        assert past[..k + 1] == (past + more)[..k + 1];
        AnswerOfPrefix(past, past + more, k, k + 1);
        NeverSetApartIsFree(past + more, k);
      }
    } else {
      var more :| Monotone(past + more) && !NeverSetApart(past + more, k);
      var m :| k <= m < |past + more| - 1 && SetApartBy(past + more, k, m);
      var more1 := SetApartRunCosts(past, more, m);
    }
  }

  lemma NeverSetApartIsFree(calls: seq<Call>, k: nat)
    requires Monotone(calls) && k < |calls| && !Answer(calls, k) && NeverSetApart(calls, k)
    ensures SameAnswers(calls, k)
  {
    hide Answer, SetApartBy, Monotone;
    forall n | k < n < |calls|
      ensures Answer(calls, n) == Answer(Without(calls, k), n - 1)
    {
      DenialIsForgotten(calls, k, n);
    }
  }

  // ---------- Keeping the peer is not enough ----------

  const DENIED: nat := MAXIMUM_PEERS + 10

  /** Peers 0 and 1 spend their tokens, the map fills up, peer 0 is denied, a newcomer calls, and peer 1 comes back. */
  function CrowdedCall(j: nat): Call {
    if j < 6 then Call(0.0, Name(0))
    else if j < 12 then Call(1.0, Name(1))
    else if j < DENIED then Call(2.0, Name(j - 10))
    else if j == DENIED then Call(3.0, Name(0))
    else if j == DENIED + 1 then Call(4.0, Name(MAXIMUM_PEERS))
    else Call(5.0, Name(1))
  }

  function CrowdedRun(): (calls: seq<Call>)
    ensures |calls| == DENIED + 3 && (forall j :: 0 <= j < |calls| ==> calls[j] == CrowdedCall(j))
  {
    seq(DENIED + 3, j requires 0 <= j < DENIED + 3 => CrowdedCall(j))
  }

  lemma CrowdedRunIsMonotone()
    ensures Monotone(CrowdedRun())
  {
  }

  function One(t: nat): Limiter {
    Limiter([Name(0)], map[Name(0) := Peer(0.0, t as real)])
  }

  function Two(t: nat): Limiter {
    Limiter([Name(0), Name(1)], map[Name(0) := Peer(0.0, 0.0), Name(1) := Peer(1.0, t as real)])
  }

  lemma FirstCalls()
    ensures Admit(EMPTY, 0.0, Name(0)).0 == One(5)
  {
    hide Name;
  }

  lemma SecondCalls()
    requires One(0).Valid()
    ensures Admit(One(0), 1.0, Name(1)).0 == Two(5)
  {
    assert Name(0) != Name(1);
    assert [Name(0)] + [Name(1)] == [Name(0), Name(1)];
  }

  lemma FirstSpends(t: nat)
    requires One(t).Valid() && 1 <= t <= 6
    ensures Admit(One(t), 0.0, Name(0)).0 == One(t - 1)
  {
    hide Name, Admit, Limiter.Valid;
    OwnCallSpends(One(t), 0.0, Name(0));
  }

  lemma SecondSpends(t: nat)
    requires Two(t).Valid() && 1 <= t <= 6
    ensures Admit(Two(t), 1.0, Name(1)).0 == Two(t - 1)
  {
    hide Admit, Limiter.Valid;
    assert Name(0) != Name(1);
    OwnCallSpends(Two(t), 1.0, Name(1));
  }

  lemma {:induction false} FirstIsSpent(n: nat)
    requires 1 <= n <= 6
    ensures After(CrowdedRun(), n) == One(6 - n)
  {
    hide CrowdedRun, Name, Admit, Limiter.Valid, One;
    if n == 1 {
      assert After(CrowdedRun(), 0) == EMPTY;
      FirstCalls();
    } else {
      FirstIsSpent(n - 1);
      FirstSpends(7 - n);
    }
  }

  lemma {:induction false} SecondIsSpent(n: nat)
    requires 1 <= n <= 6
    ensures After(CrowdedRun(), 6 + n) == Two(6 - n)
  {
    hide CrowdedRun, Name, Admit, Limiter.Valid, One, Two;
    if n == 1 {
      FirstIsSpent(6);
      SecondCalls();
    } else {
      SecondIsSpent(n - 1);
      SecondSpends(7 - n);
    }
  }

  /** Peers 0 and 1 are there with empty buckets, and others that were seen at 2. */
  ghost predicate Crowded(l: Limiter, n: nat) {
    && l.Valid() && 2 <= n && |l.order| == |l.peers| == n
    && (forall x :: 0 <= x < n ==> l.order[x] == Name(x) && Name(x) in l.peers)
    && l.peers[Name(0)] == Peer(0.0, 0.0) && l.peers[Name(1)] == Peer(1.0, 0.0)
    && (forall x :: 2 <= x < n ==> l.peers[Name(x)].lastSeen == 2.0)
  }

  lemma NextIsNew(l: Limiter, n: nat)
    requires Crowded(l, n)
    ensures Name(n) !in l.peers
  {
    forall x | 0 <= x < |l.order|
      ensures l.order[x] != Name(n)
    {
      assert |l.order[x]| == x;
    }
  }

  lemma CrowdGrows(l: Limiter, n: nat)
    requires Crowded(l, n) && n < MAXIMUM_PEERS
    ensures Crowded(Admit(l, 2.0, Name(n)).0, n + 1)
  {
    NextIsNew(l, n);
    AdmitKeepsValid(l, 2.0, Name(n));
    OrderHasSizeOfMap(Admit(l, 2.0, Name(n)).0);
  }

  lemma {:induction false} CrowdFills(n: nat)
    requires 2 <= n <= MAXIMUM_PEERS
    ensures Crowded(After(CrowdedRun(), 10 + n), n)
  {
    hide CrowdedRun, Crowded, Admit;
    if n == 2 {
      SecondIsSpent(6);
      TwoAreCrowded();
    } else {
      CrowdFills(n - 1);
      CrowdGrows(After(CrowdedRun(), 9 + n), n - 1);
    }
  }

  lemma TwoAreCrowded()
    requires Two(0).Valid()
    ensures Crowded(Two(0), 2)
  {
    OrderHasSizeOfMap(Two(0));
  }

  /** Peer 0 is denied; then the newcomer makes the map forget peer 1. */
  lemma RealRun(l: Limiter) returns (m: Limiter, m1: Limiter)
    requires Crowded(l, MAXIMUM_PEERS)
    ensures m == Admit(l, 3.0, Name(0)).0 && !Admit(l, 3.0, Name(0)).1 && KeptBy(l, Name(0), Name(0)) && m.Valid()
    ensures m1 == Admit(m, 4.0, Name(MAXIMUM_PEERS)).0 && KeptBy(m, Name(MAXIMUM_PEERS), Name(0)) && m1.Valid()
    ensures Admit(m1, 5.0, Name(1)).1 && KeptBy(m1, Name(1), Name(0))
  {
    hide Evict, Unique, OldestIndex;
    m := Admit(l, 3.0, Name(0)).0;
    AdmitKeepsValid(l, 3.0, Name(0));
    NextIsNew(l, MAXIMUM_PEERS);
    assert m.order == l.order && m.peers.Keys == l.peers.Keys;
    SameSize(m.peers, l.peers);
    ValidIsKnown(m);
    OldestIs(m, 1);
    NewcomerForgets(m, 4.0, Name(MAXIMUM_PEERS), 1);
    m1 := Admit(m, 4.0, Name(MAXIMUM_PEERS)).0;
    KeptWhileAnotherIsOlder(m1, Name(0), Name(2));
  }

  lemma KeptWhileAnotherIsOlder(l: Limiter, a: string, b: string)
    requires l.Valid() && a in l.peers && b in l.peers && l.peers[b].lastSeen < l.peers[a].lastSeen
    ensures forall address :: KeptBy(l, address, a)
  {
    MemberOfOrder(l, b);
    ValidIsKnown(l);
  }

  /** Without the denied call the newcomer makes the map forget peer 0, and peer 1 is denied. */
  lemma RunWithout(l: Limiter) returns (m: Limiter)
    requires Crowded(l, MAXIMUM_PEERS)
    ensures m == Admit(l, 4.0, Name(MAXIMUM_PEERS)).0 && m.Valid() && !Admit(m, 5.0, Name(1)).1
  {
    hide Limiter.Valid, Evict, OldestIndex;
    NextIsNew(l, MAXIMUM_PEERS);
    ValidIsKnown(l);
    OldestIs(l, 0);
    NewcomerForgets(l, 4.0, Name(MAXIMUM_PEERS), 0);
    m := Admit(l, 4.0, Name(MAXIMUM_PEERS)).0;
  }

  /** That the real run keeps the denied peer does not suffice: here the denied call of peer 0 lets peer 1 in. */
  lemma KeepingIsNotEnough()
    ensures var calls, n := CrowdedRun(), DENIED + 2;
            && Monotone(calls) && !Answer(calls, DENIED) && Kept(calls, DENIED, n, calls[DENIED].address)
            && Answer(calls, n) && !Answer(Without(calls, DENIED), n - 1)
  {
    hide Crowded, Admit, KeptBy, Limiter.Valid, CrowdedRun;
    var calls, rest := CrowdedRun(), Without(CrowdedRun(), DENIED);
    CrowdedRunIsMonotone();
    CrowdFills(MAXIMUM_PEERS);
    var l := After(calls, DENIED);
    assert calls[..DENIED] == rest[..DENIED];
    SamePrefix(calls, rest, DENIED);
    var m, m1 := RealRun(l);
    var w := RunWithout(l);
    assert After(calls, DENIED + 1) == m && After(calls, DENIED + 2) == m1;
    assert rest[DENIED] == calls[DENIED + 1] && rest[DENIED + 1] == calls[DENIED + 2];
    assert After(rest, DENIED + 1) == w;
  }
}
