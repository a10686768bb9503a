/** How much load the bounded limiter tolerates, exactly. */
module RateLimiterBounds {
  import opened RateLimiter
  import opened RateLimiterRuns

  // ---------- A run in which forgetting shows ----------

  /** Distinct addresses, told apart by their length. */
  function Name(k: nat): (s: string)
    ensures |s| == k
  {
    seq(k, _ => 'x')
  }

  const RETURN: nat := 6 + MAXIMUM_PEERS

  /**
   Peer 0 spends its bucket at time 0, and peer 1 calls once; then peers 2 to the size of the map
   call at time `t`, and peer 0 comes back six times.
   */
  function FloodCall(t: real, j: nat): Call {
    if j < 6 then Call(0.0, Name(0))
    else if j == 6 then Call(0.0, Name(1))
    else if j < RETURN then Call(t, Name(j - 5))
    else Call(t, Name(0))
  }

  function Flood(t: real): (calls: seq<Call>)
    ensures |calls| == RETURN + 6
    ensures forall j :: 0 <= j < |calls| ==> calls[j] == FloodCall(t, j)
  {
    seq(RETURN + 6, (j: nat) => FloodCall(t, j))
  }

  ghost predicate HasBucket(m: Ideal, address: string, peer: Peer) {
    address in m && m[address] == peer
  }

  /** A call with no time gone since the last one takes a token, if there is one. */
  lemma CallAtOnce(l: Limiter, m: Ideal, a: string, now: real)
    requires l.Valid() && a in l.peers && l.peers[a].lastSeen == now && l.peers[a].tokens <= CAPACITY
    requires a in m && m[a].lastSeen == now && m[a].tokens <= CAPACITY
    ensures Admit(l, now, a) == (l.(peers := l.peers[a := Spend(l.peers[a])]), l.peers[a].tokens >= 1.0)
    ensures IdealAdmit(m, now, a) == (m[a := Spend(m[a])], m[a].tokens >= 1.0)
  {
    assert Refill(l.peers[a], now) == l.peers[a];
    assert Refill(m[a], now) == m[a];
  }

  /** Peer 0 is alone in the map, with the given tokens in both limiters. */
  ghost predicate Alone(l: Limiter, m: Ideal, tokens: real) {
    && l.Valid() && l.order == [Name(0)]
    && HasBucket(l.peers, Name(0), Peer(0.0, tokens)) && HasBucket(m, Name(0), Peer(0.0, tokens))
  }

  lemma FirstCall()
    ensures Alone(Admit(EMPTY, 0.0, Name(0)).0, IdealAdmit(map[], 0.0, Name(0)).0, 5.0)
  {
    AdmitKeepsValid(EMPTY, 0.0, Name(0));
  }

  lemma BurstGoesOn(l: Limiter, m: Ideal, tokens: real)
    requires Alone(l, m, tokens) && 1.0 <= tokens <= CAPACITY
    ensures Alone(Admit(l, 0.0, Name(0)).0, IdealAdmit(m, 0.0, Name(0)).0, tokens - 1.0)
  {
    AdmitKeepsValid(l, 0.0, Name(0));
    CallAtOnce(l, m, Name(0), 0.0);
  }

  lemma {:induction false} AfterBurst(t: real, n: nat)
    requires 1 <= n <= 6
    ensures Alone(After(Flood(t), n), IdealAfter(Flood(t), n), 6.0 - n as real)
  {
    hide Alone, Admit, IdealAdmit, Limiter.Valid;
    var calls := Flood(t);
    assert calls[n - 1] == FloodCall(t, n - 1);
    if n == 1 {
      FirstCall();
      assert After(calls, 0) == EMPTY && IdealAfter(calls, 0) == map[];
    } else {
      AfterBurst(t, n - 1);
      BurstGoesOn(After(calls, n - 1), IdealAfter(calls, n - 1), 7.0 - n as real);
    }
  }

  /** Peer 0 is the first and least recently seen entry of a map with `n` other entries. */
  ghost predicate FirstToGo(l: Limiter, n: nat) {
    && l.Valid() && |l.order| == |l.peers| == n + 1
    && l.order[0] == Name(0) && l.peers[Name(0)].lastSeen == 0.0
    && (forall a :: a in l.peers ==> 0.0 <= l.peers[a].lastSeen && |a| <= n)
  }

  lemma AloneIsFirstToGo(l: Limiter, m: Ideal)
    requires Alone(l, m, 0.0)
    ensures FirstToGo(l, 0)
  {
    OrderHasSizeOfMap(l);
  }

  lemma CrowdJoins(l: Limiter, n: nat, now: real)
    requires FirstToGo(l, n) && n + 1 < MAXIMUM_PEERS && 0.0 <= now
    ensures FirstToGo(Admit(l, now, Name(n + 1)).0, n + 1)
  {
    AdmitKeepsValid(l, now, Name(n + 1));
    OrderHasSizeOfMap(Admit(l, now, Name(n + 1)).0);
  }

  lemma OthersLeaveBucket(m: Ideal, now: real, address: string)
    requires HasBucket(m, Name(0), Peer(0.0, 0.0)) && address != Name(0)
    ensures HasBucket(IdealAdmit(m, now, address).0, Name(0), Peer(0.0, 0.0))
  {
  }

  /** After `n` calls of others, peer 0 is the next to be forgotten; an ideal limiter keeps its empty bucket. */
  lemma {:induction false} AfterCrowd(t: real, n: nat)
    requires 0.0 <= t && n < MAXIMUM_PEERS
    ensures FirstToGo(After(Flood(t), 6 + n), n)
    ensures HasBucket(IdealAfter(Flood(t), 6 + n), Name(0), Peer(0.0, 0.0))
  {
    hide FirstToGo, HasBucket, Admit, IdealAdmit, Limiter.Valid;
    var calls := Flood(t);
    if n == 0 {
      AfterBurst(t, 6);
      AloneIsFirstToGo(After(calls, 6), IdealAfter(calls, 6));
    } else {
      AfterCrowd(t, n - 1);
      assert calls[6 + n - 1] == FloodCall(t, 6 + n - 1);
      CrowdJoins(After(calls, 6 + n - 1), n - 1, calls[6 + n - 1].now);
      OthersLeaveBucket(IdealAfter(calls, 6 + n - 1), calls[6 + n - 1].now, calls[6 + n - 1].address);
    }
  }

  lemma LastOfCrowdEvicts(l: Limiter, n: nat, now: real)
    requires FirstToGo(l, n) && n + 1 == MAXIMUM_PEERS
    ensures Name(0) !in Admit(l, now, Name(n + 1)).0.peers
  {
    assert Name(n + 1) !in l.peers;
    assert Oldest(l) == l.order[0];
    EvictKeepsValid(l);
  }

  lemma AfterWholeCrowd(t: real)
    requires 0.0 <= t
    ensures Name(0) !in After(Flood(t), RETURN).peers
    ensures HasBucket(IdealAfter(Flood(t), RETURN), Name(0), Peer(0.0, 0.0))
  {
    hide FirstToGo, HasBucket, Admit, IdealAdmit, Limiter.Valid;
    var calls, n := Flood(t), MAXIMUM_PEERS - 1;
    AfterCrowd(t, n);
    assert calls[RETURN - 1] == FloodCall(t, RETURN - 1);
    LastOfCrowdEvicts(After(calls, RETURN - 1), n, calls[RETURN - 1].now);
    OthersLeaveBucket(IdealAfter(calls, RETURN - 1), calls[RETURN - 1].now, calls[RETURN - 1].address);
  }

  /** Peer 0, back for the `back`-th time: a fresh bucket in the map, in the ideal one what has flowed back. */
  ghost predicate Returned(l: Limiter, m: Ideal, back: nat, t: real) {
    && HasBucket(l.peers, Name(0), Peer(t, 6.0 - back as real))
    && Name(0) in m && m[Name(0)].lastSeen == t
    && (m[Name(0)].tokens < 1.0 || m[Name(0)].tokens == t / 6_000.0 - back as real)
  }

  lemma FirstReturn(l: Limiter, m: Ideal, t: real)
    requires l.Valid() && Name(0) !in l.peers && HasBucket(m, Name(0), Peer(0.0, 0.0)) && 0.0 <= t < REFILL_WINDOW
    ensures Returned(Admit(l, t, Name(0)).0, IdealAdmit(m, t, Name(0)).0, 1, t)
  {
    assert Refill(Peer(0.0, 0.0), t).tokens == t / 6_000.0;
  }

  lemma ReturnsAgain(l: Limiter, m: Ideal, back: nat, t: real)
    requires l.Valid() && 0.0 <= t < REFILL_WINDOW && back < 6 && Returned(l, m, back, t)
    ensures Returned(Admit(l, t, Name(0)).0, IdealAdmit(m, t, Name(0)).0, back + 1, t)
    ensures Admit(l, t, Name(0)).1 && (back == 5 ==> !IdealAdmit(m, t, Name(0)).1)
  {
    CallAtOnce(l, m, Name(0), t);
  }

  lemma {:induction false} AfterReturn(t: real, back: nat)
    requires 0.0 <= t < REFILL_WINDOW && 1 <= back < 6
    ensures Returned(After(Flood(t), RETURN + back), IdealAfter(Flood(t), RETURN + back), back, t)
  {
    hide Returned, HasBucket, Admit, IdealAdmit, Limiter.Valid;
    var calls := Flood(t);
    var n := RETURN + back - 1;
    assert calls[n] == FloodCall(t, n);
    if back == 1 {
      AfterWholeCrowd(t);
      FirstReturn(After(calls, n), IdealAfter(calls, n), t);
    } else {
      AfterReturn(t, back - 1);
      ReturnsAgain(After(calls, n), IdealAfter(calls, n), back - 1, t);
    }
  }

  lemma FloodIsMonotone(t: real)
    requires 0.0 <= t
    ensures Monotone(Flood(t))
  {
  }

  /** The last call is admitted by the bounded limiter and denied by the ideal one. */
  lemma FloodIsNotIdeal(t: real)
    requires 0.0 <= t < REFILL_WINDOW
    ensures !AnswersIdeally(Flood(t))
  {
    hide Returned, Admit, IdealAdmit, Limiter.Valid;
    var calls, n := Flood(t), RETURN + 5;
    AfterReturn(t, 5);
    assert calls[n] == FloodCall(t, n);
    ReturnsAgain(After(calls, n), IdealAfter(calls, n), 5, t);
    assert Answer(calls, n) != IdealAnswer(calls, n);
  }

  // ---------- The load it tolerates ----------

  function Names(low: nat, high: nat): (s: set<string>)
    ensures |s| <= if low <= high then high - low else 0
    ensures forall k :: low <= k < high ==> Name(k) in s
    decreases high
  {
    if high <= low then {} else Names(low, high - 1) + {Name(high - 1)}
  }

  lemma FloodLoad(i: nat)
    requires i < |Flood(0.0)|
    ensures |RecentPeers(Flood(0.0), i, REFILL_WINDOW)| <= MAXIMUM_PEERS + 1
  {
    var calls := Flood(0.0);
    var recent := RecentPeers(calls, i, REFILL_WINDOW);
    forall a | a in recent
      ensures a in Names(0, MAXIMUM_PEERS + 1)
    {
      var j :| 0 <= j <= i && calls[j].address == a;
      assert calls[j] == FloodCall(0.0, j);
    }
    SubsetSize(recent, Names(0, MAXIMUM_PEERS + 1));
  }

  lemma SpreadFloodLoad(t: real, i: nat, window: real)
    requires 0.0 <= t && window <= t && i < |Flood(t)|
    ensures |RecentPeers(Flood(t), i, window)| <= MAXIMUM_PEERS
  {
    var calls := Flood(t);
    var recent := RecentPeers(calls, i, window);
    var few := if i >= 7 then Names(2, MAXIMUM_PEERS + 1) + {Name(0)} else {Name(0), Name(1)};
    forall a | a in recent
      ensures a in few
    {
      var j :| 0 <= j <= i && calls[i].now - window < calls[j].now && calls[j].address == a;
      assert calls[j] == FloodCall(t, j) && calls[i] == FloodCall(t, i);
    }
    SubsetSize(recent, few);
  }

  /** Answers are ideal on every run with at most `peers` peers in any 36 seconds, iff the map can hold so many. */
  lemma ExactLoad(peers: nat)
    ensures (forall calls :: Monotone(calls) && LoadAtMost(calls, peers, 36_000.0) ==> AnswersIdeally(calls))
            <==> peers <= 1_024
  {
    if peers <= MAXIMUM_PEERS {
      forall calls | Monotone(calls) && LoadAtMost(calls, peers, REFILL_WINDOW)
        ensures AnswersIdeally(calls)
      {
        BoundedIsIdeal(calls);
      }
    } else {
      var calls := Flood(0.0);
      FloodIsMonotone(0.0);
      FloodIsNotIdeal(0.0);
      forall i | 0 <= i < |calls|
        ensures |RecentPeers(calls, i, REFILL_WINDOW)| <= peers
      {
        FloodLoad(i);
      }
      assert LoadAtMost(calls, peers, REFILL_WINDOW);
    }
  }

  /** And 36 seconds is the shortest window for which the size of the map is a safe load. */
  lemma ExactWindow(window: real)
    ensures (forall calls :: Monotone(calls) && LoadAtMost(calls, 1_024, window) ==> AnswersIdeally(calls))
            <==> 36_000.0 <= window
  {
    if REFILL_WINDOW <= window {
      forall calls | Monotone(calls) && LoadAtMost(calls, MAXIMUM_PEERS, window)
        ensures AnswersIdeally(calls)
      {
        forall i | 0 <= i < |calls|
          ensures |RecentPeers(calls, i, REFILL_WINDOW)| <= MAXIMUM_PEERS
        {
          SubsetSize(RecentPeers(calls, i, REFILL_WINDOW), RecentPeers(calls, i, window));
        }
        BoundedIsIdeal(calls);
      }
    } else {
      var t := Max(0.0, window);
      var calls := Flood(t);
      FloodIsMonotone(t);
      FloodIsNotIdeal(t);
      forall i | 0 <= i < |calls|
        ensures |RecentPeers(calls, i, window)| <= MAXIMUM_PEERS
      {
        SpreadFloodLoad(t, i, window);
      }
      assert LoadAtMost(calls, MAXIMUM_PEERS, window);
    }
  }
}
