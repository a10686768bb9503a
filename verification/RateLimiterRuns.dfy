/** The bounded limiter against an ideal one that never forgets, over whole runs of calls. */
module RateLimiterRuns {
  import opened RateLimiter

  datatype Call = Call(now: real, address: string)

  /** The clock is `performance.now`, which never goes back. */
  ghost predicate Monotone(calls: seq<Call>) {
    forall i, j :: 0 <= i <= j < |calls| ==> calls[i].now <= calls[j].now
  }

  // ---------- The bounded limiter ----------

  /** The limiter after the first `n` calls of a run. */
  ghost function After(calls: seq<Call>, n: nat): (l: Limiter)
    requires n <= |calls|
    ensures l.Valid()
  {
    if n == 0 then EMPTY
    else
      var before := After(calls, n - 1);
      AdmitKeepsValid(before, calls[n - 1].now, calls[n - 1].address);
      Admit(before, calls[n - 1].now, calls[n - 1].address).0
  }

  /** The answer to call `i`. */
  ghost function Answer(calls: seq<Call>, i: nat): bool
    requires i < |calls|
  {
    Admit(After(calls, i), calls[i].now, calls[i].address).1
  }

  // ---------- The ideal limiter ----------

  type Ideal = map<string, Peer>

  function Charged(m: Ideal, now: real, address: string): Peer {
    if address in m then Refill(m[address], now) else Peer(now, CAPACITY)
  }

  /** One token bucket per address, for ever. */
  function IdealAdmit(m: Ideal, now: real, address: string): (Ideal, bool) {
    var peer := Charged(m, now, address);
    (m[address := Spend(peer)], peer.tokens >= 1.0)
  }

  ghost function IdealAfter(calls: seq<Call>, n: nat): Ideal
    requires n <= |calls|
  {
    if n == 0 then map[] else IdealAdmit(IdealAfter(calls, n - 1), calls[n - 1].now, calls[n - 1].address).0
  }

  ghost function IdealAnswer(calls: seq<Call>, i: nat): bool
    requires i < |calls|
  {
    IdealAdmit(IdealAfter(calls, i), calls[i].now, calls[i].address).1
  }

  /** Every call of the run gets the answer of the ideal limiter. */
  ghost predicate AnswersIdeally(calls: seq<Call>) {
    forall i :: 0 <= i < |calls| ==> Answer(calls, i) == IdealAnswer(calls, i)
  }

  // ---------- The load ----------

  /** The addresses that called in the window of the given length that ends with call `i`. */
  ghost function RecentPeers(calls: seq<Call>, i: nat, window: real): set<string>
    requires i < |calls|
  {
    set j | 0 <= j <= i && calls[i].now - window < calls[j].now :: calls[j].address
  }

  ghost predicate LoadAtMost(calls: seq<Call>, peers: nat, window: real) {
    forall i :: 0 <= i < |calls| ==> |RecentPeers(calls, i, window)| <= peers
  }

  // ---------- Buckets ----------

  /** One of the first `n` calls is a call of `address` at time `when`. */
  ghost predicate SeenAt(calls: seq<Call>, n: nat, address: string, when: real) {
    exists j :: 0 <= j < n && j < |calls| && calls[j].address == address && calls[j].now == when
  }

  /** No bucket is overdrawn, and each one was last charged by one of the first `n` calls. */
  ghost predicate BucketsOk(calls: seq<Call>, n: nat, m: Ideal) {
    forall a :: a in m ==> 0.0 <= m[a].tokens && SeenAt(calls, n, a, m[a].lastSeen)
  }

  lemma ChargeKeepsBuckets(calls: seq<Call>, n: nat, m: Ideal, m1: Ideal)
    requires n < |calls| && BucketsOk(calls, n, m)
    requires forall a :: a in m1 ==>
               if a == calls[n].address then 0.0 <= m1[a].tokens && m1[a].lastSeen == calls[n].now
               else a in m && m1[a] == m[a]
    ensures BucketsOk(calls, n + 1, m1)
  {
    forall a | a in m1
      ensures 0.0 <= m1[a].tokens && SeenAt(calls, n + 1, a, m1[a].lastSeen)
    {
      if a != calls[n].address { assert SeenAt(calls, n, a, m[a].lastSeen); }
    }
  }

  lemma {:induction false} IdealBucketsOk(calls: seq<Call>, n: nat)
    requires n <= |calls|
    ensures BucketsOk(calls, n, IdealAfter(calls, n))
  {
    if n > 0 {
      IdealBucketsOk(calls, n - 1);
      ChargeKeepsBuckets(calls, n - 1, IdealAfter(calls, n - 1), IdealAfter(calls, n));
    }
  }

  /** A call charges its own peer and leaves the other entries alone, apart from forgetting one. */
  lemma AdmitTouchesOne(l: Limiter, now: real, address: string, a: string)
    requires l.Valid() && a in Admit(l, now, address).0.peers
    requires address in l.peers ==> 0.0 <= l.peers[address].tokens
    ensures var peer := Admit(l, now, address).0.peers[a];
            if a == address then peer.lastSeen == now && 0.0 <= peer.tokens else a in l.peers && peer == l.peers[a]
  {
    OrderHasSizeOfMap(l);
  }

  lemma AdmitKeepsEntries(calls: seq<Call>, n: nat, l: Limiter)
    requires n < |calls| && l.Valid() && BucketsOk(calls, n, l.peers)
    ensures BucketsOk(calls, n + 1, Admit(l, calls[n].now, calls[n].address).0.peers)
  {
    var m1 := Admit(l, calls[n].now, calls[n].address).0.peers;
    forall a | a in m1
      ensures if a == calls[n].address then 0.0 <= m1[a].tokens && m1[a].lastSeen == calls[n].now
              else a in l.peers && m1[a] == l.peers[a]
    {
      AdmitTouchesOne(l, calls[n].now, calls[n].address, a);
    }
    ChargeKeepsBuckets(calls, n, l.peers, m1);
  }

  lemma {:induction false} EntriesOk(calls: seq<Call>, n: nat)
    requires n <= |calls|
    ensures BucketsOk(calls, n, After(calls, n).peers)
  {
    hide Limiter.Valid, Admit;
    if n > 0 {
      EntriesOk(calls, n - 1);
      AdmitKeepsEntries(calls, n - 1, After(calls, n - 1));
    }
  }

  // ---------- Refinement ----------

  /** The bounded map is the ideal one without peers whose buckets have filled up again. */
  ghost predicate Refines(l: Limiter, m: Ideal, now: real) {
    && (forall a :: a in l.peers ==> a in m && l.peers[a] == m[a])
    && (forall a :: a in m && a !in l.peers ==> m[a].lastSeen <= now - REFILL_WINDOW)
  }

  lemma FullAgain(peer: Peer, now: real)
    requires 0.0 <= peer.tokens && peer.lastSeen <= now - REFILL_WINDOW
    ensures Refill(peer, now) == Peer(now, CAPACITY)
  {
  }

  lemma SubsetSize(a: set<string>, b: set<string>)
    requires a <= b
    ensures |a| <= |b|
  {
    assert b == a + (b - a);
  }

  /**
   Pigeonhole: when a full map must make room and no more peers than it can hold have called
   recently, the peer it forgets has been silent for the whole window.
   */
  lemma EvictedWasSilent(calls: seq<Call>, i: nat, l: Limiter, window: real)
    requires i < |calls| && l.Valid() && BucketsOk(calls, i, l.peers) && 0.0 < window
    requires MustEvict(l, calls[i].address) && l.order != []
    requires |RecentPeers(calls, i, window)| <= MAXIMUM_PEERS
    ensures l.peers[Oldest(l)].lastSeen <= calls[i].now - window
  {
    var now := calls[i].now;
    var oldest := l.peers[Oldest(l)].lastSeen;
    if oldest > now - window {
      var recent := RecentPeers(calls, i, window);
      forall a | a in l.peers
        ensures a in recent
      {
        var k :| 0 <= k < |l.order| && l.order[k] == a;
        assert oldest <= l.peers[a].lastSeen && SeenAt(calls, i, a, l.peers[a].lastSeen);
      }
      assert calls[i].address in recent;
      SubsetSize(l.peers.Keys + {calls[i].address}, recent);
      assert false;
    }
  }

  lemma KnownPeerRefines(l: Limiter, m: Ideal, now: real, address: string)
    requires l.Valid() && Refines(l, m, now) && address in l.peers
    ensures Refines(Admit(l, now, address).0, IdealAdmit(m, now, address).0, now)
    ensures Admit(l, now, address).1 == IdealAdmit(m, now, address).1
  {
  }

  /** A peer that is new to the map is charged as in the ideal limiter: its old bucket has filled up. */
  lemma NewPeerRefines(l: Limiter, m: Ideal, now: real, address: string)
    requires l.Valid() && Refines(l, m, now) && address !in l.peers && !MustEvict(l, address)
    requires address in m ==> 0.0 <= m[address].tokens
    ensures Refines(Admit(l, now, address).0, IdealAdmit(m, now, address).0, now)
    ensures Admit(l, now, address).1 == IdealAdmit(m, now, address).1
  {
    if address in m { FullAgain(m[address], now); }
  }

  lemma EvictionRefines(l: Limiter, m: Ideal, now: real, address: string)
    requires l.Valid() && Refines(l, m, now) && MustEvict(l, address) && l.order != []
    requires address in m ==> 0.0 <= m[address].tokens
    requires l.peers[Oldest(l)].lastSeen <= now - REFILL_WINDOW
    ensures Refines(Admit(l, now, address).0, IdealAdmit(m, now, address).0, now)
    ensures Admit(l, now, address).1 == IdealAdmit(m, now, address).1
  {
    EvictKeepsValid(l);
    NewPeerRefines(Evict(l), m, now, address);
  }

  lemma CallRefines(calls: seq<Call>, i: nat)
    requires i < |calls| && Refines(After(calls, i), IdealAfter(calls, i), calls[i].now)
    requires |RecentPeers(calls, i, REFILL_WINDOW)| <= MAXIMUM_PEERS
    ensures Refines(After(calls, i + 1), IdealAfter(calls, i + 1), calls[i].now)
    ensures Answer(calls, i) == IdealAnswer(calls, i)
  {
    var now, address := calls[i].now, calls[i].address;
    var l, m := After(calls, i), IdealAfter(calls, i);
    IdealBucketsOk(calls, i);
    if address in l.peers {
      KnownPeerRefines(l, m, now, address);
    } else if MustEvict(l, address) {
      OrderHasSizeOfMap(l);
      EntriesOk(calls, i);
      EvictedWasSilent(calls, i, l, REFILL_WINDOW);
      EvictionRefines(l, m, now, address);
    } else {
      NewPeerRefines(l, m, now, address);
    }
  }

  lemma {:induction false} RunRefines(calls: seq<Call>, n: nat)
    requires Monotone(calls) && LoadAtMost(calls, MAXIMUM_PEERS, REFILL_WINDOW) && n < |calls|
    ensures Refines(After(calls, n), IdealAfter(calls, n), calls[n].now)
    ensures Answer(calls, n) == IdealAnswer(calls, n)
  {
    if n > 0 {
      RunRefines(calls, n - 1);
      CallRefines(calls, n - 1);
      assert calls[n - 1].now <= calls[n].now;
    }
    CallRefines(calls, n);
  }

  /**
   While at most as many peers as the map can hold call within any 36 seconds, forgetting peers
   is invisible: every call is answered as by a limiter that forgets nothing.
   */
  lemma BoundedIsIdeal(calls: seq<Call>)
    requires Monotone(calls) && LoadAtMost(calls, 1_024, 36_000.0)
    ensures AnswersIdeally(calls)
  {
    forall i | 0 <= i < |calls|
      ensures Answer(calls, i) == IdealAnswer(calls, i)
    {
      RunRefines(calls, i);
    }
  }
}
