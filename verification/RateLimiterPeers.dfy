/** What the bounded limiter promises to one peer. */
module RateLimiterPeers {
  import opened RateLimiter
  import opened RateLimiterRuns

  // ---------- Retrying ----------

  /**
   A peer that has been silent for six seconds is admitted, whatever happened before and even if
   it was forgotten meanwhile. The `Retry-After` of sixty seconds is therefore always enough.
   */
  lemma SilentPeerIsAdmitted(calls: seq<Call>, i: nat)
    requires i < |calls|
    requires forall j :: 0 <= j < i && calls[j].address == calls[i].address ==> calls[j].now <= calls[i].now - 6_000.0
    ensures Answer(calls, i)
  {
    EntriesOk(calls, i);
    var l, a := After(calls, i), calls[i].address;
    if a in l.peers {
      assert SeenAt(calls, i, a, l.peers[a].lastSeen);
      assert l.peers[a].lastSeen <= calls[i].now - 6_000.0;
    }
  }

  // ---------- The rate ----------

  /** What the bucket of `a` holds at time `now`; a peer that is not in the map would get a full one. */
  function Potential(l: Limiter, a: string, now: real): (tokens: real)
    ensures tokens <= CAPACITY
  {
    if a in l.peers then Refill(l.peers[a], now).tokens else CAPACITY
  }

  ghost predicate KeptBy(l: Limiter, address: string, a: string)
    requires l.Valid()
  {
    MustEvict(l, address) && l.order != [] ==> Oldest(l) != a
  }

  /** None of the calls from `first` up to `last` makes the map forget `a`. */
  ghost predicate Kept(calls: seq<Call>, first: nat, last: nat, a: string)
    requires first <= last < |calls|
  {
    forall k :: first <= k <= last ==> KeptBy(After(calls, k), calls[k].address, a)
  }

  /** How many of the calls of `a`, from call `first` up to `last`, are admitted. */
  ghost function Admissions(calls: seq<Call>, first: nat, last: nat, a: string): nat
    requires first <= last < |calls|
  {
    (if calls[last].address == a && Answer(calls, last) then 1 else 0)
    + (if first == last then 0 else Admissions(calls, first, last - 1, a))
  }

  /** An admitted call takes one token, and no call adds more than what flows back with time. */
  lemma AdmissionCosts(l: Limiter, before: real, now: real, address: string, a: string)
    requires l.Valid() && before <= now && KeptBy(l, address, a)
    requires a in l.peers ==> l.peers[a].lastSeen <= before
    ensures var (l1, admitted) := Admit(l, now, address);
            Potential(l1, a, now) + (if address == a && admitted then 1.0 else 0.0)
            <= Potential(l, a, before) + (now - before) / 6_000.0
  {
    OrderHasSizeOfMap(l);
  }

  lemma SeenBefore(calls: seq<Call>, n: nat, a: string, now: real)
    requires n <= |calls| && a in After(calls, n).peers
    requires forall j :: 0 <= j < n ==> calls[j].now <= now
    ensures After(calls, n).peers[a].lastSeen <= now
  {
    EntriesOk(calls, n);
    assert SeenAt(calls, n, a, After(calls, n).peers[a].lastSeen);
  }

  lemma {:induction false} PotentialBounds(calls: seq<Call>, first: nat, last: nat, a: string)
    requires Monotone(calls) && first <= last < |calls| && Kept(calls, first, last, a)
    ensures Admissions(calls, first, last, a) as real + Potential(After(calls, last + 1), a, calls[last].now)
            <= CAPACITY + (calls[last].now - calls[first].now) / 6_000.0
    decreases last
  {
    hide Admit, Potential, KeptBy, Limiter.Valid;
    var l := After(calls, last);
    var earlier := if first == last then calls[last].now else calls[last - 1].now;
    if a in l.peers { SeenBefore(calls, last, a, earlier); }
    AdmissionCosts(l, earlier, calls[last].now, calls[last].address, a);
    if first < last {
      PotentialBounds(calls, first, last - 1, a);
    }
  }

  /** While the map keeps a peer, it is admitted at most six times, and once more for every six seconds. */
  lemma AdmissionRate(calls: seq<Call>, first: nat, last: nat, a: string)
    requires Monotone(calls) && first <= last < |calls| && Kept(calls, first, last, a)
    ensures Admissions(calls, first, last, a) as real <= 6.0 + (calls[last].now - calls[first].now) / 6_000.0
  {
    PotentialBounds(calls, first, last, a);
    EntriesOk(calls, last + 1);
  }

  // ---------- Exactly when a call is admitted ----------

  /** The entry of `a` holds what six tokens and the time since call `first` leave after its admissions. */
  ghost predicate CountsFrom(calls: seq<Call>, n: nat, first: nat, a: string)
    requires first < n <= |calls|
  {
    var l := After(calls, n);
    && Kept(calls, first, n - 1, a) && a in l.peers
    && l.peers[a].tokens == CAPACITY - Admissions(calls, first, n - 1, a) as real
                            + (l.peers[a].lastSeen - calls[first].now) / 6_000.0
  }

  lemma KeptUntilNext(calls: seq<Call>, n: nat, a: string)
    requires n < |calls| && a in After(calls, n + 1).peers
    ensures KeptBy(After(calls, n), calls[n].address, a)
  {
    var l := After(calls, n);
    OrderHasSizeOfMap(l);
    if MustEvict(l, calls[n].address) { EvictKeepsValid(l); }
  }

  lemma StartsCounting(calls: seq<Call>, n: nat)
    requires n < |calls|
    requires var a, l := calls[n].address, After(calls, n);
             a in l.peers ==> Refill(l.peers[a], calls[n].now).tokens == CAPACITY
    ensures CountsFrom(calls, n + 1, n, calls[n].address)
  {
    KeptUntilNext(calls, n, calls[n].address);
  }

  lemma OwnCall(l: Limiter, now: real, a: string)
    requires l.Valid() && a in l.peers && l.peers[a].lastSeen <= now && Refill(l.peers[a], now).tokens < CAPACITY
    ensures var tokens := l.peers[a].tokens + (now - l.peers[a].lastSeen) / 6_000.0;
            var (l1, admitted) := Admit(l, now, a);
            && admitted == (tokens >= 1.0)
            && a in l1.peers && l1.peers[a] == Peer(now, if admitted then tokens - 1.0 else tokens)
  {
  }

  lemma OthersCall(l: Limiter, now: real, address: string, a: string)
    requires l.Valid() && address != a && a in Admit(l, now, address).0.peers
    ensures a in l.peers && Admit(l, now, address).0.peers[a] == l.peers[a]
  {
    OrderHasSizeOfMap(l);
  }

  lemma KeptLonger(calls: seq<Call>, first: nat, n: nat, a: string)
    requires first < n < |calls| && Kept(calls, first, n - 1, a) && KeptBy(After(calls, n), calls[n].address, a)
    ensures Kept(calls, first, n, a)
  {
    hide KeptBy, MustEvict, Limiter.Valid;
  }

  lemma GoesOnCounting(calls: seq<Call>, n: nat, first: nat, a: string)
    requires first < n < |calls| && CountsFrom(calls, n, first, a) && a in After(calls, n + 1).peers
    requires After(calls, n).peers[a].lastSeen <= calls[n].now
    requires calls[n].address == a ==> Refill(After(calls, n).peers[a], calls[n].now).tokens < CAPACITY
    ensures CountsFrom(calls, n + 1, first, a)
  {
    hide Admit, KeptBy, Kept, Refill, Limiter.Valid;
    KeptUntilNext(calls, n, a);
    KeptLonger(calls, first, n, a);
    if calls[n].address == a {
      OwnCall(After(calls, n), calls[n].now, a);
    } else {
      OthersCall(After(calls, n), calls[n].now, calls[n].address, a);
    }
  }

  lemma {:induction false} CountsFromSomewhere(calls: seq<Call>, n: nat, a: string) returns (first: nat)
    requires Monotone(calls) && n <= |calls| && a in After(calls, n).peers
    ensures first < n && CountsFrom(calls, n, first, a)
  {
    hide CountsFrom, Admit, Refill, Limiter.Valid;
    var l := After(calls, n - 1);
    var known := a in l.peers;
    if known { SeenBefore(calls, n - 1, a, calls[n - 1].now); }
    if calls[n - 1].address == a && (!known || Refill(l.peers[a], calls[n - 1].now).tokens == CAPACITY) {
      StartsCounting(calls, n - 1);
      first := n - 1;
    } else {
      assert known by { AdmitAddsOnlyCaller(l, calls[n - 1].now, calls[n - 1].address, a); }
      first := CountsFromSomewhere(calls, n - 1, a);
      GoesOnCounting(calls, n - 1, first, a);
    }
  }

  lemma AdmitAddsOnlyCaller(l: Limiter, now: real, address: string, a: string)
    requires l.Valid() && a in Admit(l, now, address).0.peers
    ensures a == address || a in l.peers
  {
    OrderHasSizeOfMap(l);
  }

  /** Admitting call `i` too would exceed six tokens plus what has flowed back since call `first`. */
  ghost predicate OverRate(calls: seq<Call>, first: nat, i: nat)
    requires first <= i < |calls|
  {
    var before := if first == i then 0 else Admissions(calls, first, i - 1, calls[i].address);
    before as real + 1.0 > 6.0 + (calls[i].now - calls[first].now) / 6_000.0
  }

  lemma DeniedIsKnown(l: Limiter, now: real, a: string)
    requires l.Valid() && !Admit(l, now, a).1
    ensures a in l.peers && Refill(l.peers[a], now).tokens < 1.0 && KeptBy(l, a, a)
  {
  }

  lemma DeniedIsOverRate(calls: seq<Call>, i: nat)
    requires Monotone(calls) && i < |calls| && !Answer(calls, i)
    ensures exists first :: 0 <= first <= i && Kept(calls, first, i, calls[i].address) && OverRate(calls, first, i)
  {
    hide Admit, KeptBy, Kept, Limiter.Valid;
    var a, l := calls[i].address, After(calls, i);
    DeniedIsKnown(l, calls[i].now, a);
    SeenBefore(calls, i, a, calls[i].now);
    var first := CountsFromSomewhere(calls, i, a);
    KeptLonger(calls, first, i, a);
    assert OverRate(calls, first, i);
  }

  lemma OverRateIsDenied(calls: seq<Call>, i: nat, first: nat)
    requires Monotone(calls) && first <= i < |calls|
    requires Kept(calls, first, i, calls[i].address) && OverRate(calls, first, i)
    ensures !Answer(calls, i)
  {
    hide Answer, Kept;
    AdmissionRate(calls, first, i, calls[i].address);
  }

  /** A call is denied iff admitting it would exceed the rate over some stretch in which its peer was not forgotten. */
  lemma DeniedIffOverRate(calls: seq<Call>, i: nat)
    requires Monotone(calls) && i < |calls|
    ensures !Answer(calls, i)
            <==> exists first :: 0 <= first <= i && Kept(calls, first, i, calls[i].address) && OverRate(calls, first, i)
  {
    hide Answer, Kept, OverRate;
    if !Answer(calls, i) {
      DeniedIsOverRate(calls, i);
    } else if first :| 0 <= first <= i && Kept(calls, first, i, calls[i].address) && OverRate(calls, first, i) {
      OverRateIsDenied(calls, i, first);
    }
  }

  // ---------- Denied calls ----------

  /** The two maps charge every peer alike from time `now` on. */
  ghost predicate SameBuckets(m: Ideal, m1: Ideal, now: real) {
    forall a :: (a in m <==> a in m1)
                && (a in m ==> m[a].lastSeen <= now && m1[a].lastSeen <= now && Refill(m[a], now) == Refill(m1[a], now))
  }

  lemma RefillTwice(p: Peer, now: real, later: real)
    requires p.lastSeen <= now <= later
    ensures Refill(Refill(p, now), later) == Refill(p, later)
  {
  }

  lemma SameBucketsLater(m: Ideal, m1: Ideal, now: real, later: real)
    requires SameBuckets(m, m1, now) && now <= later
    ensures SameBuckets(m, m1, later)
  {
    forall a | a in m
      ensures a in m1 && m[a].lastSeen <= later && m1[a].lastSeen <= later
              && Refill(m[a], later) == Refill(m1[a], later)
    {
      RefillTwice(m[a], now, later);
      RefillTwice(m1[a], now, later);
    }
  }

  lemma SameBucketsAdmit(m: Ideal, m1: Ideal, now: real, address: string)
    requires SameBuckets(m, m1, now)
    ensures IdealAdmit(m, now, address).1 == IdealAdmit(m1, now, address).1
    ensures SameBuckets(IdealAdmit(m, now, address).0, IdealAdmit(m1, now, address).0, now)
  {
  }

  lemma DenialLeavesBuckets(m: Ideal, now: real, address: string)
    requires !IdealAdmit(m, now, address).1 && (forall a :: a in m ==> m[a].lastSeen <= now)
    ensures SameBuckets(IdealAdmit(m, now, address).0, m, now)
  {
    RefillTwice(m[address], now, now);
  }

  /** The sequence without element `k`: a run without call `k`. */
  function Without<T>(s: seq<T>, k: nat): seq<T>
    requires k < |s|
  {
    s[..k] + s[k + 1..]
  }

  lemma IdealSeenBefore(calls: seq<Call>, n: nat, now: real)
    requires n <= |calls| && (forall j :: 0 <= j < n ==> calls[j].now <= now)
    ensures forall a :: a in IdealAfter(calls, n) ==> IdealAfter(calls, n)[a].lastSeen <= now
  {
    IdealBucketsOk(calls, n);
    forall a | a in IdealAfter(calls, n)
      ensures IdealAfter(calls, n)[a].lastSeen <= now
    {
      assert SeenAt(calls, n, a, IdealAfter(calls, n)[a].lastSeen);
    }
  }

  lemma {:induction false} IdealPrefix(calls: seq<Call>, rest: seq<Call>, n: nat)
    requires n <= |calls| && n <= |rest| && calls[..n] == rest[..n]
    ensures IdealAfter(calls, n) == IdealAfter(rest, n)
  {
    hide IdealAdmit;
    if n > 0 {
      assert calls[..n][..n - 1] == calls[..n - 1] && rest[..n][..n - 1] == rest[..n - 1];
      IdealPrefix(calls, rest, n - 1);
      assert calls[n - 1] == calls[..n][n - 1] == rest[..n][n - 1] == rest[n - 1];
    }
  }

  /** After call `n`, the run without its denied call `k` is in an equivalent state. */
  lemma {:induction false} IdealDenialIsFree(calls: seq<Call>, k: nat, n: nat)
    requires Monotone(calls) && k <= n < |calls| && !IdealAnswer(calls, k)
    ensures SameBuckets(IdealAfter(calls, n + 1), IdealAfter(Without(calls, k), n), calls[n].now)
    ensures k < n ==> IdealAnswer(calls, n) == IdealAnswer(Without(calls, k), n - 1)
    decreases n
  {
    hide SameBuckets, IdealAdmit;
    var rest := Without(calls, k);
    if k == n {
      IdealPrefix(calls, rest, k);
      IdealSeenBefore(calls, k, calls[k].now);
      DenialLeavesBuckets(IdealAfter(calls, k), calls[k].now, calls[k].address);
    } else {
      IdealDenialIsFree(calls, k, n - 1);
      assert rest[n - 1] == calls[n];
      SameBucketsLater(IdealAfter(calls, n), IdealAfter(rest, n - 1), calls[n - 1].now, calls[n].now);
      SameBucketsAdmit(IdealAfter(calls, n), IdealAfter(rest, n - 1), calls[n].now, calls[n].address);
    }
  }

  lemma WithoutCallIsLight(calls: seq<Call>, k: nat)
    requires k < |calls| && LoadAtMost(calls, MAXIMUM_PEERS, REFILL_WINDOW)
    ensures LoadAtMost(Without(calls, k), MAXIMUM_PEERS, REFILL_WINDOW)
  {
    var rest := Without(calls, k);
    forall i | 0 <= i < |rest|
      ensures |RecentPeers(rest, i, REFILL_WINDOW)| <= MAXIMUM_PEERS
    {
      var i0 := if i < k then i else i + 1;
      forall a | a in RecentPeers(rest, i, REFILL_WINDOW)
        ensures a in RecentPeers(calls, i0, REFILL_WINDOW)
      {
        var j :| 0 <= j <= i && rest[i].now - REFILL_WINDOW < rest[j].now && rest[j].address == a;
        assert calls[if j < k then j else j + 1] == rest[j];
      }
      SubsetSize(RecentPeers(rest, i, REFILL_WINDOW), RecentPeers(calls, i0, REFILL_WINDOW));
    }
  }

  lemma WithoutCallIsMonotone(calls: seq<Call>, k: nat)
    requires k < |calls| && Monotone(calls)
    ensures Monotone(Without(calls, k))
  {
  }

  /** Under the load the map can hold, a denied call costs nobody anything: without it, every other answer is
      the same. */
  lemma DenialIsFree(calls: seq<Call>, k: nat, n: nat)
    requires Monotone(calls) && LoadAtMost(calls, 1_024, 36_000.0)
    requires k < n < |calls| && !Answer(calls, k)
    ensures Answer(calls, n) == Answer(Without(calls, k), n - 1)
  {
    hide Answer, IdealAnswer, LoadAtMost, Monotone;
    BoundedIsIdeal(calls);
    IdealDenialIsFree(calls, k, n);
    WithoutCallIsLight(calls, k);
    WithoutCallIsMonotone(calls, k);
    BoundedIsIdeal(Without(calls, k));
  }
}
