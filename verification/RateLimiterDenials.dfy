/**
 A denied call and the run without it. The two runs give the same answers as long as no call makes the run without
 the denied call forget its peer while the real run keeps it, however heavy the load.
 */
module RateLimiterDenials {
  import opened RateLimiter
  import opened RateLimiterRuns
  import opened RateLimiterPeers

  // ---------- Two maps ----------

  /** The two maps differ in the entry of `a` only, which `l` has seen later but charges alike from `now` on. */
  ghost predicate Similar(l: Limiter, l1: Limiter, a: string, now: real) {
    && l.order == l1.order && l.peers.Keys == l1.peers.Keys && a in l.peers
    && (forall b :: b in l.peers && b != a ==> l.peers[b] == l1.peers[b])
    && l1.peers[a].lastSeen <= l.peers[a].lastSeen <= now
    && Refill(l.peers[a], now) == Refill(l1.peers[a], now)
  }

  lemma SimilarLater(l: Limiter, l1: Limiter, a: string, now: real, later: real)
    requires Similar(l, l1, a, now) && now <= later
    ensures Similar(l, l1, a, later)
  {
    RefillTwice(l.peers[a], now, later);
    RefillTwice(l1.peers[a], now, later);
  }

  lemma DenialIsSimilar(l: Limiter, now: real, a: string)
    requires l.Valid() && !Admit(l, now, a).1
    requires a in l.peers ==> l.peers[a].lastSeen <= now
    ensures Similar(Admit(l, now, a).0, l, a, now)
  {
    RefillTwice(l.peers[a], now, now);
  }

  /** An index is the oldest one when it has the least `lastSeen`, and earlier ones have a greater. */
  lemma OldestIs(l: Limiter, k: nat)
    requires l.Valid() && k < |l.order|
    requires forall i :: 0 <= i < |l.order| ==> l.peers[l.order[k]].lastSeen <= l.peers[l.order[i]].lastSeen
    requires forall i :: 0 <= i < k ==> l.peers[l.order[k]].lastSeen < l.peers[l.order[i]].lastSeen
    ensures OldestIndex(l, |l.order|) == k
  {
    var oldest := OldestIndex(l, |l.order|);
    assert l.peers[l.order[oldest]].lastSeen <= l.peers[l.order[k]].lastSeen;
  }

  lemma SeenNoLater(l: Limiter, l1: Limiter, a: string, now: real, i: nat)
    requires l.Valid() && l1.Valid() && Similar(l, l1, a, now) && i < |l.order|
    ensures l1.peers[l1.order[i]].lastSeen <= l.peers[l.order[i]].lastSeen
    ensures l.order[i] != a ==> l1.peers[l1.order[i]] == l.peers[l.order[i]]
  {
    hide Refill;
    assert l.order[i] in l.order;
  }

  /** While `a` is not the one to forget, similar maps forget the same peer. */
  lemma SameOldest(l: Limiter, l1: Limiter, a: string, now: real)
    requires l.Valid() && l1.Valid() && Similar(l, l1, a, now) && l1.order != [] && Oldest(l1) != a
    ensures OldestIndex(l, |l.order|) == OldestIndex(l1, |l1.order|)
  {
    hide Similar, Unique, Refill;
    var k := OldestIndex(l1, |l1.order|);
    assert l.order == l1.order by { SimilarShape(l, l1, a, now); }
    forall i | 0 <= i < |l.order|
      ensures l1.peers[l1.order[i]].lastSeen <= l.peers[l.order[i]].lastSeen
    {
      SeenNoLater(l, l1, a, now, i);
    }
    SeenNoLater(l, l1, a, now, k);
    OldestIs(l, k);
  }

  lemma SimilarShape(l: Limiter, l1: Limiter, a: string, now: real)
    requires Similar(l, l1, a, now)
    ensures l.order == l1.order && |l.peers| == |l1.peers| && a in l.peers && a in l1.peers
    ensures forall b :: b in l.peers <==> b in l1.peers
  {
    assert |l.peers.Keys| == |l.peers| && |l1.peers.Keys| == |l1.peers|;
    assert a in l1.peers.Keys;
  }

  lemma SameEviction(l: Limiter, l1: Limiter, a: string, now: real)
    requires l.Valid() && l1.Valid() && Similar(l, l1, a, now) && l1.order != [] && Oldest(l1) != a
    ensures Similar(Evict(l), Evict(l1), a, now)
  {
    hide OldestIndex, Refill, Limiter.Valid;
    SameOldest(l, l1, a, now);
  }

  lemma BothForget(l: Limiter, l1: Limiter, a: string, now: real)
    requires l.Valid() && l1.Valid() && Similar(l, l1, a, now) && l.order != [] && Oldest(l) == Oldest(l1) == a
    ensures Evict(l) == Evict(l1)
  {
    hide OldestIndex, Refill;
    SimilarShape(l, l1, a, now);
    assert l.order[OldestIndex(l, |l.order|)] == l1.order[OldestIndex(l1, |l1.order|)];
    assert OldestIndex(l, |l.order|) == OldestIndex(l1, |l1.order|);
    assert l.peers - {a} == l1.peers - {a};
  }

  /** The call makes the map `l1` forget `a`, and `l` forget another peer. */
  ghost predicate SetsApart(l: Limiter, l1: Limiter, address: string, a: string)
    requires l.Valid() && l1.Valid()
  {
    KeptBy(l, address, a) && !KeptBy(l1, address, a)
  }

  lemma OwnCallAlike(l: Limiter, l1: Limiter, a: string, now: real)
    requires l.Valid() && l1.Valid() && Similar(l, l1, a, now)
    ensures Admit(l, now, a) == Admit(l1, now, a)
  {
    hide Refill;
    assert Admit(l, now, a).0.peers == Admit(l1, now, a).0.peers;
  }

  lemma OthersCallAlike(l: Limiter, l1: Limiter, a: string, now: real, address: string)
    requires l.Valid() && l1.Valid() && Similar(l, l1, a, now) && address != a && KeptBy(l1, address, a)
    ensures Admit(l, now, address).1 == Admit(l1, now, address).1
    ensures Similar(Admit(l, now, address).0, Admit(l1, now, address).0, a, now)
  {
    hide OldestIndex, Evict, Unique, Refill;
    SimilarShape(l, l1, a, now);
    if MustEvict(l, address) {
      OrderHasSizeOfMap(l1);
      SameEviction(l, l1, a, now);
    }
  }

  lemma ForgettingCallAlike(l: Limiter, l1: Limiter, a: string, now: real, address: string)
    requires l.Valid() && l1.Valid() && Similar(l, l1, a, now)
    requires !KeptBy(l, address, a) && !KeptBy(l1, address, a)
    ensures Admit(l, now, address) == Admit(l1, now, address)
  {
    hide OldestIndex, Evict, Unique, Refill, Similar;
    SimilarShape(l, l1, a, now);
    BothForget(l, l1, a, now);
  }

  lemma SimilarAdmit(l: Limiter, l1: Limiter, a: string, now: real, address: string)
    requires l.Valid() && l1.Valid() && Similar(l, l1, a, now) && !SetsApart(l, l1, address, a)
    ensures Admit(l, now, address).1 == Admit(l1, now, address).1
    ensures || Admit(l, now, address).0 == Admit(l1, now, address).0
            || (address != a && Similar(Admit(l, now, address).0, Admit(l1, now, address).0, a, now))
  {
    hide Admit, Similar, Limiter.Valid, KeptBy;
    if address == a {
      OwnCallAlike(l, l1, a, now);
    } else if KeptBy(l1, address, a) {
      OthersCallAlike(l, l1, a, now, address);
    } else {
      ForgettingCallAlike(l, l1, a, now, address);
    }
  }

  // ---------- Two runs ----------

  lemma {:induction false} SamePrefix(calls: seq<Call>, rest: seq<Call>, n: nat)
    requires n <= |calls| && n <= |rest| && calls[..n] == rest[..n]
    ensures After(calls, n) == After(rest, n)
  {
    hide Admit, Limiter.Valid;
    if n > 0 {
      assert calls[..n - 1] == calls[..n][..n - 1] && rest[..n - 1] == rest[..n][..n - 1];
      SamePrefix(calls, rest, n - 1);
      assert calls[n - 1] == calls[..n][n - 1] == rest[..n][n - 1] == rest[n - 1];
    }
  }

  /** Call `m + 1` of the run, which is call `m` of the run without call `k`, sets the two maps apart. */
  ghost predicate SetApartBy(calls: seq<Call>, k: nat, m: nat)
    requires k <= m < |calls| - 1
  {
    SetsApart(After(calls, m + 1), After(Without(calls, k), m), calls[m + 1].address, calls[k].address)
  }

  /** After call `n`, the run without its denied call `k` is in the same state, or in a similar one. */
  ghost predicate Follows(calls: seq<Call>, k: nat, n: nat)
    requires k <= n < |calls|
  {
    var l, l1 := After(calls, n + 1), After(Without(calls, k), n);
    l == l1 || Similar(l, l1, calls[k].address, calls[n].now)
  }

  lemma {:induction false} RestFollows(calls: seq<Call>, k: nat, n: nat)
    requires Monotone(calls) && k <= n < |calls| && !Answer(calls, k)
    requires forall m :: k <= m < n ==> !SetApartBy(calls, k, m)
    ensures Follows(calls, k, n)
    ensures k < n ==> Answer(calls, n) == Answer(Without(calls, k), n - 1)
    decreases n
  {
    hide Similar, Admit, SetsApart, Limiter.Valid;
    var a, rest := calls[k].address, Without(calls, k);
    if k == n {
      assert rest[..k] == calls[..k];
      SamePrefix(calls, rest, k);
      DeniedIsKnown(After(calls, k), calls[k].now, a);
      SeenBefore(calls, k, a, calls[k].now);
      DenialIsSimilar(After(calls, k), calls[k].now, a);
    } else {
      RestFollows(calls, k, n - 1);
      assert rest[n - 1] == calls[n];
      var l, l1 := After(calls, n), After(rest, n - 1);
      if l != l1 {
        SimilarLater(l, l1, a, calls[n - 1].now, calls[n].now);
        assert !SetApartBy(calls, k, n - 1);
        SimilarAdmit(l, l1, a, calls[n].now, calls[n].address);
      }
    }
  }

  /** No call after call `k` sets the run and the run without call `k` apart. */
  ghost predicate NeverSetApart(calls: seq<Call>, k: nat)
    requires k < |calls|
  {
    forall m :: k <= m < |calls| - 1 ==> !SetApartBy(calls, k, m)
  }

  /**
   Without a denied call, every later answer is the same, to whomever it is given, as long as no call makes the run
   without it forget the denied peer while the real run keeps it.
   */
  lemma DenialIsForgotten(calls: seq<Call>, k: nat, n: nat)
    requires Monotone(calls) && k < n < |calls| && !Answer(calls, k)
    requires forall m :: k <= m < n ==> !SetApartBy(calls, k, m)
    ensures Answer(calls, n) == Answer(Without(calls, k), n - 1)
  {
    RestFollows(calls, k, n);
  }

  /** In particular while the run without the denied call keeps the peer. */
  lemma DenialOfKeptPeerIsFree(calls: seq<Call>, k: nat, n: nat)
    requires Monotone(calls) && k < n < |calls| && !Answer(calls, k)
    requires Kept(Without(calls, k), k, n - 1, calls[k].address)
    ensures Answer(calls, n) == Answer(Without(calls, k), n - 1)
  {
    var rest := Without(calls, k);
    forall m | k <= m < n
      ensures !SetApartBy(calls, k, m)
    {
      assert rest[m] == calls[m + 1];
      assert KeptBy(After(rest, m), rest[m].address, calls[k].address);
    }
    DenialIsForgotten(calls, k, n);
  }

  // ---------- Many denied calls ----------

  ghost function Answers(calls: seq<Call>): (r: seq<bool>)
    ensures |r| == |calls| && (forall i :: 0 <= i < |calls| ==> r[i] == Answer(calls, i))
  {
    seq(|calls|, i requires 0 <= i < |calls| => Answer(calls, i))
  }

  /** The answers without a denied call are the answers without its answer. */
  lemma AnswersWithoutDenial(calls: seq<Call>, k: nat)
    requires Monotone(calls) && k < |calls| && !Answer(calls, k) && NeverSetApart(calls, k)
    ensures Answers(Without(calls, k)) == Without(Answers(calls), k)
  {
    hide Answer, SetApartBy, Monotone;
    var rest := Without(calls, k);
    forall i | 0 <= i < |rest|
      ensures Answer(rest, i) == Without(Answers(calls), k)[i]
    {
      if i < k {
        AnswerOfPrefix(calls, rest, i, k);
      } else {
        DenialIsForgotten(calls, k, i + 1);
      }
    }
  }

  lemma AnswerOfPrefix(calls: seq<Call>, rest: seq<Call>, i: nat, n: nat)
    requires i < n <= |calls| && n <= |rest| && calls[..n] == rest[..n]
    ensures Answer(calls, i) == Answer(rest, i)
  {
    hide Admit;
    assert calls[..i] == calls[..n][..i] && rest[..i] == rest[..n][..i];
    assert calls[i] == calls[..n][i] == rest[..n][i] == rest[i];
    SamePrefix(calls, rest, i);
  }

  /** The elements at the given places, the last place first, are taken out. */
  function WithoutAll<T>(s: seq<T>, ks: seq<nat>): seq<T>
    requires (forall i :: 0 <= i < |ks| ==> ks[i] < |s|) && (forall i, j :: 0 <= i < j < |ks| ==> ks[i] > ks[j])
    decreases |ks|
  {
    if ks == [] then s else WithoutAll(Without(s, ks[0]), ks[1..])
  }

  /** Taking the calls out one after the other, none of them leaves two runs that are set apart. */
  ghost predicate AllNeverSetApart(calls: seq<Call>, ks: seq<nat>)
    requires forall i :: 0 <= i < |ks| ==> ks[i] < |calls|
    requires forall i, j :: 0 <= i < j < |ks| ==> ks[i] > ks[j]
    decreases |ks|
  {
    ks == [] || (NeverSetApart(calls, ks[0]) && AllNeverSetApart(Without(calls, ks[0]), ks[1..]))
  }

  /** Any number of denied calls, of one peer or of many, can be taken out: the other calls keep their answers. */
  lemma {:induction false} AnswersWithoutDenials(calls: seq<Call>, ks: seq<nat>)
    requires forall i :: 0 <= i < |ks| ==> ks[i] < |calls|
    requires forall i, j :: 0 <= i < j < |ks| ==> ks[i] > ks[j]
    requires Monotone(calls) && (forall i :: 0 <= i < |ks| ==> !Answer(calls, ks[i])) && AllNeverSetApart(calls, ks)
    ensures Answers(WithoutAll(calls, ks)) == WithoutAll(Answers(calls), ks)
    decreases |ks|
  {
    hide Answer, NeverSetApart, Monotone;
    if ks != [] {
      var k, rest := ks[0], Without(calls, ks[0]);
      AnswersWithoutDenial(calls, k);
      WithoutCallIsMonotone(calls, k);
      forall i | 0 <= i < |ks| - 1
        ensures ks[1..][i] < |rest| && !Answer(rest, ks[1..][i])
      {
        assert rest[..k] == calls[..k];
        AnswerOfPrefix(calls, rest, ks[i + 1], k);
      }
      AnswersWithoutDenials(rest, ks[1..]);
    }
  }

  /** Under a load that the map can hold, no condition is needed. */
  lemma {:induction false} AnswersWithoutDenialsUnderLoad(calls: seq<Call>, ks: seq<nat>)
    requires forall i :: 0 <= i < |ks| ==> ks[i] < |calls|
    requires forall i, j :: 0 <= i < j < |ks| ==> ks[i] > ks[j]
    requires Monotone(calls) && LoadAtMost(calls, MAXIMUM_PEERS, REFILL_WINDOW)
    requires forall i :: 0 <= i < |ks| ==> !Answer(calls, ks[i])
    ensures Answers(WithoutAll(calls, ks)) == WithoutAll(Answers(calls), ks)
    decreases |ks|
  {
    hide Answer, LoadAtMost, Monotone;
    if ks != [] {
      var k, rest := ks[0], Without(calls, ks[0]);
      WithoutCallIsMonotone(calls, k);
      WithoutCallIsLight(calls, k);
      assert rest[..k] == calls[..k];
      forall i | 0 <= i < |rest|
        ensures Answer(rest, i) == Without(Answers(calls), k)[i]
      {
        if i < k { AnswerOfPrefix(calls, rest, i, k); } else { DenialIsFree(calls, k, i + 1); }
      }
      assert Answers(rest) == Without(Answers(calls), k);
      forall i | 0 <= i < |ks| - 1
        ensures ks[1..][i] < |rest| && !Answer(rest, ks[1..][i])
      {
        AnswerOfPrefix(calls, rest, ks[i + 1], k);
      }
      AnswersWithoutDenialsUnderLoad(rest, ks[1..]);
    }
  }
}
