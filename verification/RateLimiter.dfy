/**
 The redemption rate limiter of `http-gateway.ts`: one token bucket per peer address, kept in a map
 of bounded size that forgets the peer seen least recently.
 */
module RateLimiter {
  const CAPACITY: real := 6.0
  const REFILL_PER_MILLISECOND: real := 10.0 / 60_000.0
  const MAXIMUM_PEERS: nat := 1_024
  /** The time an empty bucket takes to fill. */
  const REFILL_WINDOW: real := 36_000.0

  datatype Peer = Peer(lastSeen: real, tokens: real)

  function Min(x: real, y: real): real { if x <= y then x else y }

  function Max(x: real, y: real): real { if x >= y then x else y }

  function Refill(peer: Peer, now: real): (r: Peer)
    ensures r.tokens <= CAPACITY && (0.0 <= peer.tokens <= CAPACITY ==> peer.tokens <= r.tokens)
  {
    Peer(now, Min(CAPACITY, peer.tokens + Max(0.0, now - peer.lastSeen) * REFILL_PER_MILLISECOND))
  }

  function Spend(peer: Peer): Peer {
    if peer.tokens < 1.0 then peer else peer.(tokens := peer.tokens - 1.0)
  }

  ghost predicate Unique(order: seq<string>) {
    forall i, j :: 0 <= i < j < |order| ==> order[i] != order[j]
  }

  /** A JavaScript `Map`: the entries, and the order in which their keys were first set. */
  datatype Limiter = Limiter(order: seq<string>, peers: map<string, Peer>) {
    ghost predicate Valid() {
      && Unique(order)
      && (forall a :: a in order <==> a in peers)
      && |peers| <= MAXIMUM_PEERS
    }
  }

  const EMPTY := Limiter([], map[])

  /** Every key has an entry. */
  ghost predicate Known(l: Limiter) {
    forall a :: a in l.order ==> a in l.peers
  }

  /** The index, among the first `k` keys, of the first key whose `lastSeen` is least. */
  function OldestIndex(l: Limiter, k: nat): (oldest: nat)
    requires 0 < k <= |l.order| && Known(l)
    ensures oldest < k
    ensures forall i :: 0 <= i < k ==> l.peers[l.order[oldest]].lastSeen <= l.peers[l.order[i]].lastSeen
    ensures forall i :: 0 <= i < oldest ==> l.peers[l.order[oldest]].lastSeen < l.peers[l.order[i]].lastSeen
  {
    if k == 1 then 0
    else
      var oldest := OldestIndex(l, k - 1);
      if l.peers[l.order[k - 1]].lastSeen < l.peers[l.order[oldest]].lastSeen then k - 1 else oldest
  }

  function Oldest(l: Limiter): string
    requires l.Valid() && l.order != []
  {
    l.order[OldestIndex(l, |l.order|)]
  }

  function Evict(l: Limiter): Limiter
    requires l.Valid() && l.order != []
  {
    var k := OldestIndex(l, |l.order|);
    Limiter(l.order[..k] + l.order[k + 1..], l.peers - {l.order[k]})
  }

  lemma OrderHasSizeOfMap(l: Limiter)
    requires l.Valid()
    ensures |l.order| == |l.peers|
  {
    DistinctSize(l.order);
    assert (set a | a in l.order) == l.peers.Keys;
  }

  lemma DistinctSize(s: seq<string>)
    requires Unique(s)
    ensures |set a | a in s| == |s|
  {
    if s != [] {
      var last := |s| - 1;
      DistinctSize(s[..last]);
      assert (set a | a in s) == (set a | a in s[..last]) + {s[last]};
    }
  }

  predicate MustEvict(l: Limiter, address: string) {
    address !in l.peers && |l.peers| >= MAXIMUM_PEERS
  }

  /** One call of `admit`: the new map and the answer. */
  function Admit(l: Limiter, now: real, address: string): (r: (Limiter, bool))
    requires l.Valid()
  {
    if address in l.peers then
      var peer := Refill(l.peers[address], now);
      (l.(peers := l.peers[address := Spend(peer)]), peer.tokens >= 1.0)
    else
      var peer := Peer(now, CAPACITY);
      var room := if MustEvict(l, address) then (OrderHasSizeOfMap(l); Evict(l)) else l;
      (Limiter(room.order + [address], room.peers[address := Spend(peer)]), peer.tokens >= 1.0)
  }

  lemma RemoveAt(order: seq<string>, k: nat)
    requires k < |order| && Unique(order)
    ensures var rest := order[..k] + order[k + 1..];
            && Unique(rest)
            && (forall a :: a in rest <==> a in order && a != order[k])
  {
    var rest := order[..k] + order[k + 1..];
    forall a | a in order && a != order[k]
      ensures a in rest
    {
      var i :| 0 <= i < |order| && order[i] == a;
      assert rest[if i < k then i else i - 1] == a;
    }
  }

  lemma RemoveKeepsValid(l: Limiter, k: nat)
    requires l.Valid() && k < |l.order|
    ensures Limiter(l.order[..k] + l.order[k + 1..], l.peers - {l.order[k]}).Valid()
    ensures |l.peers - {l.order[k]}| == |l.peers| - 1
  {
    hide Unique;
    RemoveAt(l.order, k);
    assert l.order[k] in l.order;
    assert l.peers.Keys == (l.peers - {l.order[k]}).Keys + {l.order[k]};
  }

  lemma EvictKeepsValid(l: Limiter)
    requires l.Valid() && l.order != []
    ensures Evict(l).Valid() && |Evict(l).peers| == |l.peers| - 1
    ensures Evict(l).peers == l.peers - {Oldest(l)}
  {
    hide OldestIndex, Unique;
    RemoveKeepsValid(l, OldestIndex(l, |l.order|));
  }

  lemma AppendNew(order: seq<string>, address: string)
    requires address !in order && Unique(order)
    ensures var more := order + [address];
            && Unique(more)
            && (forall a :: a in more <==> a in order || a == address)
  {
  }

  lemma AppendKeepsValid(l: Limiter, address: string, peer: Peer)
    requires l.Valid() && address !in l.peers && |l.peers| < MAXIMUM_PEERS
    ensures Limiter(l.order + [address], l.peers[address := peer]).Valid()
  {
    hide Unique;
    var l1 := Limiter(l.order + [address], l.peers[address := peer]);
    AppendNew(l.order, address);
    assert l1.peers.Keys == l.peers.Keys + {address};
  }

  /** The map stays well formed and never holds more than the maximum number of peers. */
  lemma AdmitKeepsValid(l: Limiter, now: real, address: string)
    requires l.Valid()
    ensures Admit(l, now, address).0.Valid() && |Admit(l, now, address).0.peers| <= 1_024
  {
    OrderHasSizeOfMap(l);
    if address in l.peers {
      assert l.peers[address := Spend(Refill(l.peers[address], now))].Keys == l.peers.Keys;
    } else if MustEvict(l, address) {
      EvictKeepsValid(l);
      AppendKeepsValid(Evict(l), address, Spend(Peer(now, CAPACITY)));
    } else {
      AppendKeepsValid(l, address, Spend(Peer(now, CAPACITY)));
    }
  }

  class RedemptionRateLimiter {
    var order: seq<string>
    var peers: map<string, Peer>

    ghost function View(): Limiter
      reads this
    {
      Limiter(order, peers)
    }

    constructor ()
      ensures View() == EMPTY && View().Valid()
    {
      order, peers := [], map[];
    }

    /** The loop of `admit` that looks for the entry to forget. */
    method FindOldest() returns (oldest: nat)
      requires View().Valid() && order != []
      ensures oldest == OldestIndex(View(), |order|)
    {
      ghost var l := View();
      assert Known(l);
      hide Limiter.Valid;
      oldest := 0;
      var k := 1;
      while k < |order|
        invariant 1 <= k <= |order|
        invariant oldest == OldestIndex(l, k)
      {
        if peers[order[k]].lastSeen < peers[order[oldest]].lastSeen {
          oldest := k;
        }
        k := k + 1;
      }
    }

    method EvictOldest()
      requires View().Valid() && order != []
      modifies this
      ensures View() == Evict(old(View()))
    {
      var oldest := FindOldest();
      peers := peers - {order[oldest]};
      order := order[..oldest] + order[oldest + 1..];
    }

    /** Store the peer, then take a token from it if it has one. */
    method Charge(peerAddress: string, peer: Peer) returns (admitted: bool)
      modifies `peers
      ensures peers == old(peers)[peerAddress := Spend(peer)]
      ensures admitted == (peer.tokens >= 1.0)
    {
      ghost var others := peers;
      peers := peers[peerAddress := peer];
      if peer.tokens < 1.0 {
        return false;
      }
      peers := peers[peerAddress := peer.(tokens := peer.tokens - 1.0)];
      assert peers == others[peerAddress := Spend(peer)];
      return true;
    }

    method AdmitCall(now: real, peerAddress: string) returns (admitted: bool)
      requires View().Valid()
      modifies this
      ensures (View(), admitted) == Admit(old(View()), now, peerAddress)
      ensures View().Valid()
    {
      AdmitKeepsValid(View(), now, peerAddress);
      if peerAddress in peers {
        admitted := Charge(peerAddress, Refill(peers[peerAddress], now));
      } else {
        OrderHasSizeOfMap(View());
        if |peers| >= MAXIMUM_PEERS {
          EvictOldest();
        }
        order := order + [peerAddress];
        admitted := Charge(peerAddress, Peer(now, CAPACITY));
      }
    }
  }
}
