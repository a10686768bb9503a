/**
 When a denied call does cost something: as soon as a call sets the run and the run without the denied call apart,
 the calls that come next can get different answers.
 */
module RateLimiterCosts {
  import opened RateLimiter
  import opened RateLimiterRuns
  import opened RateLimiterPeers
  import opened RateLimiterDenials

  // ---------- Telling maps apart ----------

  /** Some of these calls, put to both maps in turn, gets two different answers. */
  ghost predicate Tells(l: Limiter, l1: Limiter, more: seq<Call>)
    requires l.Valid() && l1.Valid()
    decreases |more|
  {
    more != []
    && (var c := more[0];
        AdmitKeepsValid(l, c.now, c.address);
        AdmitKeepsValid(l1, c.now, c.address);
        var (r, r1) := (Admit(l, c.now, c.address), Admit(l1, c.now, c.address));
        r.1 != r1.1 || Tells(r.0, r1.0, more[1..]))
  }

  lemma TellsAtOnce(l: Limiter, l1: Limiter, c: Call) returns (more: seq<Call>)
    requires l.Valid() && l1.Valid() && Admit(l, c.now, c.address).1 != Admit(l1, c.now, c.address).1
    ensures more == [c] && Tells(l, l1, more)
  {
    more := [c];
  }

  lemma TellsLater(l: Limiter, l1: Limiter, c: Call, rest: seq<Call>) returns (more: seq<Call>)
    requires l.Valid() && l1.Valid()
    requires var m, m1 := Admit(l, c.now, c.address).0, Admit(l1, c.now, c.address).0;
             m.Valid() && m1.Valid() && Tells(m, m1, rest)
    ensures more == [c] + rest && Tells(l, l1, more)
  {
    hide Admit, Limiter.Valid;
    more := [c] + rest;
    assert more[1..] == rest;
  }

  ghost predicate AllAt(more: seq<Call>, u: real) {
    forall c :: c in more ==> c.now == u
  }

  // ---------- A new name ----------

  lemma {:induction false} LongerThanAll(names: set<string>) returns (n: nat)
    ensures forall s :: s in names ==> |s| < n
    decreases |names|
  {
    if names == {} {
      n := 0;
    } else {
      var s :| s in names;
      n := LongerThanAll(names - {s});
      if |s| >= n { n := |s| + 1; }
    }
  }

  lemma NewName(names: set<string>) returns (s: string)
    ensures s !in names
  {
    var n := LongerThanAll(names);
    s := seq(n, _ => 'x');
  }

  // ---------- Orders with one peer moved ----------

  function Insert(order: seq<string>, i: nat, a: string): seq<string>
    requires i <= |order|
  {
    order[..i] + [a] + order[i..]
  }

  /** The place of element `z` of the order, once `a` is put in at `i`. */
  function Shifted(z: nat, i: nat): nat {
    if z < i then z else z + 1
  }

  lemma InsertedAt(order: seq<string>, i: nat, a: string, z: nat)
    requires i <= |order| && z < |order|
    ensures |Insert(order, i, a)| == |order| + 1
    ensures Insert(order, i, a)[Shifted(z, i)] == order[z] && Insert(order, i, a)[i] == a
  {
  }

  /** Taking another element out of the order, and appending one, commutes with putting `a` in. */
  lemma InsertCommutes(order: seq<string>, i: nat, a: string, z: nat, s: string)
    requires i <= |order| && z < |order|
    ensures var i1 := if z < i then i - 1 else i;
            && i1 <= |order| - 1
            && Without(Insert(order, i, a), Shifted(z, i)) + [s] == Insert(Without(order, z) + [s], i1, a)
  {
    var i1 := if z < i then i - 1 else i;
    var x, y := Without(Insert(order, i, a), Shifted(z, i)) + [s], Insert(Without(order, z) + [s], i1, a);
    assert |x| == |y| == |order| + 1;
    if z < i {
      assert Insert(order, i, a) == order[..z] + [order[z]] + order[z + 1..i] + [a] + order[i..];
      assert x == order[..z] + order[z + 1..i] + [a] + order[i..] + [s];
      assert Without(order, z) + [s] == (order[..z] + order[z + 1..i]) + (order[i..] + [s]);
      assert y == (order[..z] + order[z + 1..i]) + [a] + (order[i..] + [s]);
    } else {
      assert Insert(order, i, a) == order[..i] + [a] + order[i..z] + [order[z]] + order[z + 1..];
      assert x == order[..i] + [a] + order[i..z] + order[z + 1..] + [s];
      assert Without(order, z) + [s] == order[..i] + (order[i..z] + order[z + 1..] + [s]);
      assert y == order[..i] + [a] + (order[i..z] + order[z + 1..] + [s]);
    }
  }

  lemma InsertWithout(order: seq<string>, i: nat, a: string)
    requires i <= |order|
    ensures Without(Insert(order, i, a), i) == order
  {
    assert Insert(order, i, a)[..i] == order[..i];
    assert Insert(order, i, a)[i + 1..] == order[i..];
  }

  // ---------- Two full maps that differ in the place of one peer ----------

  ghost predicate SeenAllBy(l: Limiter, u: real) {
    forall b :: b in l.peers ==> l.peers[b].lastSeen <= u
  }

  /** Element `z` is the first of those of the order that were seen least recently. */
  ghost predicate FirstOldest(l: Limiter, order: seq<string>, z: nat) {
    && z < |order| && (forall b :: b in order ==> b in l.peers)
    && (forall x :: 0 <= x < |order| ==> l.peers[order[z]].lastSeen <= l.peers[order[x]].lastSeen)
    && (forall x :: 0 <= x < z ==> l.peers[order[z]].lastSeen < l.peers[order[x]].lastSeen)
  }

  lemma ShiftedIsOnto(order: seq<string>, i: nat, a: string, y: nat) returns (x: nat)
    requires i <= |order| && y < |order| + 1 && y != i
    ensures x < |order| && y == Shifted(x, i) && Insert(order, i, a)[y] == order[x]
  {
    x := if y < i then y else y - 1;
  }

  /** Unless `a` is older, or as old and placed before it, the oldest of the others is the oldest of all. */
  lemma OldestOfInserted(l: Limiter, order: seq<string>, i: nat, a: string, z: nat)
    requires l.Valid() && i <= |order| && l.order == Insert(order, i, a) && a in l.peers && FirstOldest(l, order, z)
    requires l.peers[order[z]].lastSeen <= l.peers[a].lastSeen
    requires i <= z ==> l.peers[order[z]].lastSeen < l.peers[a].lastSeen
    ensures OldestIndex(l, |l.order|) == Shifted(z, i) && l.order[Shifted(z, i)] == order[z]
  {
    hide Insert, Limiter.Valid;
    InsertedAt(order, i, a, z);
    forall y | 0 <= y < |l.order|
      ensures l.order[y] in l.peers && l.peers[order[z]].lastSeen <= l.peers[l.order[y]].lastSeen
      ensures y < Shifted(z, i) ==> l.peers[order[z]].lastSeen < l.peers[l.order[y]].lastSeen
    {
      if y != i { var x := ShiftedIsOnto(order, i, a, y); }
    }
    OldestIs(l, Shifted(z, i));
  }

  /**
   The maps have the same entries and are full; `a` was seen last of all, at `u`, and stands at place `i` of the
   order of the others in one, and at `i1` in the other, behind peer `order[j]`, which was also seen at `u`.
   */
  ghost predicate Moved(l: Limiter, l1: Limiter, a: string, u: real, order: seq<string>, i: nat, i1: nat, j: nat) {
    && l.Valid() && l1.Valid() && l.peers == l1.peers && |l.peers| == MAXIMUM_PEERS
    && i <= j < i1 <= |order| && l.order == Insert(order, i, a) && l1.order == Insert(order, i1, a)
    && a in l.peers && l.peers[a].lastSeen == u && SeenAllBy(l, u)
    && (forall b :: b in order ==> b in l.peers && b != a)
    && l.peers[order[j]].lastSeen == u
    && (forall x :: i1 <= x < |order| ==> l.peers[order[x]].lastSeen == u)
  }

  lemma NewcomerEvicts(l: Limiter, u: real, s: string)
    requires l.Valid() && |l.peers| == MAXIMUM_PEERS && s !in l.peers && l.order != []
    ensures Admit(l, u, s) == (Limiter(Evict(l).order + [s], Evict(l).peers[s := Spend(Peer(u, CAPACITY))]), true)
  {
    hide Evict, OldestIndex, Unique;
  }

  lemma EvictionIs(l: Limiter, k: nat)
    requires l.Valid() && k < |l.order| && Known(l) && OldestIndex(l, |l.order|) == k
    ensures Evict(l) == Limiter(Without(l.order, k), l.peers - {l.order[k]})
    ensures Evict(l).Valid() && |Evict(l).peers| == |l.peers| - 1
  {
    hide OldestIndex, Limiter.Valid;
    EvictKeepsValid(l);
  }

  lemma OneMorePeer(m: map<string, Peer>, s: string, peer: Peer)
    requires s !in m
    ensures |m[s := peer]| == |m| + 1
  {
    assert m[s := peer].Keys == m.Keys + {s};
  }

  /** The map after a new peer `s` has called and element `k` of the order was forgotten. */
  lemma NewcomerForgets(l: Limiter, u: real, s: string, k: nat)
    requires l.Valid() && |l.peers| == MAXIMUM_PEERS && s !in l.peers && k < |l.order| && OldestIndex(l, |l.order|) == k
    ensures var (m, admitted) := Admit(l, u, s);
            && admitted && m.order == Without(l.order, k) + [s]
            && m.peers == (l.peers - {l.order[k]})[s := Spend(Peer(u, CAPACITY))]
            && m.Valid() && |m.peers| == MAXIMUM_PEERS
  {
    hide OldestIndex, Limiter.Valid, Admit, Evict;
    NewcomerEvicts(l, u, s);
    ValidIsKnown(l);
    EvictionIs(l, k);
    AdmitKeepsValid(l, u, s);
    OneMorePeer(Evict(l).peers, s, Spend(Peer(u, CAPACITY)));
  }

  lemma OthersWithout(order: seq<string>, z: nat, s: string)
    requires z < |order| && Unique(order) && s !in order
    ensures var rest := Without(order, z) + [s];
            && (forall b :: b in rest <==> (b in order && b != order[z]) || b == s)
            && (forall x :: 0 <= x < |order| && x != z ==> rest[if x < z then x else x - 1] == order[x])
            && rest[|order| - 1] == s && |rest| == |order|
  {
    RemoveAt(order, z);
  }

  lemma OthersUnique(l: Limiter, order: seq<string>, i: nat, a: string)
    requires l.Valid() && i <= |order| && l.order == Insert(order, i, a)
    ensures Unique(order) && (forall b :: b in order ==> b in l.peers && b != a)
  {
    hide Insert;
    forall x, y | 0 <= x < y < |order|
      ensures order[x] != order[y]
    {
      InsertedAt(order, i, a, x);
      InsertedAt(order, i, a, y);
      assert l.order[Shifted(x, i)] != l.order[Shifted(y, i)];
    }
    forall b | b in order
      ensures b in l.peers && b != a
    {
      var x :| 0 <= x < |order| && order[x] == b;
      InsertedAt(order, i, a, x);
      assert l.order[Shifted(x, i)] in l.order;
    }
  }

  /** What the entries of the others look like after element `z` was forgotten and `s` has come. */
  lemma OthersAfter(peers: map<string, Peer>, order: seq<string>, z: nat, s: string, a: string, u: real, i1: nat,
                    j: nat)
    requires Unique(order) && z < i1 <= |order| && j < i1 && z != j && s !in peers && a in peers
    requires forall b :: b in order ==> b in peers && b != a
    requires forall b :: b in peers ==> peers[b].lastSeen <= u
    requires peers[order[j]].lastSeen == u
    requires forall x :: i1 <= x < |order| ==> peers[order[x]].lastSeen == u
    ensures var rest := Without(order, z) + [s];
            var after := (peers - {order[z]})[s := Spend(Peer(u, CAPACITY))];
            && |rest| == |order| && (forall b :: b in rest ==> b in after && b != a)
            && (forall b :: b in after ==> after[b].lastSeen <= u)
            && after[rest[if z < j then j - 1 else j]].lastSeen == u
            && (forall x :: i1 - 1 <= x < |rest| ==> after[rest[x]].lastSeen == u)
            && a in after && after[a] == peers[a]
  {
    hide Unique, Without;
    assert forall b :: b in order ==> b != s;
    OthersWithout(order, z, s);
    var rest := Without(order, z) + [s];
    DifferentPlaces(order, z);
    forall x | i1 - 1 <= x < |rest|
      ensures rest[x] == s || (rest[x] == order[x + 1] && i1 <= x + 1 && order[x + 1] != order[z])
    {
      if x < |order| - 1 { assert rest[if x + 1 < z then x + 1 else x] == order[x + 1]; }
    }
  }

  lemma DifferentPlaces(order: seq<string>, z: nat)
    requires Unique(order) && z < |order|
    ensures forall x :: 0 <= x < |order| && x != z ==> order[x] != order[z]
  {
  }

  /** A newcomer that makes both maps forget the same peer leaves them as they are, one place nearer to the end. */
  lemma NewcomerMoves(l: Limiter, l1: Limiter, a: string, u: real, order: seq<string>, i: nat, i1: nat, j: nat,
                      z: nat, s: string)
    requires Moved(l, l1, a, u, order, i, i1, j) && s !in l.peers && FirstOldest(l, order, z)
    requires z < i1 && z != j && (i <= z ==> l.peers[order[z]].lastSeen < u)
    ensures var rest := Without(order, z) + [s];
            && Admit(l, u, s).1 == Admit(l1, u, s).1
            && Moved(Admit(l, u, s).0, Admit(l1, u, s).0, a, u, rest, if z < i then i - 1 else i, i1 - 1,
                     if z < j then j - 1 else j)
            && Admit(l, u, s).0.peers[a] == l.peers[a]
  {
    hide Insert, Limiter.Valid, OldestIndex, Admit, Without, Unique, Spend;
    OthersUnique(l, order, i, a);
    assert l.peers[order[z]].lastSeen <= u by { assert order[z] in order; }
    OldestOfInserted(l, order, i, a, z);
    OldestOfInserted(l1, order, i1, a, z);
    InsertedAt(order, i, a, z);
    InsertedAt(order, i1, a, z);
    NewcomerForgets(l, u, s, Shifted(z, i));
    NewcomerForgets(l1, u, s, Shifted(z, i1));
    InsertCommutes(order, i, a, z, s);
    InsertCommutes(order, i1, a, z, s);
    OthersAfter(l.peers, order, z, s, a, u, i1, j);
  }

  /** Seen at the same time as all others and first in the order, `a` is the one to forget. */
  lemma FirstIsForgotten(l: Limiter, order: seq<string>, a: string, u: real)
    requires l.Valid() && l.order == Insert(order, 0, a) && (forall b :: b in l.peers ==> l.peers[b].lastSeen == u)
    ensures OldestIndex(l, |l.order|) == 0 && l.order[0] == a
  {
    forall y | 0 <= y < |l.order|
      ensures l.order[y] in l.peers
    {
      assert l.order[y] in l.order;
    }
    OldestIs(l, 0);
  }

  /** The newcomer makes the one map forget `a` and the other map somebody else; then the next call of `a` tells. */
  lemma NewcomerTells(l: Limiter, l1: Limiter, a: string, u: real, order: seq<string>, i1: nat, j: nat, s: string)
    returns (more: seq<Call>)
    requires Moved(l, l1, a, u, order, 0, i1, j) && s !in l.peers && l.peers[a].tokens < 1.0
    requires forall b :: b in l.peers ==> l.peers[b].lastSeen == u
    ensures Tells(l, l1, more) && AllAt(more, u)
  {
    hide Insert, Limiter.Valid, OldestIndex, Tells;
    OthersUnique(l, order, 0, a);
    FirstIsForgotten(l, order, a, u);
    OldestOfInserted(l1, order, i1, a, 0);
    NewcomerForgets(l, u, s, 0);
    NewcomerForgets(l1, u, s, 0);
    var m, m1 := Admit(l, u, s).0, Admit(l1, u, s).0;
    assert a !in m.peers && a in m1.peers && m1.peers[a] == l.peers[a];
    var last := TellsAtOnce(m, m1, Call(u, a));
    more := TellsLater(l, l1, Call(u, s), last);
  }

  /** When the oldest of all is not `a`, it is the oldest of the others. */
  lemma OldestIsOther(l: Limiter, order: seq<string>, i: nat, a: string) returns (z: nat)
    requires l.Valid() && i <= |order| && l.order == Insert(order, i, a) && Known(l) && |l.order| > 0
    requires OldestIndex(l, |l.order|) != i
    ensures FirstOldest(l, order, z) && OldestIndex(l, |l.order|) == Shifted(z, i)
    ensures l.order[Shifted(z, i)] == order[z]
  {
    hide Insert, Limiter.Valid;
    OthersUnique(l, order, i, a);
    InsertSize(order, i, a);
    var k := OldestIndex(l, |l.order|);
    z := ShiftedIsOnto(order, i, a, k);
    forall x | 0 <= x < |order|
      ensures l.order[Shifted(x, i)] == order[x]
    {
      InsertedAt(order, i, a, x);
    }
    assert forall x :: 0 <= x < |order| ==>
      l.peers[l.order[k]].lastSeen <= l.peers[l.order[Shifted(x, i)]].lastSeen;
    assert forall x :: 0 <= x < z ==> Shifted(x, i) < k;
  }

  lemma OldestOther(l: Limiter, order: seq<string>, i: nat, a: string, b: string) returns (z: nat)
    requires l.Valid() && i <= |order| && l.order == Insert(order, i, a) && a in l.peers
    requires b in l.peers && l.peers[b].lastSeen < l.peers[a].lastSeen
    ensures FirstOldest(l, order, z) && l.peers[order[z]].lastSeen < l.peers[a].lastSeen
  {
    hide Insert, Limiter.Valid, FirstOldest;
    InsertSize(order, i, a);
    ValidIsKnown(l);
    MemberOfOrder(l, b);
    z := OldestIsOther(l, order, i, a);
  }

  lemma ValidIsKnown(l: Limiter)
    requires l.Valid()
    ensures Known(l)
  {
  }

  lemma InsertSize(order: seq<string>, i: nat, a: string)
    requires i <= |order|
    ensures |Insert(order, i, a)| == |order| + 1 && Insert(order, i, a)[i] == a
  {
  }

  lemma MemberOfOrder(l: Limiter, b: string)
    requires l.Valid() && b in l.peers
    ensures exists y :: 0 <= y < |l.order| && l.order[y] == b
  {
    assert b in l.order;
  }

  /** Newcomers push `a` out of the one map before the other, and then its calls are answered differently. */
  lemma {:induction false} NewcomersTell(l: Limiter, l1: Limiter, a: string, u: real,
                                         order: seq<string>, i: nat, i1: nat, j: nat)
    returns (more: seq<Call>)
    requires Moved(l, l1, a, u, order, i, i1, j) && l.peers[a].tokens < 1.0
    ensures Tells(l, l1, more) && AllAt(more, u)
    decreases i1
  {
    hide Insert, Limiter.Valid, OldestIndex, Tells, Admit;
    var s := NewName(l.peers.Keys);
    if b :| b in l.peers && l.peers[b].lastSeen < u {
      var z := OldestOther(l, order, i, a, b);
      NewcomerMoves(l, l1, a, u, order, i, i1, j, z, s);
      var rest := NewcomersTell(Admit(l, u, s).0, Admit(l1, u, s).0, a, u, Without(order, z) + [s],
                                if z < i then i - 1 else i, i1 - 1, if z < j then j - 1 else j);
      AdmitKeepsValid(l, u, s);
      AdmitKeepsValid(l1, u, s);
      more := TellsLater(l, l1, Call(u, s), rest);
    } else if i == 0 {
      more := NewcomerTells(l, l1, a, u, order, i1, j, s);
    } else {
      assert FirstOldest(l, order, 0);
      NewcomerMoves(l, l1, a, u, order, i, i1, j, 0, s);
      var rest := NewcomersTell(Admit(l, u, s).0, Admit(l1, u, s).0, a, u, Without(order, 0)
        + [s], i - 1, i1 - 1, j - 1);
      AdmitKeepsValid(l, u, s);
      AdmitKeepsValid(l1, u, s);
      more := TellsLater(l, l1, Call(u, s), rest);
    }
  }

  lemma OwnCallSpends(l: Limiter, u: real, a: string)
    requires l.Valid() && a in l.peers && l.peers[a].lastSeen == u && l.peers[a].tokens <= CAPACITY
    ensures var (m, admitted) := Admit(l, u, a);
            && admitted == (l.peers[a].tokens >= 1.0) && m.Valid() && m.order == l.order
            && m.peers == l.peers[a := Spend(l.peers[a])] && |m.peers| == |l.peers|
  {
    AdmitKeepsValid(l, u, a);
    assert Refill(l.peers[a], u) == l.peers[a];
    assert l.peers[a := Spend(l.peers[a])].Keys == l.peers.Keys;
    SameSize(l.peers, l.peers[a := Spend(l.peers[a])]);
  }

  lemma SameSize(m: map<string, Peer>, m1: map<string, Peer>)
    requires m.Keys == m1.Keys
    ensures |m| == |m1|
  {
    assert |m.Keys| == |m| && |m1.Keys| == |m1|;
  }

  /** The peer first spends what it has left, and then newcomers tell. */
  lemma {:induction false} MovedTells(l: Limiter, l1: Limiter, a: string, u: real,
                                      order: seq<string>, i: nat, i1: nat, j: nat, t: nat)
    returns (more: seq<Call>)
    requires Moved(l, l1, a, u, order, i, i1, j) && l.peers[a].tokens == t as real && t <= 6
    ensures Tells(l, l1, more) && AllAt(more, u)
    decreases t
  {
    hide Insert, Limiter.Valid, Tells, Admit;
    if t == 0 {
      more := NewcomersTell(l, l1, a, u, order, i, i1, j);
    } else {
      OwnCallSpends(l, u, a);
      OwnCallSpends(l1, u, a);
      var rest := MovedTells(Admit(l, u, a).0, Admit(l1, u, a).0, a, u, order, i, i1, j, t - 1);
      more := TellsLater(l, l1, Call(u, a), rest);
    }
  }

  /** A peer with fewer tokens in one map than in the other runs out of them earlier. */
  lemma {:induction false} FewerTokensTell(l: Limiter, l1: Limiter, a: string, u: real, t: nat)
    returns (more: seq<Call>)
    requires l.Valid() && l1.Valid() && a in l.peers && a in l1.peers
    requires l.peers[a].lastSeen == l1.peers[a].lastSeen == u
    requires l.peers[a].tokens < l1.peers[a].tokens == t as real && 1 <= t <= 6
    ensures Tells(l, l1, more) && AllAt(more, u)
    decreases t
  {
    hide Limiter.Valid, Tells, Admit;
    OwnCallSpends(l, u, a);
    OwnCallSpends(l1, u, a);
    if l.peers[a].tokens < 1.0 {
      more := TellsAtOnce(l, l1, Call(u, a));
    } else {
      var rest := FewerTokensTell(Admit(l, u, a).0, Admit(l1, u, a).0, a, u, t - 1);
      more := TellsLater(l, l1, Call(u, a), rest);
    }
  }

  // ---------- After the maps are set apart ----------

  lemma TakenOut(order: seq<string>, i: nat)
    requires i < |order|
    ensures order == Insert(Without(order, i), i, order[i]) && |Without(order, i)| == |order| - 1
  {
  }

  /** The state of the two maps before the call of `r` that sets them apart: both are full, and `a` is at place `i`. */
  ghost predicate AboutToPart(l: Limiter, l1: Limiter, a: string, u: real, r: string,
                              order: seq<string>, i: nat, z: nat) {
    && l.Valid() && l1.Valid() && Similar(l, l1, a, u) && SeenAllBy(l, u) && r !in l.peers
    && |l.peers| == |l1.peers| == MAXIMUM_PEERS && i <= |order| && l.order == Insert(order, i, a)
    && z < |order| && FirstOldest(l, order, z)
    && OldestIndex(l1, |l1.order|) == i && OldestIndex(l, |l.order|) == Shifted(z, i)
  }

  lemma SetsApartMeans(l: Limiter, l1: Limiter, r: string, a: string)
    requires l.Valid() && l1.Valid() && |l.peers| == |l1.peers| && (forall b :: b in l.peers <==> b in l1.peers)
    requires SetsApart(l, l1, r, a)
    ensures r !in l.peers && |l.peers| == MAXIMUM_PEERS && |l.order| == |l1.order| == MAXIMUM_PEERS
    ensures Known(l) && Known(l1) && Oldest(l1) == a && Oldest(l) != a
  {
    OrderHasSizeOfMap(l);
    OrderHasSizeOfMap(l1);
  }

  lemma PartingShape(l: Limiter, l1: Limiter, a: string, u: real, r: string)
    returns (order: seq<string>, i: nat, z: nat)
    requires l.Valid() && l1.Valid() && Similar(l, l1, a, u) && SetsApart(l, l1, r, a) && SeenAllBy(l, u)
    ensures AboutToPart(l, l1, a, u, r, order, i, z)
  {
    hide Insert, Similar, Limiter.Valid, SetsApart, Without;
    SimilarShape(l, l1, a, u);
    SetsApartMeans(l, l1, r, a);
    i := OldestIndex(l1, |l1.order|);
    order := Without(l.order, i);
    TakenOut(l.order, i);
    z := OldestIsOther(l, order, i, a);
  }

  /** After the call of `r`, the real map has forgotten `order[z]`, and the other one `a`. */
  lemma PartedMaps(l: Limiter, l1: Limiter, a: string, u: real, r: string, order: seq<string>, i: nat, z: nat)
    requires AboutToPart(l, l1, a, u, r, order, i, z)
    ensures var (m, m1) := (Admit(l, u, r).0, Admit(l1, u, r).0);
            var b, full := order[z], Spend(Peer(u, CAPACITY));
            && m.Valid() && m1.Valid() && |m.peers| == |m1.peers| == MAXIMUM_PEERS
            && m.order == Insert(Without(order, z) + [r], if z < i then i - 1 else i, a)
            && m.peers == (l.peers - {b})[r := full] && b in l.peers && b != a
            && m1.order == order + [r] && m1.peers == (l1.peers - {a})[r := full]
  {
    hide Limiter.Valid, OldestIndex, Similar, Admit, FirstOldest;
    SimilarShape(l, l1, a, u);
    OthersUnique(l, order, i, a);
    InsertedAt(order, i, a, z);
    NewcomerForgets(l, u, r, Shifted(z, i));
    NewcomerForgets(l1, u, r, i);
    InsertCommutes(order, i, a, z, r);
    InsertWithout(order, i, a);
    assert order[z] in order;
  }

  /** The peer that was forgotten comes back, and now the other map forgets `order[z]` too. */
  lemma ComesBack(l: Limiter, l1: Limiter, a: string, u: real, r: string, order: seq<string>, i: nat, z: nat)
    requires AboutToPart(l, l1, a, u, r, order, i, z)
    ensures var m1 := Admit(l1, u, r).0;
            var rest, b, full := Without(order, z) + [r], order[z], Spend(Peer(u, CAPACITY));
            && m1.Valid()
            && var (m2, admitted) := Admit(m1, u, a);
               && admitted && m2.Valid() && |m2.peers| == MAXIMUM_PEERS && m2.order == Insert(rest, |rest|, a)
               && m2.peers == ((l1.peers - {a})[r := full] - {b})[a := full]
  {
    hide Limiter.Valid, OldestIndex, Admit, Similar, FirstOldest, Insert, Spend;
    PartedMaps(l, l1, a, u, r, order, i, z);
    OthersUnique(l, order, i, a);
    var m1 := Admit(l1, u, r).0;
    SimilarEntries(l, l1, a, u);
    SpendOne(Peer(u, CAPACITY));
    SimilarShape(l, l1, a, u);
    StillOldest(l, m1, order, z, r, u);
    ThenAppended(order, z, r, a);
    NewcomerForgets(m1, u, a, z);
  }

  lemma ThenAppended(order: seq<string>, z: nat, r: string, a: string)
    requires z < |order|
    ensures var rest := Without(order, z) + [r];
            && (order + [r])[z] == order[z]
            && Without(order + [r], z) + [a] == Insert(rest, |rest|, a)
  {
    var rest := Without(order, z) + [r];
    assert Without(order + [r], z) == rest;
    assert Insert(rest, |rest|, a) == rest + [a];
  }

  lemma StillOldest(l: Limiter, m: Limiter, order: seq<string>, z: nat, r: string, u: real)
    requires m.Valid() && FirstOldest(l, order, z) && m.order == order + [r] && r in m.peers && m.peers[r].lastSeen == u
    requires forall b :: b in order ==> b in m.peers && m.peers[b] == l.peers[b]
    requires l.peers[order[z]].lastSeen <= u
    ensures OldestIndex(m, |m.order|) == z
  {
    hide Limiter.Valid;
    forall x | 0 <= x < |order|
      ensures m.peers[m.order[x]] == l.peers[order[x]]
    {
      assert order[x] in order;
    }
    OldestIs(m, z);
  }

  /** The own call of `a` in the real map, where it was kept. */
  lemma KeptCalls(l: Limiter, l1: Limiter, a: string, u: real, r: string, order: seq<string>, i: nat, z: nat)
    requires AboutToPart(l, l1, a, u, r, order, i, z)
    ensures var m, peer := Admit(l, u, r).0, Refill(l.peers[a], u);
            && m.Valid()
            && var (m2, admitted) := Admit(m, u, a);
               && admitted == (peer.tokens >= 1.0) && m2.Valid() && |m2.peers| == MAXIMUM_PEERS && m2.order == m.order
               && m2.peers == (l.peers - {order[z]})[r := Spend(Peer(u, CAPACITY))][a := Spend(peer)]
  {
    hide Limiter.Valid, OldestIndex, Refill, FirstOldest;
    PartedMaps(l, l1, a, u, r, order, i, z);
    var m := Admit(l, u, r).0;
    AdmitKeepsValid(m, u, a);
    assert r != a && a in m.peers && m.peers[a] == l.peers[a];
    SameSize(m.peers, Admit(m, u, a).0.peers);
  }

  /** Once a call has set the two maps apart, calls at the same time can tell them apart. */
  lemma PartedMapsTell(l: Limiter, l1: Limiter, a: string, u: real, r: string) returns (more: seq<Call>)
    requires l.Valid() && l1.Valid() && Similar(l, l1, a, u) && SetsApart(l, l1, r, a) && SeenAllBy(l, u)
    ensures Admit(l, u, r).0.Valid() && Admit(l1, u, r).0.Valid()
    ensures Tells(Admit(l, u, r).0, Admit(l1, u, r).0, more) && AllAt(more, u)
  {
    hide Limiter.Valid, OldestIndex, Admit, Tells, FirstOldest, Insert, Spend;
    var order, i, z := PartingShape(l, l1, a, u, r);
    PartedMaps(l, l1, a, u, r, order, i, z);
    ComesBack(l, l1, a, u, r, order, i, z);
    KeptCalls(l, l1, a, u, r, order, i, z);
    var m, m1 := Admit(l, u, r).0, Admit(l1, u, r).0;
    var m2, m3 := Admit(m, u, a).0, Admit(m1, u, a).0;
    var tokens := Refill(l.peers[a], u).tokens;
    if tokens < 1.0 {
      more := TellsAtOnce(m, m1, Call(u, a));
    } else {
      SpendOne(Refill(l.peers[a], u));
      SpendOne(Peer(u, CAPACITY));
      var rest;
      if tokens < CAPACITY {
        rest := FewerTokensTell(m2, m3, a, u, 5);
      } else {
        PartedMapsMoved(l, l1, a, u, r, order, i, z);
        var others := Without(order, z) + [r];
        rest := MovedTells(m2, m3, a, u, others, if z < i then i - 1 else i, |others|, |others| - 1, 5);
      }
      more := TellsLater(m, m1, Call(u, a), rest);
    }
  }

  lemma SpendOne(peer: Peer)
    requires peer.tokens >= 1.0
    ensures Spend(peer) == Peer(peer.lastSeen, peer.tokens - 1.0)
  {
  }

  lemma SameEntries(p: map<string, Peer>, p1: map<string, Peer>, a: string, b: string, r: string, full: Peer)
    requires forall x :: x != a ==> (x in p <==> x in p1) && (x in p ==> p[x] == p1[x])
    requires a != b && b != r && r != a
    ensures (p - {b})[r := full][a := full] == ((p1 - {a})[r := full] - {b})[a := full]
  {
  }

  lemma SimilarEntries(l: Limiter, l1: Limiter, a: string, now: real)
    requires Similar(l, l1, a, now)
    ensures forall x :: x != a ==> (x in l.peers <==> x in l1.peers) && (x in l.peers ==> l.peers[x] == l1.peers[x])
  {
    SimilarShape(l, l1, a, now);
  }

  /** With its bucket full again, the peer that comes back differs in its place only. */
  lemma PartedMapsMoved(l: Limiter, l1: Limiter, a: string, u: real, r: string, order: seq<string>, i: nat, z: nat)
    requires AboutToPart(l, l1, a, u, r, order, i, z) && Refill(l.peers[a], u).tokens == CAPACITY
    ensures var m, m1 := Admit(l, u, r).0, Admit(l1, u, r).0;
            && m.Valid() && m1.Valid()
            && var others := Without(order, z) + [r];
               Moved(Admit(m, u, a).0, Admit(m1, u, a).0, a, u, others, if z < i then i - 1 else i,
                     |others|, |others| - 1)
  {
    hide Limiter.Valid, OldestIndex, Admit, FirstOldest, Insert, Similar, Spend, Without;
    PartedMaps(l, l1, a, u, r, order, i, z);
    ComesBack(l, l1, a, u, r, order, i, z);
    KeptCalls(l, l1, a, u, r, order, i, z);
    SpendOne(Peer(u, CAPACITY));
    assert |Without(order, z)| == |order| - 1 by { TakenOut(order, z); }
    SimilarEntries(l, l1, a, u);
    SimilarShape(l, l1, a, u);
    SameEntries(l.peers, l1.peers, a, order[z], r, Spend(Peer(u, CAPACITY)));
    OthersUnique(Admit(Admit(l, u, r).0, u, a).0, Without(order, z) + [r], if z < i then i - 1 else i, a);
  }
}
