/** The allocator finds the lowest free address, and the four-octet selection reaches every free one. */
module NodeAddressProofs {
  import opened Wrappers
  import opened Records
  import opened Ipv4
  import opened Ipv4Text
  import opened NodeAddresses

  // ---------- The factory ----------

  lemma CidrShape(text: string)
    requires ParseIpv4Cidr(text).Ok?
    ensures var c := ParseIpv4Cidr(text).value;
            && 0 <= c.network && c.broadcast == c.network + BlockSize(c.prefixLength) - 1 <= IPV4_MAX
            && c.network == c.address
  {
    hide BroadcastAddress, NetworkAddress, ParseIpv4, NumberOf;
    var c := ParseIpv4Cidr(text).value;
    BroadcastIsLast(c.address, c.prefixLength);
    NetworkIsMultiple(c.address, c.prefixLength);
  }

  /** The node is not the one edited, and its address is `a`. */
  predicate Takes(n: Node, currentNodeId: Option<string>, a: int) {
    IsOther(n, currentNodeId) && ParseIpv4(n.address).Ok? && ParseIpv4(n.address).value == a
  }

  ghost predicate IsTaken(nodes: seq<Node>, currentNodeId: Option<string>, a: int) {
    exists n :: n in nodes && Takes(n, currentNodeId, a)
  }

  lemma TakenByMore(nodes: seq<Node>, currentNodeId: Option<string>, a: int)
    requires nodes != []
    ensures var last := |nodes| - 1;
            IsTaken(nodes, currentNodeId, a)
            <==> IsTaken(nodes[..last], currentNodeId, a) || Takes(nodes[last], currentNodeId, a)
  {
    hide Takes;
    var last := |nodes| - 1;
    assert nodes == nodes[..last] + [nodes[last]];
  }

  /** Exactly the addresses of other nodes that lie in the block are taken, and all their texts must be addresses. */
  lemma {:induction false} TakenIsExact(cidr: Cidr, nodes: seq<Node>, currentNodeId: Option<string>)
    ensures var r := TakenAddresses(cidr, nodes, currentNodeId);
            && (r.Ok? <==> forall n :: n in nodes && IsOther(n, currentNodeId) ==> ParseIpv4(n.address).Ok?)
            && (r.Ok? ==> forall a ::
                  a in r.value <==> Contains(cidr, a) && IsTaken(nodes, currentNodeId, a))
    decreases |nodes|
  {
    hide ParseIpv4, IsTaken, Contains;
    if nodes == [] {
      NobodyTakes(currentNodeId);
    } else {
      var last := |nodes| - 1;
      TakenIsExact(cidr, nodes[..last], currentNodeId);
      assert nodes == nodes[..last] + [nodes[last]];
      forall a: int
        ensures IsTaken(nodes, currentNodeId, a)
                <==> IsTaken(nodes[..last], currentNodeId, a) || Takes(nodes[last], currentNodeId, a)
      {
        TakenByMore(nodes, currentNodeId, a);
      }
    }
  }

  lemma NobodyTakes(currentNodeId: Option<string>)
    ensures forall a :: !IsTaken([], currentNodeId, a)
  {
  }

  lemma FoundVnr(vnrs: seq<Vnr>, name: string)
    requires FindVnr(vnrs, name).Some?
    ensures FindVnr(vnrs, name).value in vnrs && FindVnr(vnrs, name).value.name == name
  {
  }

  /** The factory blocks the network and the broadcast address, and nothing outside the block of the VNR. */
  lemma CreatedIsFactoryBuilt(topology: Topology, vnrName: string, currentNodeId: Option<string>)
    requires CreateAvailability(topology, vnrName, currentNodeId).Ok?
    ensures FactoryBuilt(CreateAvailability(topology, vnrName, currentNodeId).value)
  {
    hide ParseIpv4, ParseIpv4Cidr;
    var (vnr, cidr, master) := VnrBlock(topology, vnrName).value;
    CidrShape(vnr.cidr);
    TakenIsExact(cidr, topology.nodes, currentNodeId);
  }

  /** A host address of the block that belongs neither to the Master nor to another node. */
  ghost predicate Unclaimed(topology: Topology, av: Availability, currentNodeId: Option<string>, a: Address) {
    && av.network < a < av.broadcast && ParseIpv4(av.masterAddress) != Ok(a)
    && forall n :: n in topology.nodes && IsOther(n, currentNodeId) ==> ParseIpv4(n.address) != Ok(a)
  }

  /** What the factory builds it for: available are exactly the addresses of the VNR that nobody has. */
  lemma AvailableIsUnclaimed(topology: Topology, vnrName: string, currentNodeId: Option<string>, a: Address)
    requires CreateAvailability(topology, vnrName, currentNodeId).Ok?
    ensures var av := CreateAvailability(topology, vnrName, currentNodeId).value;
            && (exists v :: v in topology.vnrs && v.name == vnrName == av.vnrName && v.cidr == av.cidr
                            && v.masterAddress == av.masterAddress)
            && ParseIpv4Cidr(av.cidr).Ok? && ParseIpv4Cidr(av.cidr).value.network == av.network
            && ParseIpv4Cidr(av.cidr).value.broadcast == av.broadcast && ParseIpv4(av.masterAddress).Ok?
            && (IsAvailable(av, a) <==> Unclaimed(topology, av, currentNodeId, a))
  {
    hide ParseIpv4, ParseIpv4Cidr;
    var (vnr, cidr, master) := VnrBlock(topology, vnrName).value;
    FoundVnr(topology.vnrs, vnrName);
    TakenIsExact(cidr, topology.nodes, currentNodeId);
    TakesMeans(topology.nodes, currentNodeId, a);
  }

  lemma TakesMeans(nodes: seq<Node>, currentNodeId: Option<string>, a: Address)
    ensures IsTaken(nodes, currentNodeId, a)
            <==> exists n :: n in nodes && IsOther(n, currentNodeId) && ParseIpv4(n.address) == Ok(a)
  {
    hide ParseIpv4;
    if n :| n in nodes && IsOther(n, currentNodeId) && ParseIpv4(n.address) == Ok(a) {
      assert Takes(n, currentNodeId, a);
    }
  }

  // ---------- The lowest address ----------

  predicate Fits(av: Availability, p: OctetPrefix, a: Address) {
    IsAvailable(av, a) && p <= ToOctets(a)
  }

  lemma FitsIsSearched(av: Availability, p: OctetPrefix, a: Address)
    requires FactoryBuilt(av)
    ensures Fits(av, p, a) <==> SearchFirst(av, p) <= a <= SearchLast(av, p) && a !in av.blocked
  {
    hide ToOctets, IntervalFirst, IntervalLast;
    IntervalIsPrefix(p, a);
  }

  /** `lowestMatching` is the least available address that starts with the octets, and `null` iff there is none. */
  lemma LowestIsLeast(av: Availability, p: OctetPrefix)
    requires FactoryBuilt(av)
    ensures match LowestAddress(av, p)
            case None => forall a: Address :: !Fits(av, p, a)
            case Some(least) => Fits(av, p, least) && (forall a: Address :: Fits(av, p, a) ==> least <= a)
  {
    hide Fits;
    LowestIsAddress(av, p);
    forall a: Address
      ensures Fits(av, p, a) <==> SearchFirst(av, p) <= a <= SearchLast(av, p) && a !in av.blocked
    {
      FitsIsSearched(av, p, a);
    }
  }

  lemma EverythingFits(av: Availability, a: Address)
    ensures Fits(av, [], a) <==> IsAvailable(av, a)
  {
  }

  /** The address proposed for a node is the least that nobody has; there is none iff all are claimed. */
  lemma ProposalIsLeastUnclaimed(topology: Topology, vnrName: string, currentNodeId: Option<string>)
    requires CreateAvailability(topology, vnrName, currentNodeId).Ok?
    ensures var av := CreateAvailability(topology, vnrName, currentNodeId).value;
            && FactoryBuilt(av)
            && match LowestAddress(av, [])
               case None => forall a: Address :: !Unclaimed(topology, av, currentNodeId, a)
               case Some(least) =>
                 && Unclaimed(topology, av, currentNodeId, least)
                 && (forall a: Address :: Unclaimed(topology, av, currentNodeId, a) ==> least <= a)
  {
    hide CreateAvailability, Unclaimed, Fits, IsAvailable, LowestAddress, ParseIpv4Cidr, ParseIpv4;
    CreatedIsFactoryBuilt(topology, vnrName, currentNodeId);
    var av := CreateAvailability(topology, vnrName, currentNodeId).value;
    LowestIsLeast(av, []);
    forall a: Address
      ensures Unclaimed(topology, av, currentNodeId, a) <==> Fits(av, [], a)
    {
      AvailableIsUnclaimed(topology, vnrName, currentNodeId, a);
      EverythingFits(av, a);
    }
  }

  /** `octetOptions` lists, in ascending order, exactly the next octets that some available address has. */
  lemma OptionsAreExact(av: Availability, p: OctetPrefix)
    requires FactoryBuilt(av) && |p| < 4
    ensures forall o: int :: o in OctetOptions(av, p) <==> IsOctet(o) && exists a: Address :: Fits(av, p + [o], a)
    ensures forall i, j :: 0 <= i < j < |OctetOptions(av, p)| ==> OctetOptions(av, p)[i] < OctetOptions(av, p)[j]
  {
    hide Fits, Lowest, FactoryBuilt;
    forall o: int | IsOctet(o)
      ensures Lowest(av, p + [o]).Some? <==> exists a: Address :: Fits(av, p + [o], a)
    {
      LowestIsLeast(av, p + [o]);
    }
  }

  // ---------- Exhaustion ----------

  /** The number of other nodes. */
  function Others(nodes: seq<Node>, currentNodeId: Option<string>): nat
    decreases |nodes|
  {
    if nodes == [] then 0
    else
      Others(nodes[..|nodes| - 1], currentNodeId) + (if IsOther(nodes[|nodes| - 1], currentNodeId) then 1 else 0)
  }

  lemma {:induction false} TakenIsFew(cidr: Cidr, nodes: seq<Node>, currentNodeId: Option<string>)
    requires TakenAddresses(cidr, nodes, currentNodeId).Ok?
    ensures |TakenAddresses(cidr, nodes, currentNodeId).value| <= Others(nodes, currentNodeId)
    decreases |nodes|
  {
    hide ParseIpv4;
    if nodes != [] {
      TakenIsFew(cidr, nodes[..|nodes| - 1], currentNodeId);
    }
  }

  lemma ExhaustedIsFull(av: Availability)
    requires FactoryBuilt(av) && Lowest(av, []).None?
    ensures |av.blocked| >= BlockSize(av.prefixLength)
  {
    hide IntervalFirst, IntervalLast;
    var block := Range(av.network, av.broadcast + 1);
    forall a | a in block
      ensures a in av.blocked
    {
      IntervalIsPrefix([], a);
      assert [] <= ToOctets(a);
    }
    assert av.blocked == block + (av.blocked - block);
  }

  /** A VNR with fewer other nodes than host addresses minus the Master is not exhausted. */
  lemma NotExhausted(topology: Topology, vnrName: string, currentNodeId: Option<string>)
    requires CreateAvailability(topology, vnrName, currentNodeId).Ok?
    requires var av := CreateAvailability(topology, vnrName, currentNodeId).value;
             Others(topology.nodes, currentNodeId) < BlockSize(av.prefixLength) - 3
    ensures Lowest(CreateAvailability(topology, vnrName, currentNodeId).value, []).Some?
  {
    hide ParseIpv4, ParseIpv4Cidr, Lowest, FactoryBuilt;
    var av := CreateAvailability(topology, vnrName, currentNodeId).value;
    CreatedIsFactoryBuilt(topology, vnrName, currentNodeId);
    var (vnr, cidr, master) := VnrBlock(topology, vnrName).value;
    TakenIsFew(cidr, topology.nodes, currentNodeId);
    BlockedIsFew(cidr.network, master, cidr.broadcast, TakenAddresses(cidr, topology.nodes, currentNodeId).value);
    if Lowest(av, []).None? { ExhaustedIsFull(av); }
  }

  lemma BlockedIsFew(network: int, master: int, broadcast: int, taken: set<int>)
    ensures |{network, master, broadcast} + taken| <= 3 + |taken|
  {
  }

  // ---------- Selections ----------

  lemma SelectionIsWellFormed(av: Availability, address: Option<Address>)
    ensures WellFormed(SelectionFor(av, address))
  {
    if address.Some? {
      var o := ToOctets(address.value);
      forall c | c in Chosen(o)
        ensures c.Some? && IsOctet(c.value)
      {
        var i :| 0 <= i < |Chosen(o)| && Chosen(o)[i] == c;
        assert o[i] in o;
      }
    }
  }

  /** Normalising a selection's own value again gives the same selection. */
  lemma NormalisingTwice(av: Availability, preferred: Option<string>)
    requires FactoryBuilt(av)
    ensures CreateSelection(av, CreateSelection(av, preferred).value) == CreateSelection(av, preferred)
  {
    hide FormatIpv4, ParseIpv4, ToOctets, OctetOptions, Lowest;
    var address := TryParse(preferred);
    var chosen := if address.Some? && IsAvailable(av, address.value) then address else LowestAddress(av, []);
    LowestIsLeast(av, []);
    if chosen.Some? { ParseOfFormat(chosen.value); }
  }

  /** The first octets of an address, followed by another octet. */
  function Branch(a: Address, index: int, value: int): (p: OctetPrefix)
    requires 0 <= index <= 3 && IsOctet(value)
    ensures |p| == index + 1
  {
    ToOctets(a)[..index] + [value]
  }

  /** Choosing octet `index` keeps the octets before it and moves to the lowest address that has them. */
  lemma SelectingMoves(av: Availability, from: Address, index: int, value: int)
    requires FactoryBuilt(av) && WellFormed(SelectionFor(av, Some(from))) && 0 <= index <= 3 && IsOctet(value)
    ensures var lowest := LowestAddress(av, Branch(from, index, value));
            SelectOctet(av, SelectionFor(av, Some(from)), index, value)
            == if lowest.None? then Err(RangeError) else Ok(SelectionFor(av, lowest))
  {
    hide FormatIpv4, ToOctets, OctetOptions, LowestAddress, FactoryBuilt;
    var o := ToOctets(from);
    var selection := SelectionFor(av, Some(from));
    assert Given(selection.octets[..index]) == o[..index];
  }

  /** The next selection on the way to `target`: it shares one octet more. */
  lemma StepTowards(av: Availability, from: Address, target: Address, index: int) returns (next: Address)
    requires FactoryBuilt(av) && IsAvailable(av, target) && 0 <= index <= 3
    requires ToOctets(from)[..index] == ToOctets(target)[..index]
    ensures WellFormed(SelectionFor(av, Some(from)))
    ensures SelectOctet(av, SelectionFor(av, Some(from)), index, ToOctets(target)[index])
            == Ok(SelectionFor(av, Some(next)))
    ensures ToOctets(next)[..index + 1] == ToOctets(target)[..index + 1]
  {
    hide FormatIpv4, ToOctets, OctetOptions, LowestAddress, FactoryBuilt, SelectionFor, SelectOctet, WellFormed;
    var o := ToOctets(target);
    assert o[index] in o;
    SelectionIsWellFormed(av, Some(from));
    SelectingMoves(av, from, index, o[index]);
    var p := Branch(from, index, o[index]);
    assert p == o[..index + 1];
    LowestIsLeast(av, p);
    assert Fits(av, p, target);
    next := LowestAddress(av, p).value;
    assert ToOctets(next)[..|p|] == p;
  }

  lemma SameOctetsSameAddress(a: Address, b: Address)
    requires ToOctets(a) == ToOctets(b)
    ensures a == b
  {
    OctetsRoundTrip(a, ToOctets(a));
    OctetsRoundTrip(b, ToOctets(b));
  }

  function Then(av: Availability, r: Result<Selection, Thrown>, index: int, value: int): Result<Selection, Thrown>
    requires FactoryBuilt(av)
  {
    if r.Err? then r else if !WellFormed(r.value) then Err(TypeError) else SelectOctet(av, r.value, index, value)
  }

  /** From any selection that is not exhausted, choosing the octets of a free address in order ends there. */
  lemma EveryFreeAddressIsReachable(av: Availability, from: Address, target: Address)
    requires FactoryBuilt(av) && IsAvailable(av, target)
    ensures var o := ToOctets(target);
            Then(av, Then(av, Then(av, Then(av, Ok(SelectionFor(av, Some(from))), 0, o[0]), 1, o[1]), 2, o[2]), 3, o[3])
            == Ok(SelectionFor(av, Some(target)))
  {
    hide FormatIpv4, ToOctets, OctetOptions, LowestAddress, FactoryBuilt, SelectionFor, SelectOctet, WellFormed;
    hide IsAvailable;
    assert ToOctets(from)[..0] == ToOctets(target)[..0];
    var a1 := StepTowards(av, from, target, 0);
    var a2 := StepTowards(av, a1, target, 1);
    var a3 := StepTowards(av, a2, target, 2);
    var a4 := StepTowards(av, a3, target, 3);
    assert ToOctets(a4)[..4] == ToOctets(a4) && ToOctets(target)[..4] == ToOctets(target);
    SameOctetsSameAddress(a4, target);
  }
}
