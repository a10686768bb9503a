/** Free Node addresses of a virtual network: the allocator and the four-octet selection of `segmented-network.ts`. */
module NodeAddresses {
  import opened Wrappers
  import opened Records
  import opened Ipv4
  import opened Ipv4Text

  /** `NodeAddressAvailability`: the block of a VNR and the addresses in it that are taken. */
  datatype Availability = Availability(
    vnrName: string, cidr: string, masterAddress: string,
    network: int, broadcast: int, prefixLength: PrefixLength, blocked: set<int>)

  predicate IsAvailable(av: Availability, a: int) {
    av.network < a < av.broadcast && a !in av.blocked
  }

  // ---------- Searching ----------

  function FirstFree(blocked: set<int>, candidate: int, last: int): (r: Option<int>)
    ensures match r
            case None => forall a :: candidate <= a <= last ==> a in blocked
            case Some(free) => candidate <= free <= last && free !in blocked
                               && (forall a :: candidate <= a < free ==> a in blocked)
    decreases last - candidate
  {
    if candidate > last then None
    else if candidate in blocked then FirstFree(blocked, candidate + 1, last)
    else Some(candidate)
  }

  function SearchFirst(av: Availability, p: OctetPrefix): int {
    if IntervalFirst(p) > av.network then IntervalFirst(p) else av.network
  }

  function SearchLast(av: Availability, p: OctetPrefix): int {
    if IntervalLast(p) < av.broadcast then IntervalLast(p) else av.broadcast
  }

  function Lowest(av: Availability, p: OctetPrefix): Option<int> {
    FirstFree(av.blocked, SearchFirst(av, p), SearchLast(av, p))
  }

  function Range(low: int, high: int): (s: set<int>)
    ensures forall a :: a in s <==> low <= a < high
    ensures |s| == if low <= high then high - low else 0
    decreases high - low
  {
    if high <= low then {} else Range(low, high - 1) + {high - 1}
  }

  /** `lowestMatching`. */
  method LowestMatching(av: Availability, p: OctetPrefix) returns (r: Option<int>)
    ensures r == Lowest(av, p)
  {
    var candidate := SearchFirst(av, p);
    var last := SearchLast(av, p);
    if candidate > last {
      return None;
    }
    while candidate <= last && candidate in av.blocked
      invariant candidate <= last + 1
      invariant FirstFree(av.blocked, candidate, last) == Lowest(av, p)
      decreases last - candidate
    {
      candidate := candidate + 1;
    }
    r := if candidate <= last then Some(candidate) else None;
  }

  /** The search steps over blocked addresses only, so no more often than there are any. */
  lemma SearchIsShort(av: Availability, p: OctetPrefix)
    requires SearchFirst(av, p) <= SearchLast(av, p)
    ensures var stop := match Lowest(av, p) case Some(found) => found case None => SearchLast(av, p) + 1;
            stop - SearchFirst(av, p) <= |av.blocked|
  {
    hide IntervalFirst, IntervalLast;
    var stop := match Lowest(av, p) case Some(found) => found case None => SearchLast(av, p) + 1;
    StepsAreBlocked(av.blocked, SearchFirst(av, p), stop);
  }

  lemma StepsAreBlocked(blocked: set<int>, start: int, candidate: int)
    requires start <= candidate && (forall a :: start <= a < candidate ==> a in blocked)
    ensures candidate - start <= |blocked|
  {
    var stepped := Range(start, candidate);
    assert stepped <= blocked;
    assert blocked == stepped + (blocked - stepped);
  }

  /** The octets from `octet` on that can follow the prefix `p`. */
  function OptionsFrom(av: Availability, p: OctetPrefix, octet: int): (options: seq<int>)
    requires |p| < 4 && 0 <= octet <= 256
    ensures forall o :: o in options <==> octet <= o < 256 && Lowest(av, p + [o]).Some?
    ensures forall i, j :: 0 <= i < j < |options| ==> options[i] < options[j]
    decreases 256 - octet
  {
    if octet == 256 then []
    else
      var rest := OptionsFrom(av, p, octet + 1);
      assert forall i :: 0 <= i < |rest| ==> rest[i] in rest;
      if Lowest(av, p + [octet]).Some? then [octet] + rest else rest
  }

  function OctetOptions(av: Availability, p: OctetPrefix): (options: seq<int>)
    requires |p| < 4
    ensures AreOctets(options)
  {
    OptionsFrom(av, p, 0)
  }

  // ---------- Building ----------

  function FindVnr(vnrs: seq<Vnr>, name: string): Option<Vnr> {
    if vnrs == [] then None else if vnrs[0].name == name then Some(vnrs[0]) else FindVnr(vnrs[1..], name)
  }

  predicate Contains(cidr: Cidr, a: int) {
    cidr.network <= a <= cidr.broadcast
  }

  predicate IsOther(node: Node, currentNodeId: Option<string>) {
    currentNodeId != Some(node.id)
  }

  /** The addresses that the other nodes take in the block. */
  function TakenAddresses(cidr: Cidr, nodes: seq<Node>, currentNodeId: Option<string>): Result<set<int>, Thrown>
    decreases |nodes|
  {
    if nodes == [] then Ok({})
    else
      var last := |nodes| - 1;
      match TakenAddresses(cidr, nodes[..last], currentNodeId)
      case Err(e) => Err(e)
      case Ok(taken) =>
        if !IsOther(nodes[last], currentNodeId) then Ok(taken)
        else match ParseIpv4(nodes[last].address)
          case Err(e) => Err(e)
          case Ok(a) => Ok(if Contains(cidr, a) then taken + {a} else taken)
  }

  /** The block of a VNR and its Master address, as far as they are valid. */
  function VnrBlock(topology: Topology, vnrName: string): Result<(Vnr, Cidr, int), Thrown> {
    match FindVnr(topology.vnrs, vnrName)
    case None => Err(RangeError)
    case Some(vnr) =>
      match ParseIpv4Cidr(vnr.cidr)
      case Err(e) => Err(e)
      case Ok(cidr) =>
        if !(1 <= cidr.prefixLength <= 30) then Err(RangeError)
        else match ParseIpv4(vnr.masterAddress)
          case Err(e) => Err(e)
          case Ok(master) =>
            if !Contains(cidr, master) || master == cidr.network || master == cidr.broadcast then Err(TypeError)
            else Ok((vnr, cidr, master))
  }

  function CreateAvailability(topology: Topology, vnrName: string,
                              currentNodeId: Option<string>): Result<Availability, Thrown> {
    match VnrBlock(topology, vnrName)
    case Err(e) => Err(e)
    case Ok((vnr, cidr, master)) =>
      match TakenAddresses(cidr, topology.nodes, currentNodeId)
      case Err(e) => Err(e)
      case Ok(taken) =>
        Ok(Availability(vnr.name, vnr.cidr, vnr.masterAddress, cidr.network, cidr.broadcast, cidr.prefixLength,
                        {cidr.network, master, cidr.broadcast} + taken))
  }

  /** `createNodeAddressAvailability`, which fills the set of blocked addresses node by node. */
  method CreateNodeAddressAvailability(topology: Topology, vnrName: string, currentNodeId: Option<string>)
    returns (r: Result<Availability, Thrown>)
    ensures r == CreateAvailability(topology, vnrName, currentNodeId)
  {
    hide VnrBlock, ParseIpv4;
    var block := VnrBlock(topology, vnrName);
    if block.Err? {
      return Err(block.error);
    }
    var (vnr, cidr, master) := block.value;
    var nodes := topology.nodes;
    var blocked := {cidr.network, master, cidr.broadcast};
    for i := 0 to |nodes|
      invariant TakenAddresses(cidr, nodes[..i], currentNodeId).Ok?
      invariant blocked
                == {cidr.network, master, cidr.broadcast} + TakenAddresses(cidr, nodes[..i], currentNodeId).value
    {
      assert nodes[..i + 1][..i] == nodes[..i];
      if currentNodeId == Some(nodes[i].id) {
        continue;
      }
      var address := ParseIpv4(nodes[i].address);
      if address.Err? {
        FirstBadNode(cidr, nodes, currentNodeId, i + 1);
        return Err(address.error);
      }
      if Contains(cidr, address.value) {
        blocked := blocked + {address.value};
      }
    }
    assert nodes[..|nodes|] == nodes;
    return Ok(Availability(vnr.name, vnr.cidr, vnr.masterAddress,
                           cidr.network, cidr.broadcast, cidr.prefixLength, blocked));
  }

  lemma {:induction false} FirstBadNode(cidr: Cidr, nodes: seq<Node>, currentNodeId: Option<string>, n: nat)
    requires n <= |nodes| && TakenAddresses(cidr, nodes[..n], currentNodeId).Err?
    ensures TakenAddresses(cidr, nodes, currentNodeId) == TakenAddresses(cidr, nodes[..n], currentNodeId)
    decreases |nodes|
  {
    if n == |nodes| {
      assert nodes[..n] == nodes;
    } else {
      var before := nodes[..|nodes| - 1];
      assert before[..n] == nodes[..n];
      FirstBadNode(cidr, before, currentNodeId, n);
    }
  }

  // ---------- Selecting ----------

  /** A four-octet selection; `None` octets and no options mean that the VNR is exhausted. */
  datatype Selection = Selection(
    value: Option<string>, octets: seq<Option<int>>, octetOptions: seq<seq<int>>, exhausted: bool)

  function Chosen(octets: Octets): (chosen: seq<Option<int>>)
    ensures |chosen| == |octets| && (forall i :: 0 <= i < |octets| ==> chosen[i] == Some(octets[i]))
  {
    seq(|octets|, i requires 0 <= i < |octets| => Some(octets[i]))
  }

  function SelectionFor(av: Availability, address: Option<Address>): Selection {
    match address
    case None => Selection(None, [None, None, None, None], [[], [], [], []], true)
    case Some(a) =>
      var o := ToOctets(a);
      Selection(Some(FormatIpv4(a)), Chosen(o),
                [OctetOptions(av, o[..0]), OctetOptions(av, o[..1]),
                 OctetOptions(av, o[..2]), OctetOptions(av, o[..3])], false)
  }

  function TryParse(text: Option<string>): Option<Address> {
    if text.None? then None
    else match ParseIpv4(text.value)
      case Err(_) => None
      case Ok(a) => Some(a)
  }

  /** What the factory guarantees about an availability, beyond what the class does. */
  ghost predicate FactoryBuilt(av: Availability) {
    && 0 <= av.network && av.broadcast == av.network + BlockSize(av.prefixLength) - 1 <= IPV4_MAX
    && 1 <= av.prefixLength <= 30
    && av.network in av.blocked && av.broadcast in av.blocked
    && (forall a :: a in av.blocked ==> av.network <= a <= av.broadcast)
  }

  lemma LowestIsAddress(av: Availability, p: OctetPrefix)
    requires FactoryBuilt(av)
    ensures Lowest(av, p).Some? ==> 0 <= Lowest(av, p).value <= IPV4_MAX
  {
  }

  function LowestAddress(av: Availability, p: OctetPrefix): (r: Option<Address>)
    requires FactoryBuilt(av)
    ensures r == Lowest(av, p)
  {
    LowestIsAddress(av, p);
    match Lowest(av, p)
    case None => None
    case Some(a) => Some(a)
  }

  /** The preferred address if it is available, and else the lowest one. */
  function CreateSelection(av: Availability, preferred: Option<string>): Selection
    requires FactoryBuilt(av)
  {
    var address := TryParse(preferred);
    SelectionFor(av, if address.Some? && IsAvailable(av, address.value) then address else LowestAddress(av, []))
  }

  predicate WellFormed(selection: Selection) {
    |selection.octets| == 4 && |selection.octetOptions| == 4
    && (forall o :: o in selection.octets && o.Some? ==> IsOctet(o.value))
  }

  function Given(octets: seq<Option<int>>): (given: Octets)
    requires forall o :: o in octets ==> o.Some? && IsOctet(o.value)
    ensures |given| == |octets| && (forall i :: 0 <= i < |given| ==> given[i] == octets[i].value)
  {
    var given := seq(|octets|, i requires 0 <= i < |octets| => assert octets[i] in octets; octets[i].value);
    assert forall i :: 0 <= i < |given| ==> octets[i] in octets && given[i] == octets[i].value;
    given
  }

  function SelectOctet(av: Availability, selection: Selection, index: int, value: int): Result<Selection, Thrown>
    requires FactoryBuilt(av) && WellFormed(selection)
  {
    if !(0 <= index <= 3) || !IsOctet(value) || selection.exhausted then Err(RangeError)
    else if exists i :: 0 <= i < index && selection.octets[i].None? then Err(RangeError)
    else
      var upstream := Given(selection.octets[..index]);
      var next := LowestAddress(av, upstream + [value]);
      if next.None? then Err(RangeError) else Ok(SelectionFor(av, next))
  }
}
