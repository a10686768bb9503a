/** When an availability can be created, what is selected at first, and which octets can be chosen. */
module NodeAddressChoices {
  import opened Wrappers
  import opened Records
  import opened Ipv4
  import opened Ipv4Text
  import opened NodeAddresses
  import opened NodeAddressProofs

  // ---------- Creating ----------

  /** VNR `i` is the first of the name. */
  ghost predicate IsFirstVnr(vnrs: seq<Vnr>, name: string, i: nat) {
    i < |vnrs| && vnrs[i].name == name && forall j :: 0 <= j < i ==> vnrs[j].name != name
  }

  lemma {:induction false} FindsFirst(vnrs: seq<Vnr>, name: string)
    ensures FindVnr(vnrs, name).None? <==> forall v :: v in vnrs ==> v.name != name
    ensures forall i: nat :: IsFirstVnr(vnrs, name, i) ==> FindVnr(vnrs, name) == Some(vnrs[i])
    ensures FindVnr(vnrs, name).Some? ==> exists i: nat :: IsFirstVnr(vnrs, name, i)
    decreases |vnrs|
  {
    if vnrs != [] {
      FindsFirst(vnrs[1..], name);
      assert vnrs[0] in vnrs && (forall v :: v in vnrs[1..] ==> v in vnrs);
      if vnrs[0].name == name {
        assert IsFirstVnr(vnrs, name, 0);
      } else {
        forall i: nat | IsFirstVnr(vnrs, name, i)
          ensures IsFirstVnr(vnrs[1..], name, i - 1)
        {
        }
        if i: nat :| IsFirstVnr(vnrs[1..], name, i) { assert IsFirstVnr(vnrs, name, i + 1); }
      }
    }
  }

  /** The range is a canonical block of a length from 1 to 30, and the Master has a host address in it. */
  ghost predicate IsUsable(v: Vnr) {
    var cidr, master := ParseIpv4Cidr(v.cidr), ParseIpv4(v.masterAddress);
    && cidr.Ok? && 1 <= cidr.value.prefixLength <= 30
    && master.Ok? && cidr.value.network < master.value < cidr.value.broadcast
  }

  /** Node `i` is the first other node whose address text is malformed. */
  ghost predicate IsFirstBadNode(nodes: seq<Node>, currentNodeId: Option<string>, i: nat) {
    && i < |nodes| && IsOther(nodes[i], currentNodeId) && ParseIpv4(nodes[i].address).Err?
    && forall j :: 0 <= j < i && IsOther(nodes[j], currentNodeId) ==> ParseIpv4(nodes[j].address).Ok?
  }

  lemma {:induction false} FirstBadNodeDecides(cidr: Cidr, nodes: seq<Node>, currentNodeId: Option<string>)
    requires TakenAddresses(cidr, nodes, currentNodeId).Err?
    ensures exists i: nat :: IsFirstBadNode(nodes, currentNodeId, i)
                             && ParseIpv4(nodes[i].address) == Err(TakenAddresses(cidr, nodes, currentNodeId).error)
    decreases |nodes|
  {
    hide ParseIpv4, IsOther;
    var last := |nodes| - 1;
    if TakenAddresses(cidr, nodes[..last], currentNodeId).Err? {
      FirstBadNodeDecides(cidr, nodes[..last], currentNodeId);
      var e := TakenAddresses(cidr, nodes, currentNodeId).error;
      var i: nat :| IsFirstBadNode(nodes[..last], currentNodeId, i) && ParseIpv4(nodes[..last][i].address) == Err(e);
      assert IsFirstBadNode(nodes, currentNodeId, i);
    } else {
      TakenIsExact(cidr, nodes[..last], currentNodeId);
      forall j | 0 <= j < last && IsOther(nodes[j], currentNodeId)
        ensures ParseIpv4(nodes[j].address).Ok?
      {
        assert nodes[..last][j] in nodes[..last];
      }
      assert IsFirstBadNode(nodes, currentNodeId, last);
    }
  }

  /** The error for a VNR: a bad text its own, a bad length a range error, a Master that is no host a type error. */
  ghost predicate IsVnrError(v: Vnr, e: Thrown) {
    var cidr, master := ParseIpv4Cidr(v.cidr), ParseIpv4(v.masterAddress);
    e == if cidr.Err? then cidr.error
         else if !(1 <= cidr.value.prefixLength <= 30) then RangeError
         else if master.Err? then master.error else TypeError
  }

  lemma BlockNeedsUsable(topology: Topology, vnrName: string, i: nat)
    requires IsFirstVnr(topology.vnrs, vnrName, i)
    ensures var v, block := topology.vnrs[i], VnrBlock(topology, vnrName);
            && (block.Ok? <==> IsUsable(v)) && (block.Err? ==> IsVnrError(v, block.error))
  {
    hide ParseIpv4, ParseIpv4Cidr;
    FindsFirst(topology.vnrs, vnrName);
  }

  /**
   An availability can be created exactly when the first VNR of the name is usable and the address texts of all other
   nodes are addresses. An absent VNR is a range error; then the VNR decides, and then the first bad node.
   */
  lemma CreationSucceedsIff(topology: Topology, vnrName: string, currentNodeId: Option<string>)
    ensures var r := CreateAvailability(topology, vnrName, currentNodeId);
            && (r.Ok? <==>
                  && (exists i: nat :: IsFirstVnr(topology.vnrs, vnrName, i) && IsUsable(topology.vnrs[i]))
                  && (forall n :: n in topology.nodes && IsOther(n, currentNodeId) ==> ParseIpv4(n.address).Ok?))
            && (r.Err? ==>
                  || ((forall v :: v in topology.vnrs ==> v.name != vnrName) && r.error == RangeError)
                  || (exists i: nat :: IsFirstVnr(topology.vnrs, vnrName, i) && !IsUsable(topology.vnrs[i])
                                       && IsVnrError(topology.vnrs[i], r.error))
                  || (exists i: nat, j: nat ::
                        && IsFirstVnr(topology.vnrs, vnrName, i) && IsUsable(topology.vnrs[i])
                        && IsFirstBadNode(topology.nodes, currentNodeId, j)
                        && ParseIpv4(topology.nodes[j].address) == Err(r.error)))
  {
    hide ParseIpv4, ParseIpv4Cidr, IsFirstVnr, IsUsable, IsVnrError, IsFirstBadNode, VnrBlock, TakenAddresses;
    FindsFirst(topology.vnrs, vnrName);
    if i: nat :| IsFirstVnr(topology.vnrs, vnrName, i) {
      BlockNeedsUsable(topology, vnrName, i);
      FirstIsOne(topology.vnrs, vnrName, i);
      if VnrBlock(topology, vnrName).Ok? {
        var (vnr, cidr, master) := VnrBlock(topology, vnrName).value;
        TakenIsExact(cidr, topology.nodes, currentNodeId);
        if TakenAddresses(cidr, topology.nodes, currentNodeId).Err? {
          FirstBadNodeDecides(cidr, topology.nodes, currentNodeId);
        }
      }
    } else {
      AbsentVnr(topology, vnrName);
    }
  }

  lemma FirstIsOne(vnrs: seq<Vnr>, name: string, i: nat)
    requires IsFirstVnr(vnrs, name, i)
    ensures forall j: nat :: IsFirstVnr(vnrs, name, j) ==> j == i
    ensures vnrs[i] in vnrs && vnrs[i].name == name
  {
  }

  lemma AbsentVnr(topology: Topology, vnrName: string)
    requires FindVnr(topology.vnrs, vnrName).None?
    ensures VnrBlock(topology, vnrName) == Err(RangeError)
  {
  }

  /** The current node is told by its identifier. */
  lemma OtherMeans(n: Node, currentNodeId: Option<string>)
    ensures IsOther(n, currentNodeId) <==> currentNodeId.None? || currentNodeId.value != n.id
  {
  }

  // ---------- Selecting ----------

  /** The address is the preferred one, if that text denotes an available address, and otherwise the least available. */
  ghost predicate IsSelected(av: Availability, preferred: Option<string>, a: Address) {
    && IsAvailable(av, a)
    && if preferred.Some? && ParseIpv4(preferred.value).Ok? && IsAvailable(av, ParseIpv4(preferred.value).value)
       then ParseIpv4(preferred.value) == Ok(a)
       else forall b: Address :: IsAvailable(av, b) ==> a <= b
  }

  /** A selection shows the octets and the text of its address; it is exhausted iff nothing is available. */
  lemma SelectionMeaning(av: Availability, preferred: Option<string>)
    requires FactoryBuilt(av)
    ensures var selection := CreateSelection(av, preferred);
            && (selection.exhausted <==> forall a: Address :: !IsAvailable(av, a))
            && (selection.exhausted ==> selection.value.None? && selection.octets == [None, None, None, None])
            && (!selection.exhausted ==> exists a: Address ::
                  && IsSelected(av, preferred, a) && selection.value == Some(FormatIpv4(a))
                  && |selection.octets| == 4 && forall i :: 0 <= i < 4 ==> selection.octets[i] == Some(ToOctets(a)[i]))
  {
    hide ToOctets, FormatIpv4, ParseIpv4, OctetOptions, LowestAddress, FactoryBuilt, IsAvailable;
    LowestIsLeast(av, []);
    forall a: Address
      ensures Fits(av, [], a) <==> IsAvailable(av, a)
    {
      EverythingFits(av, a);
    }
    var parsed, lowest := TryParse(preferred), LowestAddress(av, []);
    if parsed.Some? && IsAvailable(av, parsed.value) {
      assert IsSelected(av, preferred, parsed.value);
    } else if lowest.Some? {
      assert IsSelected(av, preferred, lowest.value);
    }
  }

  /** From a selection exactly the octets on offer can be chosen; anything else is a range error. */
  lemma OfferedOctetCanBeChosen(av: Availability, from: Address, index: int, value: int)
    requires FactoryBuilt(av)
    ensures var selection := SelectionFor(av, Some(from));
            && WellFormed(selection) && |selection.octetOptions| == 4
            && var r := SelectOctet(av, selection, index, value);
               && (r.Ok? <==> 0 <= index <= 3 && value in selection.octetOptions[index])
               && (r.Err? ==> r.error == RangeError)
  {
    hide ToOctets, FormatIpv4, OctetOptions, LowestAddress, FactoryBuilt, SelectOctet;
    SelectionIsWellFormed(av, Some(from));
    if 0 <= index <= 3 && IsOctet(value) {
      SelectingMoves(av, from, index, value);
      OptionsAreExact(av, ToOctets(from)[..index]);
      LowestIsLeast(av, Branch(from, index, value));
    } else {
      if 0 <= index <= 3 { OptionsAreExact(av, ToOctets(from)[..index]); }
      BadChoice(av, SelectionFor(av, Some(from)), index, value);
    }
  }

  lemma BadChoice(av: Availability, selection: Selection, index: int, value: int)
    requires FactoryBuilt(av) && WellFormed(selection) && !(0 <= index <= 3 && IsOctet(value))
    ensures SelectOctet(av, selection, index, value) == Err(RangeError)
  {
  }

  /** Nothing can be chosen in an exhausted VNR. */
  lemma ExhaustedOffersNothing(av: Availability, index: int, value: int)
    requires FactoryBuilt(av)
    ensures var selection := SelectionFor(av, None);
            && WellFormed(selection) && (forall options :: options in selection.octetOptions ==> options == [])
            && SelectOctet(av, selection, index, value) == Err(RangeError)
  {
  }
}
