/**
 After the server has rejected an address: `nextAddressAfterConflict` of `nodes-workspace.tsx`, which
 walks the octet options, and the path of `node-detail-workspace.tsx`, which adds a node at that address.
 */
module ConflictRecovery {
  import opened Wrappers
  import opened Records
  import opened Bits
  import opened Ipv4
  import opened Ipv4Text
  import opened NodeAddresses
  import opened NodeAddressProofs

  /** An available address other than the one that the rejected text denotes. */
  predicate Candidate(av: Availability, rejected: string, a: Address) {
    IsAvailable(av, a) && TryParse(Some(rejected)) != Some(a)
  }

  /** The text of the least candidate, or nothing when there is no candidate. */
  ghost predicate IsNext(av: Availability, rejected: string, result: Option<string>) {
    match result
    case None => forall a: Address :: !Candidate(av, rejected, a)
    case Some(text) =>
      exists a: Address :: text == FormatIpv4(a) && Candidate(av, rejected, a)
                           && (forall b: Address :: Candidate(av, rejected, b) ==> a <= b)
  }

  // ---------- Numerical order is octet order ----------

  lemma QuotientOrder(a: nat, b: nat, m: nat)
    requires 0 < m && a / m < b / m
    ensures a < b
  {
    var q, r, d := a / m, a % m, b / m - a / m;
    assert a == m * q + r && b == m * (b / m) + b % m;
    assert m * (b / m) == m * q + m * d;
    AtLeastOnce(m, d);
  }

  /** Addresses compare as their first different octets do. */
  lemma OctetOrder(a: Address, b: Address, j: nat)
    requires j < 4 && ToOctets(a)[..j] == ToOctets(b)[..j] && ToOctets(a)[j] < ToOctets(b)[j]
    ensures a < b
  {
    hide ToOctets, FromOctets, Span;
    var p, q := ToOctets(a)[..j + 1], ToOctets(b)[..j + 1];
    FromOctetsSnoc(p);
    FromOctetsSnoc(q);
    assert p[..j] == ToOctets(a)[..j] && q[..j] == ToOctets(b)[..j];
    OctetsAreQuotients(a, j + 1);
    OctetsAreQuotients(b, j + 1);
    QuotientOrder(a, b, Span(j + 1));
  }

  lemma FirstDifference(o: seq<int>, p: seq<int>) returns (j: nat)
    requires |o| == |p| && o != p
    ensures j < |o| && o[..j] == p[..j] && o[j] != p[j]
  {
    j := 0;
    while o[j] == p[j]
      invariant j < |o| && o[..j] == p[..j] && o[j..] != p[j..]
      decreases |o| - j
    {
      assert o[..j + 1] == o[..j] + [o[j]] && p[..j + 1] == p[..j] + [p[j]];
      assert o[j..] == [o[j]] + o[j + 1..] && p[j..] == [p[j]] + p[j + 1..];
      j := j + 1;
    }
  }

  lemma FirstLargerOctet(a: Address, b: Address) returns (j: nat)
    requires a < b
    ensures j < 4 && ToOctets(a)[..j] == ToOctets(b)[..j] && ToOctets(a)[j] < ToOctets(b)[j]
  {
    hide ToOctets;
    if ToOctets(a) == ToOctets(b) { SameOctetsSameAddress(a, b); }
    j := FirstDifference(ToOctets(a), ToOctets(b));
    if ToOctets(b)[j] < ToOctets(a)[j] { OctetOrder(b, a, j); }
  }

  // ---------- The walk ----------

  /** `options.find(option => option > current)`. */
  function FirstAbove(options: seq<int>, current: int): (r: Option<int>)
    ensures match r
            case None => forall o :: o in options ==> o <= current
            case Some(o) => o in options && o > current
    ensures (forall i, j :: 0 <= i < j < |options| ==> options[i] < options[j]) && r.Some? ==>
              forall o :: o in options && o > current ==> r.value <= o
  {
    if options == [] then None
    else
      assert forall o :: o in options <==> o == options[0] || o in options[1..];
      if options[0] > current then Some(options[0]) else FirstAbove(options[1..], current)
  }

  /** The first option at octet `i` above the octet that `a` has there. */
  function NextOption(av: Availability, a: Address, i: nat): (r: Option<int>)
    requires i < 4
    ensures r.Some? ==> IsOctet(r.value)
  {
    FirstAbove(OctetOptions(av, ToOctets(a)[..i]), ToOctets(a)[i])
  }

  /** No available address branches off from `a` upwards at octet `i`. */
  ghost predicate NoBranch(av: Availability, a: Address, i: nat)
    requires i < 4
  {
    forall b: Address :: IsAvailable(av, b) && ToOctets(b)[..i] == ToOctets(a)[..i] ==> ToOctets(b)[i] <= ToOctets(a)[i]
  }

  lemma NoOptionNoBranch(av: Availability, a: Address, i: nat)
    requires FactoryBuilt(av) && i < 4 && NextOption(av, a, i).None?
    ensures NoBranch(av, a, i)
  {
    hide ToOctets, OctetOptions, FactoryBuilt;
    forall b: Address | IsAvailable(av, b) && ToOctets(b)[..i] == ToOctets(a)[..i]
      ensures ToOctets(b)[i] <= ToOctets(a)[i]
    {
      IsAnOption(av, a, b, i);
    }
  }

  lemma IsAnOption(av: Availability, a: Address, b: Address, i: nat)
    requires FactoryBuilt(av) && i < 4 && IsAvailable(av, b) && ToOctets(b)[..i] == ToOctets(a)[..i]
    ensures ToOctets(b)[i] in OctetOptions(av, ToOctets(a)[..i])
  {
    hide ToOctets, OctetOptions, FactoryBuilt;
    var p, o := ToOctets(a)[..i], ToOctets(b)[i];
    assert o in ToOctets(b);
    OptionsAreExact(av, p);
    assert p + [o] == ToOctets(b)[..i + 1];
    assert Fits(av, p + [o], b);
  }

  /** A larger available address branches off somewhere. */
  lemma LargerBranches(av: Availability, a: Address, b: Address)
    requires IsAvailable(av, b) && a < b
    ensures exists i :: 0 <= i < 4 && !NoBranch(av, a, i)
  {
    hide ToOctets, IsAvailable;
    var j := FirstLargerOctet(a, b);
    assert !NoBranch(av, a, j);
  }

  /** A branch of `a` at a larger octet lies above `a`. */
  lemma BranchIsSuccessor(av: Availability, a: Address, i: nat, octet: int, x: Address)
    requires FactoryBuilt(av) && i < 4 && IsOctet(octet) && ToOctets(a)[i] < octet
    requires LowestAddress(av, Branch(a, i, octet)) == Some(x)
    ensures a < x && IsAvailable(av, x) && ToOctets(x)[..i] == ToOctets(a)[..i] && ToOctets(x)[i] == octet
  {
    hide ToOctets, FactoryBuilt, LowestAddress, IsAvailable;
    var p := Branch(a, i, octet);
    LowestIsLeast(av, p);
    assert Fits(av, p, x) && ToOctets(x)[..i] == p[..i] == ToOctets(a)[..i] && ToOctets(x)[i] == p[i] == octet;
    OctetOrder(a, x, i);
  }

  /** When nothing branches off further down, no available address lies between `a` and its lowest branch. */
  lemma NothingBetween(av: Availability, a: Address, i: nat, octet: int, x: Address, b: Address)
    requires FactoryBuilt(av) && i < 4 && IsOctet(octet)
    requires forall j :: i < j < 4 ==> NoBranch(av, a, j)
    requires NextOption(av, a, i) == Some(octet)
    requires LowestAddress(av, Branch(a, i, octet)) == Some(x)
    requires IsAvailable(av, b) && a < b
    ensures x <= b
  {
    hide ToOctets, OctetOptions, FactoryBuilt, LowestAddress, IsAvailable;
    OptionsAreExact(av, ToOctets(a)[..i]);
    BranchIsSuccessor(av, a, i, octet, x);
    var j := FirstLargerOctet(a, b);
    assert j > i ==> NoBranch(av, a, j);
    if j < i {
      assert ToOctets(x)[..j] == ToOctets(x)[..i][..j] == ToOctets(a)[..i][..j] == ToOctets(a)[..j];
      assert ToOctets(x)[j] == ToOctets(x)[..i][j] == ToOctets(a)[..i][j] == ToOctets(a)[j];
      OctetOrder(x, b, j);
    } else {
      IsAnOption(av, a, b, i);
      if ToOctets(b)[i] == octet {
        LowestIsLeast(av, Branch(a, i, octet));
        assert ToOctets(b)[..i + 1] == Branch(a, i, octet);
        assert Fits(av, Branch(a, i, octet), b);
      } else {
        OctetOrder(x, b, i);
      }
    }
  }

  // ---------- The recovery ----------

  /** The least available address, when the rejected text does not denote it. */
  lemma LowestIsNext(av: Availability, rejected: string)
    requires FactoryBuilt(av)
    requires LowestAddress(av, []).Some? ==> TryParse(Some(rejected)) != LowestAddress(av, [])
    ensures IsNext(av, rejected, CreateSelection(av, None).value)
  {
    hide ToOctets, OctetOptions, FactoryBuilt, LowestAddress, IsAvailable, FormatIpv4, ParseIpv4;
    LowestIsLeast(av, []);
    forall a: Address
      ensures Fits(av, [], a) <==> IsAvailable(av, a)
    {
    }
    if LowestAddress(av, []).Some? {
      assert Candidate(av, rejected, LowestAddress(av, []).value);
    }
  }

  /** The selection keeps the rejected text iff it denotes an available address. */
  lemma RejectedIsKept(av: Availability, rejected: string, parsed: Option<Address>)
    requires FactoryBuilt(av) && parsed == TryParse(Some(rejected))
    ensures var selection := CreateSelection(av, Some(rejected));
            if parsed.Some? && IsAvailable(av, parsed.value)
            then selection.value == Some(rejected) && selection == SelectionFor(av, parsed)
            else selection.value != Some(rejected) && selection == CreateSelection(av, None)
  {
    hide ToOctets, OctetOptions, FactoryBuilt, LowestAddress, IsAvailable, FormatIpv4, ParseIpv4;
    if parsed.Some? { FormatOfParse(rejected); }
    if !(parsed.Some? && IsAvailable(av, parsed.value)) {
      LowestIsLeast(av, []);
      if LowestAddress(av, []).Some? {
        ParseOfFormat(LowestAddress(av, []).value);
        assert Fits(av, [], LowestAddress(av, []).value);
      }
    }
  }

  lemma LowestSelectionText(av: Availability)
    requires FactoryBuilt(av)
    ensures var lowest := LowestAddress(av, []);
            CreateSelection(av, None).value == if lowest.None? then None else Some(FormatIpv4(lowest.value))
  {
    hide ToOctets, OctetOptions, FactoryBuilt, LowestAddress, IsAvailable, FormatIpv4, ParseIpv4;
  }

  /** The lowest selection is the rejected text iff that denotes the lowest address. */
  lemma RejectedIsLowest(av: Availability, rejected: string, lowest: Option<Address>)
    requires FactoryBuilt(av) && lowest == LowestAddress(av, [])
    ensures CreateSelection(av, None).value == Some(rejected) <==> lowest.Some? && TryParse(Some(rejected)) == lowest
  {
    hide FactoryBuilt, LowestAddress, FormatIpv4, TryParse, CreateSelection;
    LowestSelectionText(av);
    if lowest.Some? { TextIsFormat(rejected, lowest.value); }
  }

  /** A text denotes an address iff it is the text of that address. */
  lemma TextIsFormat(text: string, a: Address)
    ensures TryParse(Some(text)) == Some(a) <==> text == FormatIpv4(a)
  {
    hide FormatIpv4, ParseIpv4;
    ParseOfFormat(a);
    if ParseIpv4(text).Ok? { FormatOfParse(text); }
  }

  /** At the last octet with an option, selecting it succeeds and gives the answer. */
  lemma WalkEnds(av: Availability, rejected: string, a: Address, i: nat, octet: int)
    requires FactoryBuilt(av) && i < 4 && TryParse(Some(rejected)) == Some(a) && LowestAddress(av, []) == Some(a)
    requires (forall j :: i < j < 4 ==> NoBranch(av, a, j)) && NextOption(av, a, i) == Some(octet)
    ensures WellFormed(SelectionFor(av, Some(a)))
    ensures SelectOctet(av, SelectionFor(av, Some(a)), i, octet).Ok?
    ensures IsNext(av, rejected, SelectOctet(av, SelectionFor(av, Some(a)), i, octet).value.value)
  {
    hide ToOctets, OctetOptions, FactoryBuilt, LowestAddress, FormatIpv4, ParseIpv4, SelectionFor, SelectOctet;
    OptionsAreExact(av, ToOctets(a)[..i]);
    var p := Branch(a, i, octet);
    LowestIsLeast(av, p);
    SelectionIsWellFormed(av, Some(a));
    SelectingMoves(av, a, i, octet);
    SuccessorIsNext(av, rejected, a, i, octet, LowestAddress(av, p).value);
  }

  lemma SuccessorIsNext(av: Availability, rejected: string, a: Address, i: nat, octet: int, x: Address)
    requires FactoryBuilt(av) && i < 4 && IsOctet(octet)
    requires TryParse(Some(rejected)) == Some(a) && LowestAddress(av, []) == Some(a)
    requires forall j :: i < j < 4 ==> NoBranch(av, a, j)
    requires NextOption(av, a, i) == Some(octet)
    requires LowestAddress(av, Branch(a, i, octet)) == Some(x)
    ensures IsNext(av, rejected, SelectionFor(av, Some(x)).value)
  {
    hide ToOctets, OctetOptions, FactoryBuilt, LowestAddress, IsAvailable, FormatIpv4, ParseIpv4, NoBranch;
    hide FirstAbove, Branch;
    LowestIsLeast(av, []);
    LowestIsLeast(av, Branch(a, i, octet));
    assert Fits(av, Branch(a, i, octet), x);
    BranchIsSuccessor(av, a, i, octet, x);
    assert Candidate(av, rejected, x);
    forall b: Address | Candidate(av, rejected, b)
      ensures x <= b
    {
      assert Fits(av, [], b);
      NothingBetween(av, a, i, octet, x, b);
    }
  }

  /** What `nextAddressAfterConflict` returns once the availability is built. */
  method NextAfterConflict(av: Availability, rejected: string) returns (next: Option<string>)
    requires FactoryBuilt(av)
    ensures IsNext(av, rejected, next)
  {
    hide ToOctets, OctetOptions, FactoryBuilt, LowestAddress, FormatIpv4, ParseIpv4, SelectOctet, NoBranch;
    hide NextOption, IsNext;
    ghost var parsed := TryParse(Some(rejected));
    RejectedIsKept(av, rejected, parsed);
    RejectedIsLowest(av, rejected, LowestAddress(av, []));
    var selection := CreateSelection(av, Some(rejected));
    if selection.value != Some(rejected) {
      UnavailableIsNotLowest(av, parsed);
      LowestIsNext(av, rejected);
      return selection.value;
    }
    var lowest := CreateSelection(av, None);
    if lowest.value != Some(rejected) {
      LowestIsNext(av, rejected);
      return lowest.value;
    }
    ghost var a := parsed.value;
    SelectionIsWellFormed(av, Some(a));
    for index := 4 downto 0
      invariant forall j :: index <= j < 4 ==> NoBranch(av, a, j)
    {
      var currentOctet := selection.octets[index];
      if currentOctet.None? {
        continue;
      }
      var nextOption := FirstAbove(selection.octetOptions[index], currentOctet.value);
      assert nextOption == NextOption(av, a, index) by { NextOptionOfSelection(av, a, index); }
      if nextOption.Some? {
        WalkEnds(av, rejected, a, index, nextOption.value);
        // Selecting an option never throws, so its result can be used at once.
        return SelectOctet(av, selection, index, nextOption.value).value.value;
      }
      WalkGoesOn(av, a, index);
    }
    NothingElse(av, rejected, a);
    return None;
  }

  /** What denotes no available address does not denote the lowest one. */
  lemma UnavailableIsNotLowest(av: Availability, parsed: Option<Address>)
    requires FactoryBuilt(av) && !(parsed.Some? && IsAvailable(av, parsed.value))
    ensures LowestAddress(av, []).Some? ==> parsed != LowestAddress(av, [])
  {
    hide ToOctets, FactoryBuilt, LowestAddress, IsAvailable;
    LowestIsLeast(av, []);
    assert LowestAddress(av, []).Some? ==> Fits(av, [], LowestAddress(av, []).value);
  }

  lemma WalkGoesOn(av: Availability, a: Address, i: nat)
    requires FactoryBuilt(av) && i < 4 && NextOption(av, a, i).None?
    ensures NoBranch(av, a, i)
  {
    NoOptionNoBranch(av, a, i);
  }

  lemma NextOptionOfSelection(av: Availability, a: Address, i: nat)
    requires i < 4
    ensures var selection := SelectionFor(av, Some(a));
            && |selection.octets| == 4 && |selection.octetOptions| == 4 && selection.octets[i] == Some(ToOctets(a)[i])
            && NextOption(av, a, i) == FirstAbove(selection.octetOptions[i], ToOctets(a)[i])
  {
    hide OctetOptions, FormatIpv4, FirstAbove;
  }

  /** When nothing branches off from the lowest address, it is the only one. */
  lemma NothingElse(av: Availability, rejected: string, a: Address)
    requires FactoryBuilt(av) && TryParse(Some(rejected)) == Some(a) && LowestAddress(av, []) == Some(a)
    requires forall i :: 0 <= i < 4 ==> NoBranch(av, a, i)
    ensures IsNext(av, rejected, None)
  {
    hide ToOctets, OctetOptions, FactoryBuilt, LowestAddress, FormatIpv4, ParseIpv4, NoBranch, IsAvailable;
    LowestIsLeast(av, []);
    forall b: Address
      ensures !Candidate(av, rejected, b)
    {
      if Candidate(av, rejected, b) {
        assert Fits(av, [], b);
        LargerBranches(av, a, b);
      }
    }
  }

  /** A proposal is an address that neither the Master nor a node has, and not the rejected one. */
  ghost predicate IsNobodys(topology: Topology, av: Availability, rejected: string, result: Option<string>) {
    result.Some? ==>
      && ParseIpv4(result.value).Ok? && ParseIpv4(result.value) != ParseIpv4(rejected)
      && Unclaimed(topology, av, None, ParseIpv4(result.value).value)
  }

  lemma NextIsNobodys(topology: Topology, vnrName: string, rejected: string, result: Option<string>)
    requires CreateAvailability(topology, vnrName, None).Ok?
    requires IsNext(CreateAvailability(topology, vnrName, None).value, rejected, result)
    ensures IsNobodys(topology, CreateAvailability(topology, vnrName, None).value, rejected, result)
  {
    hide CreateAvailability, Unclaimed, IsAvailable, ParseIpv4Cidr, ParseIpv4, FormatIpv4;
    if result.Some? {
      var av := CreateAvailability(topology, vnrName, None).value;
      var a: Address :| result.value == FormatIpv4(a) && Candidate(av, rejected, a);
      ParseOfFormat(a);
      AvailableIsUnclaimed(topology, vnrName, None, a);
    }
  }

  /** `nextAddressAfterConflict`: the least available address other than the rejected one, if there is one. */
  method NextAddressAfterConflict(topology: Topology, vnrName: string, rejectedAddress: string)
    returns (next: Result<Option<string>, Thrown>)
    ensures match CreateAvailability(topology, vnrName, None)
            case Err(e) => next == Err(e)
            case Ok(av) =>
              && next.Ok? && IsNext(av, rejectedAddress, next.value)
              && IsNobodys(topology, av, rejectedAddress, next.value)
  {
    hide CreateAvailability, IsNext, IsNobodys;
    var availability := CreateNodeAddressAvailability(topology, vnrName, None);
    if availability.Err? {
      return Err(availability.error);
    }
    CreatedIsFactoryBuilt(topology, vnrName, None);
    var found := NextAfterConflict(availability.value, rejectedAddress);
    NextIsNobodys(topology, vnrName, rejectedAddress, found);
    return Ok(found);
  }

  // ---------- The other path ----------

  const PHANTOM_ID := "__concurrent_allocation__"

  /** The topology with a copy of the node at the address that is known to be taken. */
  function WithPhantom(topology: Topology, node: Node, address: string): Topology {
    topology.(nodes := topology.nodes + [node.(id := PHANTOM_ID, address := address)])
  }

  function Blocking(av: Availability, a: int): Availability {
    if av.network <= a <= av.broadcast then av.(blocked := av.blocked + {a}) else av
  }

  /** The further node blocks its address, if that lies in the VNR; and a malformed address throws. */
  lemma PhantomBlocks(topology: Topology, vnrName: string, currentNodeId: Option<string>, node: Node, rejected: string)
    requires currentNodeId != Some(PHANTOM_ID) && CreateAvailability(topology, vnrName, currentNodeId).Ok?
    ensures var with := CreateAvailability(WithPhantom(topology, node, rejected), vnrName, currentNodeId);
            match ParseIpv4(rejected)
            case Err(e) => with == Err(e)
            case Ok(a) => with == Ok(Blocking(CreateAvailability(topology, vnrName, currentNodeId).value, a))
  {
    hide ParseIpv4, ParseIpv4Cidr;
    var nodes := WithPhantom(topology, node, rejected).nodes;
    assert nodes[..|nodes| - 1] == topology.nodes;
    var (vnr, cidr, master) := VnrBlock(topology, vnrName).value;
    var taken := TakenAddresses(cidr, topology.nodes, currentNodeId).value;
    if ParseIpv4(rejected).Ok? {
      var a := ParseIpv4(rejected).value;
      assert {cidr.network, master, cidr.broadcast} + (taken + {a})
        == {cidr.network, master, cidr.broadcast} + taken + {a};
    }
  }

  lemma BlockingExcludes(av: Availability, a: Address, b: Address)
    requires FactoryBuilt(av)
    ensures FactoryBuilt(Blocking(av, a))
    ensures IsAvailable(Blocking(av, a), b) <==> IsAvailable(av, b) && b != a
  {
  }

  /** The lowest selection beside the further node is the next address in the sense of the walk. */
  lemma PhantomPathIsNext(av: Availability, rejected: string, a: Address)
    requires FactoryBuilt(av) && ParseIpv4(rejected) == Ok(a)
    ensures FactoryBuilt(Blocking(av, a))
    ensures IsNext(av, rejected, CreateSelection(Blocking(av, a), None).value)
  {
    hide ToOctets, OctetOptions, FactoryBuilt, LowestAddress, FormatIpv4, ParseIpv4, IsAvailable;
    var av1 := Blocking(av, a);
    BlockingExcludes(av, a, a);
    LowestIsLeast(av1, []);
    forall b: Address
      ensures Fits(av1, [], b) <==> Candidate(av, rejected, b)
    {
      BlockingExcludes(av, a, b);
    }
    if LowestAddress(av1, []).Some? {
      assert Candidate(av, rejected, LowestAddress(av1, []).value);
    }
  }

  lemma NextIsUnique(av: Availability, rejected: string, r0: Option<string>, r1: Option<string>)
    requires IsNext(av, rejected, r0) && IsNext(av, rejected, r1)
    ensures r0 == r1
  {
    hide FormatIpv4, ParseIpv4;
  }

  /**
   Both recovery paths propose the same address: whatever the walk may return, the lowest selection beside a
   further node at the rejected address is it. One page passes no current node, the other the node it edits.
   */
  lemma RecoveryPathsAgree(topology: Topology, vnrName: string, currentNodeId: Option<string>, node: Node,
                           rejected: string, walked: Option<string>)
    requires currentNodeId != Some(PHANTOM_ID)
    requires CreateAvailability(topology, vnrName, currentNodeId).Ok? && ParseIpv4(rejected).Ok?
    requires IsNext(CreateAvailability(topology, vnrName, currentNodeId).value, rejected, walked)
    ensures CreateAvailability(WithPhantom(topology, node, rejected), vnrName, currentNodeId).Ok?
    ensures FactoryBuilt(CreateAvailability(WithPhantom(topology, node, rejected), vnrName, currentNodeId).value)
    ensures var with := CreateAvailability(WithPhantom(topology, node, rejected), vnrName, currentNodeId).value;
            CreateSelection(with, None).value == walked
  {
    hide CreateAvailability, CreateSelection, FactoryBuilt, ParseIpv4, IsNext, Blocking;
    CreatedIsFactoryBuilt(topology, vnrName, currentNodeId);
    PhantomBlocks(topology, vnrName, currentNodeId, node, rejected);
    var av, a := CreateAvailability(topology, vnrName, currentNodeId).value, ParseIpv4(rejected).value;
    PhantomPathIsNext(av, rejected, a);
    NextIsUnique(av, rejected, walked, CreateSelection(Blocking(av, a), None).value);
  }
}
