/** Choosing a CIDR block octet by octet: the first half of `segmented-network.ts`. */
module CidrSelections {
  import opened Wrappers
  import opened Bits
  import opened Ipv4
  import opened Ipv4Text

  datatype Purpose = ForVnr | ForRoute
  datatype Status = Available | RetainedInvalid
  datatype SegmentOption = SegmentOption(value: int, status: Status)
  datatype Validity = Incomplete | IsCanonical | HostBitsSet

  /** Four octets, each chosen or not. */
  type Draft = octets: seq<Option<int>>
    | |octets| == 4 && (forall o :: o in octets && o.Some? ==> IsOctet(o.value))
    witness [None, None, None, None]

  datatype Selection = Selection(
    purpose: Purpose,
    value: Option<string>,
    octets: Draft,
    prefixLength: Option<PrefixLength>,
    octetOptions: seq<seq<SegmentOption>>,
    validity: Validity)

  function MaximumPrefix(purpose: Purpose): PrefixLength {
    if purpose.ForVnr? then 30 else 32
  }

  predicate PrefixAllowed(purpose: Purpose, p: int) {
    1 <= p <= MaximumPrefix(purpose)
  }

  // ---------- Options ----------

  /** The bits of octet `index` that belong to the prefix. */
  function SignificantBits(p: PrefixLength, index: nat): (bits: nat)
    requires index < 4
    ensures bits <= 8
  {
    if p - index * 8 <= 0 then 0 else if p - index * 8 >= 8 then 8 else p - index * 8
  }

  function Multiples(step: nat, count: nat): (values: seq<int>)
    ensures |values| == count && (forall k :: 0 <= k < count ==> values[k] == k * step)
  {
    seq(count, (k: nat) => k * step)
  }

  const ALL_OCTETS := Multiples(1, 256)

  function ValidOctetValues(p: Option<PrefixLength>, index: nat): seq<int>
    requires index < 4
  {
    match p
    case None => ALL_OCTETS
    case Some(prefix) =>
      var bits := SignificantBits(prefix, index);
      if bits == 0 then [0] else if bits == 8 then ALL_OCTETS else Multiples(Pow2(8 - bits), Pow2(bits))
  }

  function AvailableOptions(values: seq<int>): seq<SegmentOption> {
    seq(|values|, i requires 0 <= i < |values| => SegmentOption(values[i], Available))
  }

  /** Where a value belongs in an ascending list of options. */
  function InsertSorted(options: seq<SegmentOption>, extra: SegmentOption): (r: seq<SegmentOption>)
    ensures forall o :: o in r <==> o in options || o == extra
    ensures Ascending(options) && (forall o :: o in options ==> o.value != extra.value) ==> Ascending(r)
  {
    if options == [] || extra.value < options[0].value then [extra] + options
    else
      var rest := InsertSorted(options[1..], extra);
      assert forall o :: o in options <==> o == options[0] || o in options[1..];
      assert options[0] in options;
      assert forall i :: 0 <= i < |rest| ==> rest[i] in rest;
      assert forall i :: 0 <= i < |options| - 1 ==> options[1..][i] == options[i + 1];
      [options[0]] + rest
  }

  ghost predicate Ascending(options: seq<SegmentOption>) {
    forall i, j :: 0 <= i < j < |options| ==> options[i].value < options[j].value
  }

  function WithRetainedInvalid(values: seq<int>, current: Option<int>): seq<SegmentOption> {
    if current.None? || current.value in values then AvailableOptions(values)
    else InsertSorted(AvailableOptions(values), SegmentOption(current.value, RetainedInvalid))
  }

  predicate AllChosen(octets: seq<Option<int>>) {
    forall o :: o in octets ==> o.Some?
  }

  predicate NoneChosen(octets: seq<Option<int>>) {
    forall o :: o in octets ==> o.None?
  }

  function OptionsAt(octets: Draft, p: Option<PrefixLength>, index: nat): seq<SegmentOption>
    requires index < 4
  {
    if AllChosen(octets[..index]) then WithRetainedInvalid(ValidOctetValues(p, index), octets[index])
    else if octets[index].None? then [] else [SegmentOption(octets[index].value, RetainedInvalid)]
  }

  function Values(octets: Draft): (values: Octets)
    requires AllChosen(octets)
    ensures |values| == 4 && (forall i :: 0 <= i < 4 ==> Some(values[i]) == octets[i])
  {
    assert octets[0] in octets && octets[1] in octets && octets[2] in octets && octets[3] in octets;
    [octets[0].value, octets[1].value, octets[2].value, octets[3].value]
  }

  function AddressOf(octets: Draft): Address
    requires AllChosen(octets)
  {
    OctetsRoundTrip(0, Values(octets));
    FromOctets(Values(octets))
  }

  function ValidityOf(octets: Draft, p: Option<PrefixLength>): Validity {
    if p.None? || !AllChosen(octets) then Incomplete
    else if NetworkAddress(AddressOf(octets), p.value) != AddressOf(octets) then HostBitsSet
    else IsCanonical
  }

  function TextOf(octets: Draft, p: Option<PrefixLength>): Option<string> {
    if ValidityOf(octets, p) != IsCanonical then None
    else Some(FormatIpv4(AddressOf(octets)) + "/" + Decimal(p.value))
  }

  /** `deriveCidrSelection`, for a prefix length that the purpose allows. */
  function Derive(purpose: Purpose, octets: Draft, p: Option<PrefixLength>): Selection {
    Selection(purpose, TextOf(octets, p), octets, p,
              [OptionsAt(octets, p, 0), OptionsAt(octets, p, 1), OptionsAt(octets, p, 2), OptionsAt(octets, p, 3)],
              ValidityOf(octets, p))
  }

  // ---------- Operations ----------

  const NO_OCTETS: Draft := [None, None, None, None]

  /** `createEmptyCidrSelection` without an explicit initial prefix length. */
  function EmptySelection(purpose: Purpose): Selection {
    Derive(purpose, NO_OCTETS, if purpose.ForVnr? then Some(24) else None)
  }

  function Chosen(octets: Octets): (draft: Draft)
    requires |octets| == 4
    ensures AllChosen(draft) && Values(draft) == octets
  {
    assert octets[0] in octets && octets[1] in octets && octets[2] in octets && octets[3] in octets;
    [Some(octets[0]), Some(octets[1]), Some(octets[2]), Some(octets[3])]
  }

  /** `createCidrSelection`. */
  function ParsedSelection(text: string, purpose: Purpose): Result<Selection, Thrown> {
    match ParseIpv4Cidr(text)
    case Err(e) => Err(e)
    case Ok(cidr) =>
      if !PrefixAllowed(purpose, cidr.prefixLength) then Err(RangeError)
      else Ok(Derive(purpose, Chosen(ToOctets(cidr.address)), Some(cidr.prefixLength)))
  }

  /** The octets after one of them is chosen: those behind it start again from zero. */
  function WithOctet(octets: Draft, index: nat, value: int): (next: Draft)
    requires index < 4 && IsOctet(value)
    ensures forall i :: 0 <= i < 4 ==>
            next[i] == if i < index then octets[i] else if i == index then Some(value) else Some(0)
  {
    var next := seq(4, i requires 0 <= i < 4 =>
      if i < index then octets[i] else if i == index then Some(value) else Some(0));
    assert forall i :: 0 <= i < 4 ==> octets[i] in octets;
    next
  }

  function SelectOctet(selection: Selection, index: int, value: int): Result<Selection, Thrown> {
    if !(0 <= index <= 3) || !IsOctet(value) then Err(RangeError)
    else if value !in ValidOctetValues(selection.prefixLength, index) then Err(RangeError)
    else if !AllChosen(selection.octets[..index]) then Err(RangeError)
    else Ok(Derive(selection.purpose, WithOctet(selection.octets, index, value), selection.prefixLength))
  }

  function SelectPrefix(selection: Selection, p: int): Result<Selection, Thrown> {
    if !PrefixAllowed(selection.purpose, p) then Err(RangeError)
    else Ok(Derive(selection.purpose, selection.octets, Some(p)))
  }

  /** `selectCidrOctet`, which writes into a copy of the octets. */
  method SelectCidrOctet(selection: Selection, index: int, value: int) returns (r: Result<Selection, Thrown>)
    ensures r == SelectOctet(selection, index, value)
  {
    if !(0 <= index <= 3) || !IsOctet(value) {
      return Err(RangeError);
    }
    var validValues := ValidOctetValues(selection.prefixLength, index);
    if value !in validValues || !AllChosen(selection.octets[..index]) {
      return Err(RangeError);
    }
    var next := new Option<int>[4](i requires 0 <= i < 4 => selection.octets[i]);
    next[index] := Some(value);
    for downstream := index + 1 to 4
      invariant forall i :: 0 <= i < 4 ==>
        next[i] == if i < index then selection.octets[i] else if i == index then Some(value)
                   else if i < downstream then Some(0) else selection.octets[i]
    {
      next[downstream] := Some(0);
    }
    assert next[..] == WithOctet(selection.octets, index, value);
    return Ok(Derive(selection.purpose, next[..], selection.prefixLength));
  }
}
