/** Which choices of an octet or a prefix length are offered and accepted, and what they lead to. */
module CidrChoices {
  import opened Wrappers
  import opened Bits
  import opened Ipv4
  import opened Ipv4Text
  import opened CidrSelections
  import opened CidrProofs

  // ---------- What is offered ----------

  /** The host bits that the prefix leaves in octet `i` are zero. */
  ghost predicate FitsPrefix(value: int, p: Option<PrefixLength>, i: nat)
    requires i < 4
  {
    match p
    case None => true
    case Some(prefix) =>
      if prefix <= 8 * i then value == 0
      else if prefix >= 8 * i + 8 then true
      else value % Pow2(8 * i + 8 - prefix) == 0
  }

  lemma ByteInMultiples(step: nat, count: nat, value: int)
    requires 0 < step && step * count == 256 && value in Multiples(step, count)
    ensures IsOctet(value)
  {
    var values := Multiples(step, count);
    var k :| 0 <= k < count && values[k] == value;
    MultipleBelowTop(step, k, count);
  }

  lemma MultipleBelowTop(step: nat, k: nat, count: nat)
    requires 0 < step && k < count
    ensures 0 <= k * step && k * step + step <= step * count
  {
    AtLeastOnce(step, count - k);
    assert step * (count - k) == step * count - step * k;
  }

  lemma ValidValuesFit(p: Option<PrefixLength>, i: nat, value: int)
    requires i < 4
    ensures value in ValidOctetValues(p, i) <==> IsOctet(value) && FitsPrefix(value, p, i)
  {
    hide Pow2, Multiples;
    Pow2Values();
    if IsOctet(value) { MemberOfMultiples(1, 256, value); }
    if value in Multiples(1, 256) { ByteInMultiples(1, 256, value); }
    if p.Some? {
      var bits := SignificantBits(p.value, i);
      Pow2Adds(8 - bits, bits);
      if IsOctet(value) { MemberOfMultiples(Pow2(8 - bits), Pow2(bits), value); }
      if value in Multiples(Pow2(8 - bits), Pow2(bits)) { ByteInMultiples(Pow2(8 - bits), Pow2(bits), value); }
    }
  }

  lemma AvailableAre(values: seq<int>, value: int)
    ensures SegmentOption(value, Available) in AvailableOptions(values) <==> value in values
    ensures SegmentOption(value, RetainedInvalid) !in AvailableOptions(values)
  {
    var options := AvailableOptions(values);
    if value in values {
      var i :| 0 <= i < |values| && values[i] == value;
      assert options[i] == SegmentOption(value, Available);
    }
    forall o | o in options
      ensures o.status == Available && o.value in values
    {
      var i :| 0 <= i < |options| && options[i] == o;
    }
  }

  /** The values up to octet `i` are chosen, so that octet `i` can be. */
  ghost predicate Upstream(octets: Draft, i: nat)
    requires i < 4
  {
    forall j :: 0 <= j < i ==> octets[j].Some?
  }

  lemma UpstreamIsChosen(octets: Draft, i: nat)
    requires i < 4
    ensures AllChosen(octets[..i]) <==> Upstream(octets, i)
  {
    if AllChosen(octets[..i]) {
      forall j | 0 <= j < i
        ensures octets[j].Some?
      {
        assert octets[..i][j] in octets[..i];
      }
    }
  }

  /**
   Offered for an octet are the values that fit the prefix, once the octets before it are chosen; and retained is the
   value it has, when that is not among them.
   */
  lemma OptionsAreExact(purpose: Purpose, octets: Draft, p: Option<PrefixLength>, i: nat, value: int)
    requires i < 4
    ensures var options := Derive(purpose, octets, p).octetOptions[i];
            var offered := Upstream(octets, i) && IsOctet(value) && FitsPrefix(value, p, i);
            && (SegmentOption(value, Available) in options <==> offered)
            && (SegmentOption(value, RetainedInvalid) in options <==> octets[i] == Some(value) && !offered)
  {
    hide ValidOctetValues, AvailableOptions, FitsPrefix;
    UpstreamIsChosen(octets, i);
    ValidValuesFit(p, i, value);
    AvailableAre(ValidOctetValues(p, i), value);
  }

  // ---------- What is accepted ----------

  /** Exactly the values on offer can be chosen; anything else is a range error. */
  lemma OfferedCanBeChosen(selection: Selection, index: int, value: int)
    requires Whole(selection)
    ensures var r := SelectOctet(selection, index, value);
            && (r.Ok? <==> 0 <= index <= 3 && SegmentOption(value, Available) in selection.octetOptions[index])
            && (r.Err? ==> r.error == RangeError)
  {
    hide ValidOctetValues, AvailableOptions, FitsPrefix, OptionsAt;
    if 0 <= index <= 3 {
      OptionsAreExact(selection.purpose, selection.octets, selection.prefixLength, index, value);
      ValidValuesFit(selection.prefixLength, index, value);
      UpstreamIsChosen(selection.octets, index);
    }
  }

  /** A choice keeps the octets before it and the prefix length, and starts those behind it from zero. */
  lemma ChoiceSetsOctets(selection: Selection, index: int, value: int)
    requires SelectOctet(selection, index, value).Ok?
    ensures var next := SelectOctet(selection, index, value).value;
            && next == Derive(selection.purpose, next.octets, selection.prefixLength)
            && next.octets[..index] == selection.octets[..index] && next.octets[index] == Some(value)
            && (forall i :: index < i < 4 ==> next.octets[i] == Some(0))
  {
    hide OptionsAt, ValidityOf, TextOf, ValidOctetValues;
  }

  /** VNRs may have prefix lengths from 1 to 30 and routes from 1 to 32; the octets stay as they are. */
  lemma PrefixCanBeChosen(selection: Selection, p: int)
    ensures var r := SelectPrefix(selection, p);
            && (r.Ok? <==> 1 <= p <= if selection.purpose == ForVnr then 30 else 32)
            && (r.Ok? ==> r.value == Derive(selection.purpose, selection.octets, Some(p)))
            && (r.Err? ==> r.error == RangeError)
  {
  }

  /** The value of a complete draft without host bits is its text; other drafts have none. */
  lemma DerivedValue(purpose: Purpose, octets: Draft, p: Option<PrefixLength>)
    ensures var selection := Derive(purpose, octets, p);
            && selection.purpose == purpose && selection.octets == octets && selection.prefixLength == p
            && (selection.value.Some? ==>
                  && p.Some? && (forall i :: 0 <= i < 4 ==> octets[i].Some?)
                  && var o := [octets[0].value, octets[1].value, octets[2].value, octets[3].value];
                     FormatIpv4Cidr(FromOctets(o), p.value) == Ok(selection.value.value))
  {
    hide NetworkAddress, FromOctets, FormatIpv4, OptionsAt, Decimal;
  }

  // ---------- Where it starts ----------

  lemma EmptySelectionIs(purpose: Purpose)
    ensures var selection := EmptySelection(purpose);
            && selection.purpose == purpose && selection.octets == [None, None, None, None]
            && selection.prefixLength == (if purpose == ForVnr then Some(24) else None)
            && selection.validity == Incomplete && selection.value.None?
  {
    hide NetworkAddress, OptionsAt;
    assert NO_OCTETS[0] in NO_OCTETS;
  }

  /** A text is accepted iff it is that of a canonical block with an allowed length, and becomes the value. */
  lemma ParsedSelectionIs(text: string, purpose: Purpose)
    ensures var r, cidr := ParsedSelection(text, purpose), ParseIpv4Cidr(text);
            && (r.Ok? <==> cidr.Ok? && 1 <= cidr.value.prefixLength <= if purpose == ForVnr then 30 else 32)
            && (r.Err? ==> r.error == if cidr.Err? then cidr.error else RangeError)
            && (r.Ok? ==> r.value.value == Some(text) && r.value.validity == IsCanonical && r.value.purpose == purpose
                          && r.value.prefixLength == Some(cidr.value.prefixLength))
  {
    hide NetworkAddress, BroadcastAddress, FromOctets, ToOctets, FormatIpv4, OptionsAt, Decimal, ParseIpv4, NumberOf;
    var cidr := ParseIpv4Cidr(text);
    if cidr.Ok? {
      FormatOfParseCidr(text);
      var a := cidr.value.address;
      var draft := CidrSelections.Chosen(ToOctets(a));
      OctetsRoundTrip(a, ToOctets(a));
      assert AddressOf(draft) == a;
    }
  }
}
