/** The per-octet options agree with the 32-bit mask, and what every run of edits keeps. */
module CidrProofs {
  import opened Wrappers
  import opened Bits
  import opened Ipv4
  import opened Ipv4Text
  import opened CidrSelections

  // ---------- Divisibility, byte by byte ----------

  lemma ModOfSum(m: nat, q: nat, x: nat)
    requires 0 < m
    ensures (m * q + x) % m == x % m
  {
    var t, r := x / m, x % m;
    assert x == m * t + r;
    assert m * (q + t) == m * q + m * t;
    DivModIs(m * q + x, m, q + t, r);
  }

  lemma ModLowByte(high: nat, x: nat, k: nat)
    requires k <= 8
    ensures (high * 256 + x) % Pow2(k) == x % Pow2(k)
  {
    hide Pow2;
    var m, t := Pow2(k), Pow2(8 - k);
    Pow2Adds(k, 8 - k);
    Pow2Values();
    assert m * (t * high) == (m * t) * high;
    assert 0 <= t * high;
    ModOfSum(m, t * high, x);
  }

  lemma ModHighBytes(high: nat, x: nat, k: nat)
    requires 8 <= k && x < 256
    ensures (high * 256 + x) % Pow2(k) == 0 <==> high % Pow2(k - 8) == 0 && x == 0
  {
    hide Pow2;
    var m := Pow2(k - 8);
    Pow2Adds(8, k - 8);
    Pow2Values();
    var q, r := high / m, high % m;
    assert high == m * q + r;
    assert (256 * m) * q == 256 * (m * q);
    DivModIs(high * 256 + x, 256 * m, q, 256 * r + x);
  }

  /** How many of the low `k` bits of an `n`-octet number lie in octet `i`. */
  function LowBits(k: nat, n: nat, i: nat): (bits: nat)
    requires i < n
    ensures bits <= 8
  {
    var below := 8 * (n - 1 - i);
    if k <= below then 0 else if k - below >= 8 then 8 else k - below
  }

  ghost predicate LowBitsClear(octets: seq<int>, k: nat) {
    forall i :: 0 <= i < |octets| ==> octets[i] % Pow2(LowBits(k, |octets|, i)) == 0
  }

  lemma ModByOne(x: int)
    ensures x % Pow2(0) == 0
  {
  }

  lemma ByteIsZero(x: int)
    requires IsOctet(x)
    ensures x % Pow2(8) == 0 <==> x == 0
  {
    Pow2Values();
  }

  lemma LowBitsClearSnoc(octets: seq<int>, k: nat)
    requires octets != []
    ensures var last := |octets| - 1;
            LowBitsClear(octets, k) <==>
              octets[last] % Pow2(if k < 8 then k else 8) == 0
                && LowBitsClear(octets[..last], if k < 8 then 0 else k - 8)
  {
    hide Pow2;
    var last := |octets| - 1;
    var before, k1 := octets[..last], if k < 8 then 0 else k - 8;
    forall i | 0 <= i < last
      ensures LowBits(k1, last, i) == LowBits(k, |octets|, i) && before[i] == octets[i]
    {
    }
    assert LowBits(k, |octets|, last) == if k < 8 then k else 8;
  }

  lemma NoLowBits(octets: seq<int>)
    ensures LowBitsClear(octets, 0)
  {
    forall i | 0 <= i < |octets|
      ensures octets[i] % Pow2(LowBits(0, |octets|, i)) == 0
    {
      ModByOne(octets[i]);
    }
  }

  /** A number ends in `k` zero bits iff each of its octets ends in the zero bits that fall into it. */
  lemma {:induction false} DivisibleByOctets(octets: Octets, k: nat)
    requires k <= 8 * |octets|
    ensures FromOctets(octets) % Pow2(k) == 0 <==> LowBitsClear(octets, k)
    decreases |octets|
  {
    hide Pow2, FromOctets, LowBitsClear;
    if octets == [] {
      EmptyOctets();
      ModByOne(0);
      NoLowBits([]);
    } else {
      var last := |octets| - 1;
      var high, x := FromOctets(octets[..last]), octets[last];
      FromOctetsSnoc(octets);
      LowBitsClearSnoc(octets, k);
      if k < 8 {
        ModLowByte(high, x, k);
        NoLowBits(octets[..last]);
      } else {
        ModHighBytes(high, x, k);
        ByteIsZero(x);
        DivisibleByOctets(octets[..last], k - 8);
      }
    }
  }

  // ---------- Options ----------

  lemma BitsSplit(p: PrefixLength, i: nat)
    requires i < 4
    ensures SignificantBits(p, i) + LowBits(32 - p, 4, i) == 8
  {
  }

  lemma MemberOfMultiples(step: nat, count: nat, value: int)
    requires 0 < step && step * count == 256 && IsOctet(value)
    ensures value in Multiples(step, count) <==> value % step == 0
  {
    var values := Multiples(step, count);
    if value % step == 0 {
      var q := value / step;
      var e := -q;
      assert value == step * q && -value == step * e;
      if e >= 1 { AtLeastOnce(step, e); }
      if q >= count { QuotientGrows(step, count, q); }
      assert values[q] == q * step;
    }
    if k :| 0 <= k < count && values[k] == value {
      DivModIs(value, step, k, 0);
    }
  }

  lemma QuotientGrows(step: nat, count: nat, q: nat)
    requires count <= q
    ensures step * count <= step * q
  {
    var d := q - count;
    assert 0 <= step * d;
    assert step * q == step * count + step * d;
  }

  /** The values offered for an octet are those whose host bits are zero. */
  lemma ValidValuesAreMultiples(p: PrefixLength, i: nat, value: int)
    requires i < 4 && IsOctet(value)
    ensures value in ValidOctetValues(Some(p), i) <==> value % Pow2(LowBits(32 - p, 4, i)) == 0
  {
    hide Pow2, Multiples;
    BitsSplit(p, i);
    var bits := SignificantBits(p, i);
    Pow2Values();
    if bits == 0 {
      ByteIsZero(value);
    } else if bits == 8 {
      MemberOfMultiples(1, 256, value);
      ModByOne(value);
    } else {
      Pow2Adds(8 - bits, bits);
      MemberOfMultiples(Pow2(8 - bits), Pow2(bits), value);
    }
  }

  /** Every octet is one of the values offered for its position. */
  ghost predicate AllValid(octets: Draft, p: PrefixLength)
    requires AllChosen(octets)
  {
    forall i :: 0 <= i < 4 ==> Values(octets)[i] in ValidOctetValues(Some(p), i)
  }

  /** The options per octet and the 32-bit mask agree on every complete draft. */
  lemma OptionsAgreeWithMask(octets: Draft, p: PrefixLength)
    requires AllChosen(octets)
    ensures NetworkAddress(AddressOf(octets), p) == AddressOf(octets) <==> AllValid(octets, p)
  {
    hide Pow2, FromOctets, NetworkAddress, ValidOctetValues, LowBits;
    var values := Values(octets);
    var a := AddressOf(octets);
    NetworkIsMultiple(a, p);
    DivisibleByOctets(values, 32 - p);
    forall i | 0 <= i < 4
      ensures values[i] in ValidOctetValues(Some(p), i) <==> values[i] % Pow2(LowBits(32 - p, 4, i)) == 0
    {
      assert values[i] in values;
      ValidValuesAreMultiples(p, i, values[i]);
    }
  }

  // ---------- Validity ----------

  ghost predicate HasRetained(options: seq<SegmentOption>) {
    exists o :: o in options && o.status == RetainedInvalid
  }

  lemma RetainedIffInvalid(values: seq<int>, current: Option<int>)
    ensures HasRetained(WithRetainedInvalid(values, current)) <==> current.Some? && current.value !in values
  {
    var available := AvailableOptions(values);
    forall o | o in available
      ensures o.status == CidrSelections.Available
    {
      var i :| 0 <= i < |available| && available[i] == o;
    }
    if current.Some? && current.value !in values {
      assert SegmentOption(current.value, RetainedInvalid) in WithRetainedInvalid(values, current);
    }
  }

  /** What the validity of a draft says about its octets and its columns of options. */
  lemma ValidityMeaning(purpose: Purpose, octets: Draft, p: Option<PrefixLength>)
    ensures var selection := Derive(purpose, octets, p);
            && (selection.validity == Incomplete <==> p.None? || !AllChosen(octets))
            && (selection.validity == IsCanonical <==> p.Some? && AllChosen(octets) && AllValid(octets, p.value))
            && (selection.validity == HostBitsSet <==>
                  p.Some? && AllChosen(octets) && exists i :: 0 <= i < 4 && HasRetained(selection.octetOptions[i]))
            && (selection.value.Some? <==> selection.validity == IsCanonical)
  {
    hide NetworkAddress, ValidOctetValues, AddressOf, FormatIpv4, Decimal, WithRetainedInvalid, HasRetained;
    if p.Some? && AllChosen(octets) {
      OptionsAgreeWithMask(octets, p.value);
      forall i | 0 <= i < 4
        ensures HasRetained(OptionsAt(octets, p, i)) <==> Values(octets)[i] !in ValidOctetValues(p, i)
      {
        assert AllChosen(octets[..i]);
        RetainedIffInvalid(ValidOctetValues(p, i), octets[i]);
      }
      var options := Derive(purpose, octets, p).octetOptions;
      assert options[0] == OptionsAt(octets, p, 0) && options[1] == OptionsAt(octets, p, 1);
      assert options[2] == OptionsAt(octets, p, 2) && options[3] == OptionsAt(octets, p, 3);
      if !AllValid(octets, p.value) {
        var i :| 0 <= i < 4 && Values(octets)[i] !in ValidOctetValues(p, i);
        assert HasRetained(options[i]);
      }
    }
  }

  // ---------- Runs of edits ----------

  datatype Edit = ChooseOctet(index: int, value: int) | ChoosePrefix(prefixLength: int)

  function Try(selection: Selection, edit: Edit): Result<Selection, Thrown> {
    match edit
    case ChooseOctet(index, value) => SelectOctet(selection, index, value)
    case ChoosePrefix(p) => SelectPrefix(selection, p)
  }

  /** The selection after a run of edits, in which those that throw change nothing. */
  function AfterEdits(selection: Selection, edits: seq<Edit>): Selection
    decreases |edits|
  {
    if edits == [] then selection
    else
      var before := AfterEdits(selection, edits[..|edits| - 1]);
      match Try(before, edits[|edits| - 1])
      case Ok(next) => next
      case Err(_) => before
  }

  ghost predicate Whole(selection: Selection) {
    && selection == Derive(selection.purpose, selection.octets, selection.prefixLength)
    && (selection.prefixLength.Some? ==> PrefixAllowed(selection.purpose, selection.prefixLength.value))
    && (NoneChosen(selection.octets) || AllChosen(selection.octets))
  }

  lemma StartsWhole(purpose: Purpose, text: string)
    ensures Whole(EmptySelection(purpose))
    ensures ParsedSelection(text, purpose).Ok? ==> Whole(ParsedSelection(text, purpose).value)
  {
    hide FromOctets, ToOctets, FormatIpv4, NetworkAddress, ParseIpv4Cidr;
  }

  lemma WithOctetIsComplete(octets: Draft, index: nat, value: int)
    requires index < 4 && IsOctet(value) && AllChosen(octets[..index])
    ensures AllChosen(WithOctet(octets, index, value))
  {
    var next := WithOctet(octets, index, value);
    forall o | o in next
      ensures o.Some?
    {
      var i :| 0 <= i < 4 && next[i] == o;
      assert i < index ==> octets[..index][i] in octets[..index];
    }
  }

  lemma EditKeepsWhole(selection: Selection, edit: Edit)
    requires Whole(selection) && Try(selection, edit).Ok?
    ensures Whole(Try(selection, edit).value)
  {
    hide Derive, ValidOctetValues;
    if edit.ChooseOctet? {
      WithOctetIsComplete(selection.octets, edit.index, edit.value);
    }
    DeriveKeepsDraft(selection, edit);
  }

  lemma DeriveKeepsDraft(selection: Selection, edit: Edit)
    requires Try(selection, edit).Ok?
    ensures var next := Try(selection, edit).value;
            && next.purpose == selection.purpose
            && next.octets
               == (if edit.ChooseOctet? then WithOctet(selection.octets, edit.index, edit.value) else selection.octets)
            && next.prefixLength == (if edit.ChooseOctet? then selection.prefixLength else Some(edit.prefixLength))
            && next == Derive(next.purpose, next.octets, next.prefixLength)
  {
    hide ValidOctetValues, OptionsAt, TextOf, ValidityOf;
  }

  /** Whatever is chosen, in whatever order, either no octet is set or all four are. */
  lemma {:induction false} EditsKeepWhole(selection: Selection, edits: seq<Edit>)
    requires Whole(selection)
    ensures Whole(AfterEdits(selection, edits))
    decreases |edits|
  {
    hide Whole, Try;
    if edits != [] {
      var last := |edits| - 1;
      EditsKeepWhole(selection, edits[..last]);
      var before := AfterEdits(selection, edits[..last]);
      if Try(before, edits[last]).Ok? { EditKeepsWhole(before, edits[last]); }
    }
  }

  lemma ZeroIsValid(p: PrefixLength, i: nat)
    requires i < 4
    ensures 0 in ValidOctetValues(Some(p), i)
  {
    hide Pow2;
    ValidValuesAreMultiples(p, i, 0);
    DivModIs(0, Pow2(LowBits(32 - p, 4, i)), 0, 0);
  }

  /** Choosing octet `index` repairs everything behind it: the result is canonical iff the octets before it were. */
  lemma ChoosingOctetIsCanonical(selection: Selection, index: int, value: int)
    requires SelectOctet(selection, index, value).Ok?
    ensures var next := SelectOctet(selection, index, value).value;
            next.validity == IsCanonical <==>
              && selection.prefixLength.Some?
              && forall i :: 0 <= i < index ==>
                   selection.octets[i].Some? && selection.octets[i].value in ValidOctetValues(selection.prefixLength, i)
  {
    hide Derive, ValidOctetValues;
    var octets := WithOctet(selection.octets, index, value);
    WithOctetIsComplete(selection.octets, index, value);
    ValidityMeaning(selection.purpose, octets, selection.prefixLength);
    forall i | 0 <= i < index
      ensures selection.octets[i].Some?
    {
      assert selection.octets[..index][i] in selection.octets[..index];
    }
    if selection.prefixLength.Some? {
      forall i | 0 <= i < 4
        ensures 0 in ValidOctetValues(selection.prefixLength, i)
      {
        ZeroIsValid(selection.prefixLength.value, i);
      }
    }
  }

  lemma CoarserDivides(a: nat, j: nat, k: nat)
    requires j <= k && a % Pow2(k) == 0
    ensures a % Pow2(j) == 0
  {
    hide Pow2;
    Pow2Adds(j, k - j);
    var m, t, q := Pow2(j), Pow2(k - j), a / Pow2(k);
    assert a == (m * t) * q;
    assert (m * t) * q == m * (t * q);
    DivModIs(a, m, t * q, 0);
  }

  /** A canonical selection stays canonical under every longer prefix. */
  lemma LengtheningKeepsCanonical(selection: Selection, p: int)
    requires Whole(selection) && selection.validity == IsCanonical
    requires PrefixAllowed(selection.purpose, p) && selection.prefixLength.value <= p
    ensures SelectPrefix(selection, p).Ok? && SelectPrefix(selection, p).value.validity == IsCanonical
  {
    hide Pow2, NetworkAddress, AddressOf, OptionsAt, TextOf;
    var a := AddressOf(selection.octets);
    var p0 := selection.prefixLength.value;
    NetworkIsMultiple(a, p0);
    NetworkIsMultiple(a, p);
    CoarserDivides(a, 32 - p, 32 - p0);
  }

  /** The text of every canonical selection parses back to that selection. */
  lemma CanonicalReparses(selection: Selection)
    requires Whole(selection) && selection.validity == IsCanonical
    ensures selection.value.Some? && ParsedSelection(selection.value.value, selection.purpose) == Ok(selection)
  {
    hide NetworkAddress, BroadcastAddress, FormatIpv4, Decimal, OptionsAt, ParseIpv4Cidr, FromOctets, ToOctets;
    var a, p := AddressOf(selection.octets), selection.prefixLength.value;
    ParseOfFormatCidr(a, p);
    OctetsRoundTrip(a, Values(selection.octets));
    var back := CidrSelections.Chosen(ToOctets(a));
    assert back == selection.octets;
  }
}
