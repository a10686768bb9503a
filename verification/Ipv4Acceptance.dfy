/** Which texts the IPv4 parsers accept, which errors they give otherwise, and how the text reads. */
module Ipv4Acceptance {
  import opened Wrappers
  import opened Ipv4
  import opened Ipv4Text

  // ---------- Accepted texts ----------

  /** Accepted are exactly the texts of addresses. */
  lemma AcceptsExactlyAddresses(text: string)
    ensures ParseIpv4(text).Ok? <==> exists a: Address :: FormatIpv4(a) == text
  {
    hide ParseIpv4, FormatIpv4;
    if ParseIpv4(text).Ok? { FormatOfParse(text); }
    if a: Address :| FormatIpv4(a) == text { ParseOfFormat(a); }
  }

  /** Accepted are exactly the texts of canonical blocks. */
  lemma AcceptsExactlyBlocks(text: string)
    ensures ParseIpv4Cidr(text).Ok? <==> exists a: Address, p: PrefixLength :: FormatIpv4Cidr(a, p) == Ok(text)
  {
    hide ParseIpv4Cidr, FormatIpv4, NetworkAddress, Decimal;
    if ParseIpv4Cidr(text).Ok? { FormatOfParseCidr(text); }
    if a: Address, p: PrefixLength :| FormatIpv4Cidr(a, p) == Ok(text) { ParseOfFormatCidr(a, p); }
  }

  // ---------- Reading ----------

  /** The text of an address reads from the octet that counts most to the one that counts least. */
  lemma ReadsFromTheLeft(o: Octets)
    requires |o| == 4
    ensures 0 <= FromOctets(o) <= IPV4_MAX
    ensures FromOctets(o) == ((o[0] * 256 + o[1]) * 256 + o[2]) * 256 + o[3]
    ensures (forall i :: 0 <= i < 4 ==> o[i] in o)
    ensures FormatIpv4(FromOctets(o))
            == Decimal(o[0]) + "." + Decimal(o[1]) + "." + Decimal(o[2]) + "." + Decimal(o[3])
  {
    hide Decimal, ToOctets, FromOctets, Decimals, Join;
    assert o[0] in o && o[1] in o && o[2] in o && o[3] in o;
    assert o == [o[0], o[1], o[2], o[3]];
    ValueOfFour(o[0], o[1], o[2], o[3]);
    OctetsRoundTrip(0, o);
    JoinOfFour(Decimal(o[0]), Decimal(o[1]), Decimal(o[2]), Decimal(o[3]));
    DecimalsOfFour(o[0], o[1], o[2], o[3]);
  }

  lemma ValueOfFour(a: int, b: int, c: int, d: int)
    requires IsOctet(a) && IsOctet(b) && IsOctet(c) && IsOctet(d)
    ensures FromOctets([a, b, c, d]) == ((a * 256 + b) * 256 + c) * 256 + d
  {
    hide FromOctets;
    FromOctetsSnoc([a, b, c, d]);
    assert [a, b, c, d][..3] == [a, b, c];
    FromOctetsSnoc([a, b, c]);
    assert [a, b, c][..2] == [a, b];
    FromOctetsSnoc([a, b]);
    assert [a, b][..1] == [a];
    FromOctetsSnoc([a]);
    assert [a][..0] == [];
    EmptyOctets();
  }

  lemma JoinOfFour(a: string, b: string, c: string, d: string)
    ensures Join([a, b, c, d], '.') == a + "." + b + "." + c + "." + d
  {
    assert [a, b, c, d][1..] == [b, c, d];
    assert [b, c, d][1..] == [c, d];
    assert [c, d][1..] == [d];
    assert Join([d], '.') == d;
    assert Join([c, d], '.') == c + "." + d;
    assert Join([b, c, d], '.') == b + "." + (c + "." + d);
    assert Join([a, b, c, d], '.') == a + "." + (b + "." + (c + "." + d));
  }

  lemma DecimalsOfFour(a: int, b: int, c: int, d: int)
    requires IsOctet(a) && IsOctet(b) && IsOctet(c) && IsOctet(d)
    ensures Decimals([a, b, c, d]) == [Decimal(a), Decimal(b), Decimal(c), Decimal(d)]
  {
    hide Decimal;
    assert [a, b, c, d][..3] == [a, b, c];
    assert [a, b, c][..2] == [a, b];
    assert [a, b][..1] == [a];
    assert [a][..0] == [];
    assert Decimals([a]) == [Decimal(a)];
    assert Decimals([a, b]) == [Decimal(a), Decimal(b)];
    assert Decimals([a, b, c]) == [Decimal(a), Decimal(b), Decimal(c)];
  }

  // ---------- Errors ----------

  /** The part is the decimal notation of a number from 0 to 255. */
  predicate IsOctetText(part: string) {
    Canonical(part) && NumberOf(part) <= 255
  }

  /** Part `i` is the first that is no octet. */
  ghost predicate IsFirstBad(parts: seq<string>, i: nat) {
    i < |parts| && !IsOctetText(parts[i]) && forall j :: 0 <= j < i ==> IsOctetText(parts[j])
  }

  /** Too large a number is a range error, anything else a type error. */
  ghost predicate IsErrorOf(part: string, e: Thrown) {
    e == if Canonical(part) then RangeError else TypeError
  }

  lemma ParseOctetIs(part: string)
    ensures ParseOctet(part).Ok? <==> IsOctetText(part)
    ensures ParseOctet(part).Err? ==> IsErrorOf(part, ParseOctet(part).error)
  {
  }

  /** The first part that is no octet decides. */
  lemma {:induction false} FirstBadPart(parts: seq<string>)
    ensures var r := ParseOctets(parts);
            && (r.Ok? <==> forall i :: 0 <= i < |parts| ==> IsOctetText(parts[i]))
            && (r.Err? ==> exists i: nat :: IsFirstBad(parts, i) && IsErrorOf(parts[i], r.error))
    decreases |parts|
  {
    hide IsOctetText, IsErrorOf, ParseOctet;
    if parts != [] {
      var last := |parts| - 1;
      FirstBadPart(parts[..last]);
      ParseOctetIs(parts[last]);
      assert forall j :: 0 <= j < last ==> parts[..last][j] == parts[j];
      if ParseOctets(parts[..last]).Err? {
        var i: nat :| IsFirstBad(parts[..last], i) && IsErrorOf(parts[..last][i], ParseOctets(parts).error);
        assert IsFirstBad(parts, i);
      } else if ParseOctet(parts[last]).Err? {
        assert IsFirstBad(parts, last);
      }
    }
  }

  /** A text without exactly three dots is a type error; otherwise the first bad part decides. */
  lemma ParseErrors(text: string)
    ensures var r, parts := ParseIpv4(text), Split(text, '.');
            && (|parts| != 4 ==> r == Err(TypeError))
            && (r.Ok? <==> |parts| == 4 && forall i :: 0 <= i < |parts| ==> IsOctetText(parts[i]))
            && (r.Err? && |parts| == 4 ==> exists i: nat :: IsFirstBad(parts, i) && IsErrorOf(parts[i], r.error))
  {
    hide ParseOctets, FromOctets, Split, IsOctetText, IsErrorOf;
    FirstBadPart(Split(text, '.'));
  }

  /** The text is an address text and a length text around its only slash. */
  ghost predicate IsCut(text: string, before: string, after: string) {
    text == before + "/" + after && before != "" && after != "" && '/' !in before && '/' !in after
  }

  /** What the two texts around the slash say of the block. */
  ghost predicate IsBlockError(before: string, after: string, e: Thrown) {
    var address := ParseIpv4(before);
    if address.Err? then e == address.error
    else if !Canonical(after) then e == TypeError
    else if NumberOf(after) > 32 then e == RangeError
    else NetworkAddress(address.value, NumberOf(after)) != address.value && e == TypeError
  }

  lemma CutIsOne(text: string, before: string, after: string)
    requires IsCut(text, before, after)
    ensures var slash := FirstIndex(text, '/');
            && slash == |before| && 0 < slash < |text| - 1 && text[..slash] == before && text[slash + 1..] == after
  {
    SlashIsAt(before, after);
  }

  lemma CutIfOneSlash(text: string)
    requires var slash := FirstIndex(text, '/'); 0 < slash < |text| - 1 && '/' !in text[slash + 1..]
    ensures var slash := FirstIndex(text, '/'); IsCut(text, text[..slash], text[slash + 1..])
  {
    hide FirstIndex;
    var slash := FirstIndex(text, '/');
    var before, after := text[..slash], text[slash + 1..];
    assert |before| == slash && |after| == |text| - slash - 1;
    assert "/" == [text[slash]];
    assert text == before + [text[slash]] + after;
  }

  /**
   A text without exactly one slash inside is a type error. Otherwise the error is that of the address text; then a
   length text that is no number is a type error, a length above 32 a range error, and host bits a type error.
   */
  lemma BlockErrors(text: string)
    ensures (forall before, after :: !IsCut(text, before, after)) ==> ParseIpv4Cidr(text) == Err(TypeError)
    ensures forall before, after :: IsCut(text, before, after) && ParseIpv4Cidr(text).Err? ==>
              IsBlockError(before, after, ParseIpv4Cidr(text).error)
  {
    hide ParseIpv4, NetworkAddress, BroadcastAddress, Canonical, NumberOf, IsCut;
    var slash := FirstIndex(text, '/');
    if 0 < slash < |text| - 1 && '/' !in text[slash + 1..] { CutIfOneSlash(text); }
    forall before, after | IsCut(text, before, after) && ParseIpv4Cidr(text).Err?
      ensures IsBlockError(before, after, ParseIpv4Cidr(text).error)
    {
      CutIsOne(text, before, after);
      assert '/' !in after by { CutHasOneSlash(text, before, after); }
    }
  }

  lemma CutHasOneSlash(text: string, before: string, after: string)
    requires IsCut(text, before, after)
    ensures '/' !in after
  {
  }
}
