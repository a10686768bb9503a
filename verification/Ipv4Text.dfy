/** The canonical text of IPv4 addresses and CIDR blocks, and its parsers: `ipv4.ts`. */
module Ipv4Text {
  import opened Wrappers
  import opened Ipv4

  // ---------- Decimal numbers ----------

  predicate IsDigit(c: char) {
    '0' <= c <= '9'
  }

  function Digit(d: nat): (c: char)
    requires d < 10
    ensures IsDigit(c) && DigitValue(c) == d
  {
    ('0' as int + d) as char
  }

  function DigitValue(c: char): (d: int)
    ensures IsDigit(c) ==> 0 <= d <= 9
  {
    c as int - '0' as int
  }

  /** `String(n)` for a natural number. */
  function Decimal(n: nat): (s: string)
    ensures s != [] && (forall c :: c in s ==> IsDigit(c))
  {
    if n < 10 then [Digit(n)] else Decimal(n / 10) + [Digit(n % 10)]
  }

  /** The patterns of octets and prefix lengths: zero, or up to three digits without a leading zero. */
  predicate Canonical(s: string) {
    && 1 <= |s| <= 3
    && (forall c :: c in s ==> IsDigit(c))
    && (|s| == 1 || s[0] != '0')
  }

  /** `Number(s)` on a string of digits. */
  function NumberOf(s: string): nat
    requires forall c :: c in s ==> IsDigit(c)
  {
    if s == [] then 0
    else
      assert s[|s| - 1] in s;
      NumberOf(s[..|s| - 1]) * 10 + DigitValue(s[|s| - 1])
  }

  lemma DecimalSnoc(n: nat)
    requires 10 <= n
    ensures Decimal(n)[..|Decimal(n)| - 1] == Decimal(n / 10)
    ensures Decimal(n)[|Decimal(n)| - 1] == Digit(n % 10)
  {
  }

  lemma {:induction false} NumberOfDecimal(n: nat)
    ensures NumberOf(Decimal(n)) == n
  {
    if n < 10 {
      assert Decimal(n)[..0] == [];
    } else {
      DecimalSnoc(n);
      NumberOfDecimal(n / 10);
    }
  }

  lemma DecimalIsCanonical(n: nat)
    requires n < 1000
    ensures Canonical(Decimal(n))
  {
    if n >= 10 {
      DecimalSnoc(n);
      if n >= 100 { DecimalSnoc(n / 10); }
    }
  }

  lemma LastDigit(s: string)
    requires s != [] && (forall c :: c in s ==> IsDigit(c))
    ensures var d := DigitValue(s[|s| - 1]);
            0 <= d <= 9 && Digit(d) == s[|s| - 1] && NumberOf(s) == NumberOf(s[..|s| - 1]) * 10 + d
  {
    assert s[|s| - 1] in s;
  }

  lemma {:induction false} NumberBelow(s: string)
    requires |s| <= 3 && (forall c :: c in s ==> IsDigit(c))
    ensures NumberOf(s) < [1, 10, 100, 1000][|s|]
    decreases |s|
  {
    if s != [] {
      LastDigit(s);
      NumberBelow(s[..|s| - 1]);
    }
  }

  lemma {:induction false} DecimalWithoutLeadingZero(s: string)
    requires s != [] && s[0] != '0' && (forall c :: c in s ==> IsDigit(c))
    ensures 1 <= NumberOf(s) && Decimal(NumberOf(s)) == s
    decreases |s|
  {
    hide Decimal;
    var last := |s| - 1;
    LastDigit(s);
    assert s == s[..last] + [s[last]];
    if last == 0 {
      assert s[..0] == [];
      DecimalOfDigit(NumberOf(s));
    } else {
      DecimalWithoutLeadingZero(s[..last]);
      DecimalAppends(NumberOf(s[..last]), DigitValue(s[last]));
    }
  }

  lemma DecimalOfDigit(d: nat)
    requires d < 10
    ensures Decimal(d) == [Digit(d)]
  {
  }

  lemma DecimalAppends(n: nat, d: nat)
    requires 1 <= n && d < 10
    ensures Decimal(n * 10 + d) == Decimal(n) + [Digit(d)]
  {
  }

  /** A canonical string is the decimal notation of its number, which has at most three digits. */
  lemma DecimalOfNumber(s: string)
    requires Canonical(s)
    ensures 0 <= NumberOf(s) < 1000 && Decimal(NumberOf(s)) == s
  {
    NumberBelow(s);
    if s[0] == '0' {
      LastDigit(s);
      assert s == [s[0]];
      DecimalOfDigit(NumberOf(s));
    } else {
      DecimalWithoutLeadingZero(s);
    }
  }

  // ---------- Splitting and joining ----------

  /** `text.split(c)` for a single character. */
  function Split(text: string, c: char): (parts: seq<string>)
    ensures parts != []
  {
    if text == [] then [[]]
    else
      var rest := Split(text[1..], c);
      if text[0] == c then [[]] + rest else [[text[0]] + rest[0]] + rest[1..]
  }

  /** `parts.join(c)`. */
  function Join(parts: seq<string>, c: char): string {
    if parts == [] then [] else if |parts| == 1 then parts[0] else parts[0] + [c] + Join(parts[1..], c)
  }

  lemma {:induction false} JoinOfSplit(text: string, c: char)
    ensures Join(Split(text, c), c) == text
  {
    if text != [] {
      JoinOfSplit(text[1..], c);
      var rest := Split(text[1..], c);
      if text[0] == c {
        assert Split(text, c)[1..] == rest;
        assert text == [c] + text[1..];
      } else {
        var parts := Split(text, c);
        assert parts[1..] == rest[1..];
        assert text == [text[0]] + text[1..];
        if |rest| > 1 {
          assert Join(parts, c) == [text[0]] + rest[0] + [c] + Join(rest[1..], c);
        }
      }
    }
  }

  lemma {:induction false} SplitFirst(part: string, rest: string, c: char)
    requires c !in part
    ensures Split(part + [c] + rest, c) == [part] + Split(rest, c)
  {
    var text := part + [c] + rest;
    if part == [] {
      assert text[0] == c && text[1..] == rest;
    } else {
      assert part[0] in part && text[0] == part[0];
      assert text[1..] == part[1..] + [c] + rest;
      SplitFirst(part[1..], rest, c);
      assert part == [part[0]] + part[1..];
    }
  }

  lemma {:induction false} SplitOne(part: string, c: char)
    requires c !in part
    ensures Split(part, c) == [part]
  {
    if part != [] {
      assert part[0] in part;
      SplitOne(part[1..], c);
      assert part == [part[0]] + part[1..];
    }
  }

  lemma {:induction false} SplitOfJoin(parts: seq<string>, c: char)
    requires parts != [] && (forall p :: p in parts ==> c !in p)
    ensures Split(Join(parts, c), c) == parts
    decreases |parts|
  {
    assert parts[0] in parts;
    if |parts| == 1 {
      SplitOne(parts[0], c);
    } else {
      SplitOfJoin(parts[1..], c);
      SplitFirst(parts[0], Join(parts[1..], c), c);
      assert parts == [parts[0]] + parts[1..];
    }
  }

  // ---------- Addresses ----------

  function ParseOctet(part: string): Result<int, Thrown> {
    if !Canonical(part) then Err(TypeError)
    else if NumberOf(part) > 255 then Err(RangeError)
    else Ok(NumberOf(part))
  }

  /** The octets of the parts in order, or the exception for the first part that is not an octet. */
  function ParseOctets(parts: seq<string>): (r: Result<Octets, Thrown>)
    ensures r.Ok? ==> |r.value| == |parts|
    decreases |parts|
  {
    if parts == [] then Ok([])
    else
      var last := |parts| - 1;
      match ParseOctets(parts[..last])
      case Err(e) => Err(e)
      case Ok(octets) =>
        match ParseOctet(parts[last])
        case Err(e) => Err(e)
        case Ok(octet) => Ok(octets + [octet])
  }

  function ParseIpv4(text: string): (r: Result<Address, Thrown>) {
    var parts := Split(text, '.');
    if |parts| != 4 then Err(TypeError)
    else match ParseOctets(parts)
      case Err(e) => Err(e)
      case Ok(octets) =>
        OctetsRoundTrip(0, octets);
        Ok(FromOctets(octets))
  }

  /** `parseIpv4`, whose loop stops at the first part that is not an octet. */
  method ParseIpv4Text(text: string) returns (r: Result<Address, Thrown>)
    ensures r == ParseIpv4(text)
  {
    var parts := Split(text, '.');
    if |parts| != 4 {
      return Err(TypeError);
    }
    var octets: Octets := [];
    for i := 0 to 4
      invariant ParseOctets(parts[..i]) == Ok(octets)
    {
      assert parts[..i + 1][..i] == parts[..i];
      if !Canonical(parts[i]) {
        FirstErrorWins(parts, i + 1);
        return Err(TypeError);
      }
      var octet := NumberOf(parts[i]);
      if octet > 255 {
        FirstErrorWins(parts, i + 1);
        return Err(RangeError);
      }
      octets := octets + [octet];
    }
    assert parts[..4] == parts;
    OctetsRoundTrip(0, octets);
    return Ok(FromOctets(octets));
  }

  lemma {:induction false} FirstErrorWins(parts: seq<string>, n: nat)
    requires n <= |parts| && ParseOctets(parts[..n]).Err?
    ensures ParseOctets(parts) == ParseOctets(parts[..n])
    decreases |parts|
  {
    if n == |parts| {
      assert parts[..n] == parts;
    } else {
      var before := parts[..|parts| - 1];
      assert before[..n] == parts[..n];
      FirstErrorWins(before, n);
    }
  }

  function Decimals(octets: Octets): (parts: seq<string>)
    ensures |parts| == |octets|
    decreases |octets|
  {
    if octets == [] then []
    else
      var last := |octets| - 1;
      assert octets[last] in octets;
      Decimals(octets[..last]) + [Decimal(octets[last])]
  }

  function FormatIpv4(a: Address): string {
    Join(Decimals(ToOctets(a)), '.')
  }

  lemma {:induction false} ParseOfDecimals(octets: Octets)
    ensures ParseOctets(Decimals(octets)) == Ok(octets)
    ensures forall p :: p in Decimals(octets) ==> '.' !in p && '/' !in p
    decreases |octets|
  {
    if octets != [] {
      var last := |octets| - 1;
      assert octets[last] in octets && IsOctet(octets[last]);
      ParseOfDecimals(octets[..last]);
      DecimalIsCanonical(octets[last]);
      NumberOfDecimal(octets[last]);
      assert Decimals(octets)[..last] == Decimals(octets[..last]);
      assert octets == octets[..last] + [octets[last]];
    }
  }

  lemma {:induction false} DecimalsOfParse(parts: seq<string>)
    requires ParseOctets(parts).Ok?
    ensures Decimals(ParseOctets(parts).value) == parts
    decreases |parts|
  {
    if parts != [] {
      var last := |parts| - 1;
      DecimalsOfParse(parts[..last]);
      DecimalOfNumber(parts[last]);
      var octets := ParseOctets(parts).value;
      assert octets[..last] == ParseOctets(parts[..last]).value;
      assert parts == parts[..last] + [parts[last]];
    }
  }

  /** Every 32-bit value is read back from its text. */
  lemma ParseOfFormat(a: Address)
    ensures ParseIpv4(FormatIpv4(a)) == Ok(a)
  {
    var octets := ToOctets(a);
    ParseOfDecimals(octets);
    SplitOfJoin(Decimals(octets), '.');
    OctetsRoundTrip(a, octets);
  }

  /** Every accepted text is the one that formatting its value gives: the notation is unique. */
  lemma FormatOfParse(text: string)
    requires ParseIpv4(text).Ok?
    ensures FormatIpv4(ParseIpv4(text).value) == text
  {
    var parts := Split(text, '.');
    var octets := ParseOctets(parts).value;
    OctetsRoundTrip(0, octets);
    DecimalsOfParse(parts);
    JoinOfSplit(text, '.');
  }

  // ---------- CIDR blocks ----------

  datatype Cidr = Cidr(address: Address, network: nat, broadcast: nat, prefixLength: PrefixLength)

  /** `text.indexOf(c)`, with the length standing for "not found". */
  function FirstIndex(text: string, c: char): (i: nat)
    ensures i <= |text| && c !in text[..i] && (i < |text| ==> text[i] == c)
  {
    if text == [] || text[0] == c then 0
    else
      var i := 1 + FirstIndex(text[1..], c);
      assert text[..i] == [text[0]] + text[1..][..i - 1];
      i
  }

  function ParseIpv4Cidr(text: string): (r: Result<Cidr, Thrown>) {
    var slash := FirstIndex(text, '/');
    if slash == 0 || slash == |text| || '/' in text[slash + 1..] || slash == |text| - 1 then Err(TypeError)
    else match ParseIpv4(text[..slash])
      case Err(e) => Err(e)
      case Ok(address) =>
        var prefixText := text[slash + 1..];
        if !Canonical(prefixText) then Err(TypeError)
        else if NumberOf(prefixText) > 32 then Err(RangeError)
        else
          var p: PrefixLength := NumberOf(prefixText);
          if NetworkAddress(address, p) != address then Err(TypeError)
          else Ok(Cidr(address, NetworkAddress(address, p), BroadcastAddress(address, p), p))
  }

  function FormatIpv4Cidr(a: Address, p: PrefixLength): Result<string, Thrown> {
    if NetworkAddress(a, p) != a then Err(TypeError) else Ok(FormatIpv4(a) + "/" + Decimal(p))
  }

  lemma FormatHasNoSlash(a: Address)
    ensures FormatIpv4(a) != [] && '/' !in FormatIpv4(a)
  {
    var parts := Decimals(ToOctets(a));
    ParseOfDecimals(ToOctets(a));
    JoinHasNoSlash(parts);
    assert parts[0] in parts;
  }

  lemma {:induction false} JoinHasNoSlash(parts: seq<string>)
    requires forall p :: p in parts ==> '/' !in p
    ensures '/' !in Join(parts, '.')
    ensures parts != [] ==> |parts[0]| <= |Join(parts, '.')|
    ensures |parts| > 1 ==> Join(parts, '.') != []
    decreases |parts|
  {
    if parts != [] {
      assert parts[0] in parts;
      JoinHasNoSlash(parts[1..]);
    }
  }

  lemma {:induction false} SlashIsAt(before: string, after: string)
    requires '/' !in before
    ensures FirstIndex(before + "/" + after, '/') == |before|
    ensures (before + "/" + after)[..|before|] == before && (before + "/" + after)[|before| + 1..] == after
  {
    var text := before + "/" + after;
    if before != [] {
      assert before[0] in before && text[0] == before[0];
      assert text[1..] == before[1..] + "/" + after;
      SlashIsAt(before[1..], after);
    }
  }

  /** A canonical pair of address and prefix length is read back from its text. */
  lemma ParseOfFormatCidr(a: Address, p: PrefixLength)
    requires NetworkAddress(a, p) == a
    ensures FormatIpv4Cidr(a, p).Ok?
    ensures ParseIpv4Cidr(FormatIpv4Cidr(a, p).value) == Ok(Cidr(a, a, BroadcastAddress(a, p), p))
  {
    FormatHasNoSlash(a);
    SlashIsAt(FormatIpv4(a), Decimal(p));
    ParseOfFormat(a);
    DecimalIsCanonical(p);
    NumberOfDecimal(p);
  }

  /** Every accepted CIDR text is canonical, and is the text that formatting gives. */
  lemma FormatOfParseCidr(text: string)
    requires ParseIpv4Cidr(text).Ok?
    ensures var cidr := ParseIpv4Cidr(text).value;
            && NetworkAddress(cidr.address, cidr.prefixLength) == cidr.address == cidr.network
            && FormatIpv4Cidr(cidr.address, cidr.prefixLength) == Ok(text)
  {
    hide NetworkAddress, BroadcastAddress, ParseIpv4, FormatIpv4, Decimal, NumberOf;
    var slash := FirstIndex(text, '/');
    FormatOfParse(text[..slash]);
    DecimalOfNumber(text[slash + 1..]);
    assert text == text[..slash] + "/" + text[slash + 1..];
  }
}
