/** IPv4 addresses, octets, CIDR blocks and their canonical text: `ipv4.ts`. */
module Ipv4 {
  import opened Wrappers
  import opened Bits

  /** The kinds of exception that the source throws. */
  datatype Thrown = TypeError | RangeError

  predicate IsOctet(o: int) {
    0 <= o < 256
  }

  predicate AreOctets(s: seq<int>) {
    forall o :: o in s ==> IsOctet(o)
  }

  type Octets = s: seq<int> | AreOctets(s)
  type Address = a: int | 0 <= a < 0x1_0000_0000
  type PrefixLength = p: int | 0 <= p <= 32

  const IPV4_MAX: nat := 0xFFFF_FFFF

  // ---------- Octets ----------

  /** Shift the value of the octets so far by eight bits and put the next octet in. */
  function FromOctets(octets: Octets): nat
    decreases |octets|
  {
    assert octets != [] ==> octets[|octets| - 1] in octets;
    if octets == [] then 0
    else Or(ShiftLeft(FromOctets(octets[..|octets| - 1]), 8), octets[|octets| - 1])
  }

  function Byte(a: nat, shift: nat): (o: int)
    ensures o == (a / Pow2(shift)) % 256
  {
    Pow2Values();
    AndLowMask(ShiftRight(a, shift), 8);
    ShiftRightDivides(a, shift);
    And(ShiftRight(a, shift), 0xFF)
  }

  function ToOctets(a: Address): (octets: Octets)
    ensures |octets| == 4
  {
    [Byte(a, 24), Byte(a, 16), Byte(a, 8), Byte(a, 0)]
  }

  lemma Pow2Values()
    ensures Pow2(0) == 1 && Pow2(8) == 0x100 && Pow2(16) == 0x1_0000
    ensures Pow2(24) == 0x100_0000 && Pow2(32) == 0x1_0000_0000
  {
    assert Pow2(4) == 16;
    Pow2Adds(4, 4);
    Pow2Adds(8, 8);
    Pow2Adds(16, 8);
    Pow2Adds(16, 16);
  }

  /** Each octet multiplies the value by 256 and adds itself. */
  lemma FromOctetsSnoc(octets: Octets)
    requires octets != []
    ensures IsOctet(octets[|octets| - 1])
    ensures FromOctets(octets) == FromOctets(octets[..|octets| - 1]) * 256 + octets[|octets| - 1]
  {
    assert octets[|octets| - 1] in octets;
    var before := FromOctets(octets[..|octets| - 1]);
    Pow2Values();
    DivModIs(before * 256, 256, before, 0);
    OrDisjoint(before * 256, octets[|octets| - 1], 8);
  }

  lemma {:induction false} FromOctetsInRange(octets: Octets)
    ensures FromOctets(octets) < Pow2(8 * |octets|)
    decreases |octets|
  {
    hide FromOctets;
    var n := |octets|;
    if n == 0 {
      assert FromOctets([]) == 0 by { EmptyOctets(); }
    } else {
      FromOctetsSnoc(octets);
      FromOctetsInRange(octets[..n - 1]);
      Pow2Values();
      Pow2Adds(8 * (n - 1), 8);
    }
  }

  lemma EmptyOctets()
    ensures FromOctets([]) == 0
  {
  }

  /** Two octet sequences of the same length with the same value are equal. */
  lemma {:induction false} FromOctetsInjective(o: Octets, p: Octets)
    requires |o| == |p| && FromOctets(o) == FromOctets(p)
    ensures o == p
    decreases |o|
  {
    hide FromOctets;
    if o != [] {
      var last := |o| - 1;
      FromOctetsSnoc(o);
      FromOctetsSnoc(p);
      FromOctetsInjective(o[..last], p[..last]);
      assert o == o[..last] + [o[last]] && p == p[..last] + [p[last]];
    }
  }

  /** The number of addresses that start with `n` given octets. */
  function Span(n: nat): (m: nat)
    requires n <= 4
    ensures 0 < m
  {
    Pow2(32 - 8 * n)
  }

  lemma SpanOfPrefix(n: nat)
    requires 1 <= n <= 4
    ensures Span(n - 1) == 256 * Span(n)
    ensures Span(0) == 0x1_0000_0000 && Span(4) == 1
  {
    Pow2Values();
    Pow2Adds(8, 32 - 8 * n);
  }

  lemma DivideTwice(a: nat, m: nat)
    requires 0 < m
    ensures a / (256 * m) == (a / m) / 256
  {
    var q, r := a / m, a % m;
    var h, l := q / 256, q % 256;
    var p, s := m * q, m * h;
    assert a == p + r && q == 256 * h + l;
    assert p == 256 * s + m * l by { assert m * (256 * h + l) == 256 * (m * h) + m * l; }
    assert (256 * m) * h == 256 * s;
    assert m * l <= m * 255 by { Times(m, l); }
    DivModIs(a, 256 * m, h, m * l + r);
  }

  lemma Times(m: nat, l: nat)
    requires l <= 255
    ensures 0 <= m * l <= m * 255
  {
    var d := 255 - l;
    assert 0 <= m * d;
    assert m * 255 == m * l + m * d;
  }

  /** The first `n` octets of an address, read as a number, are its quotient by the span. */
  lemma {:induction false} OctetsAreQuotients(a: Address, n: nat)
    requires n <= 4
    ensures FromOctets(ToOctets(a)[..n]) == a / Span(n)
  {
    hide FromOctets, Pow2;
    if n == 0 {
      assert ToOctets(a)[..0] == [];
      EmptyOctets();
      SpanOfPrefix(1);
    } else {
      var p := ToOctets(a)[..n];
      FromOctetsSnoc(p);
      assert p[..n - 1] == ToOctets(a)[..n - 1];
      OctetsAreQuotients(a, n - 1);
      SpanOfPrefix(n);
      DivideTwice(a, Span(n));
      assert p[n - 1] == (a / Span(n)) % 256;
      QuotientAndRemainder(a / Span(n));
    }
  }

  lemma QuotientAndRemainder(q: int)
    ensures (q / 256) * 256 + q % 256 == q
  {
  }

  /** Octets and 32-bit values are two notations for the same thing. */
  lemma OctetsRoundTrip(a: Address, octets: Octets)
    requires |octets| == 4
    ensures FromOctets(ToOctets(a)) == a
    ensures 0 <= FromOctets(octets) <= IPV4_MAX && ToOctets(FromOctets(octets)) == octets
  {
    hide FromOctets, ToOctets, Pow2;
    SpanOfPrefix(4);
    OctetsAreQuotients(a, 4);
    assert ToOctets(a)[..4] == ToOctets(a);
    FromOctetsInRange(octets);
    Pow2Values();
    var back := FromOctets(octets);
    OctetsAreQuotients(back, 4);
    assert ToOctets(back)[..4] == ToOctets(back);
    FromOctetsInjective(ToOctets(back), octets);
  }

  /** The loop of `ipv4FromOctets`, which throws on the first value that is not an octet. */
  method Ipv4FromOctets(octets: seq<int>) returns (r: Result<int, Thrown>)
    ensures r.Ok? <==> AreOctets(octets)
    ensures r.Err? ==> r.error == RangeError
    ensures r.Ok? ==> r.value == FromOctets(octets)
  {
    var value := 0;
    for i := 0 to |octets|
      invariant 0 <= value && AreOctets(octets[..i]) && value == FromOctets(octets[..i])
    {
      if !IsOctet(octets[i]) {
        assert octets[i] in octets;
        return Err(RangeError);
      }
      value := Or(ShiftLeft(value, 8), octets[i]);
      assert octets[..i + 1] == octets[..i] + [octets[i]];
    }
    assert octets[..|octets|] == octets;
    return Ok(value);
  }

  // ---------- Masks ----------

  function PrefixMask(p: PrefixLength): nat {
    if p == 0 then 0 else And(ShiftLeft(IPV4_MAX, 32 - p), IPV4_MAX)
  }

  /** The number of addresses in a block. */
  function BlockSize(p: PrefixLength): nat {
    Pow2(32 - p)
  }

  lemma PrefixMaskValue(p: PrefixLength)
    ensures 1 <= BlockSize(p) <= 0x1_0000_0000
    ensures PrefixMask(p) == 0x1_0000_0000 - BlockSize(p)
  {
    Pow2Values();
    Pow2Grows(32 - p, 32);
    ShiftedOnes(32, 32 - p);
  }

  function NetworkAddress(a: Address, p: PrefixLength): nat {
    And(a, PrefixMask(p))
  }

  function BroadcastAddress(a: Address, p: PrefixLength): nat {
    Or(NetworkAddress(a, p), Xor(IPV4_MAX, PrefixMask(p)))
  }

  lemma RoundDown(a: nat, m: nat)
    requires 0 < m
    ensures 0 <= a % m <= a && (a - a % m) % m == 0
  {
    var q, r := a / m, a % m;
    var p := m * q;
    assert a == p + r;
    DivModIs(p, m, q, 0);
    var e := -q;
    assert m * e == -p;
    if e >= 1 { AtLeastOnce(m, e); }
    if q >= 1 { AtLeastOnce(m, q); }
  }

  /** Masking rounds an address down to a multiple of the block size. */
  lemma NetworkIsMultiple(a: Address, p: PrefixLength)
    ensures 0 < BlockSize(p) && NetworkAddress(a, p) == a - a % BlockSize(p)
    ensures 0 <= NetworkAddress(a, p) <= a && NetworkAddress(a, p) % BlockSize(p) == 0
  {
    hide Pow2, And, PrefixMask;
    Pow2Values();
    PrefixMaskValue(p);
    AndHighMask(a, 32, 32 - p);
    RoundDown(a, BlockSize(p));
  }

  lemma MultipleBelow(a: nat, size: nat, top: nat)
    requires 0 < size && a % size == 0 && top % size == 0 && a < top
    ensures a + size <= top
  {
    var q, t := a / size, top / size;
    var d, e := t - q, q - t;
    assert a == size * q && top == size * t;
    assert size * t == size * q + size * d && size * q == size * t + size * e;
    if d >= 1 { AtLeastOnce(size, d); }
    if e >= 1 { AtLeastOnce(size, e); }
  }

  lemma BlockSizeDivides(p: PrefixLength)
    ensures 0 < BlockSize(p) && 0x1_0000_0000 % BlockSize(p) == 0
  {
    Pow2Values();
    Pow2Adds(32 - p, p);
    DivModIs(0x1_0000_0000, BlockSize(p), Pow2(p), 0);
  }

  /** The broadcast address is the last one of the block, and fits in 32 bits. */
  lemma BroadcastIsLast(a: Address, p: PrefixLength)
    ensures BroadcastAddress(a, p) == NetworkAddress(a, p) + BlockSize(p) - 1
    ensures a <= BroadcastAddress(a, p) <= IPV4_MAX
  {
    hide Pow2, And, Or, Xor, PrefixMask, NetworkAddress;
    Pow2Values();
    NetworkIsMultiple(a, p);
    PrefixMaskValue(p);
    XorMasks(32, 32 - p);
    OrDisjoint(NetworkAddress(a, p), BlockSize(p) - 1, 32 - p);
    BlockSizeDivides(p);
    MultipleBelow(NetworkAddress(a, p), BlockSize(p), 0x1_0000_0000);
    assert a % BlockSize(p) < BlockSize(p);
  }

  /** An address lies between network and broadcast iff masking it gives the same network. */
  lemma ContainedIffSameNetwork(a: Address, p: PrefixLength, x: Address)
    ensures NetworkAddress(a, p) <= x <= BroadcastAddress(a, p) <==> NetworkAddress(x, p) == NetworkAddress(a, p)
  {
    var size, n, m := BlockSize(p), NetworkAddress(a, p), NetworkAddress(x, p);
    NetworkIsMultiple(a, p);
    NetworkIsMultiple(x, p);
    BroadcastIsLast(a, p);
    BroadcastIsLast(x, p);
    if n < m { MultipleBelow(n, size, m); }
    if m < n { MultipleBelow(m, size, n); }
  }

  // ---------- Octet prefixes ----------

  type OctetPrefix = p: Octets | |p| <= 4

  function IntervalFirst(p: OctetPrefix): nat
    decreases |p|
  {
    if p == [] then 0
    else
      var last := |p| - 1;
      assert p[last] in p;
      Or(IntervalFirst(p[..last]), ShiftLeft(p[last], 24 - 8 * last))
  }

  function IntervalLast(p: OctetPrefix): nat {
    Or(IntervalFirst(p), if |p| == 4 then 0 else Span(|p|) - 1)
  }

  /** Placing an octet below a multiple of a larger unit adds it. */
  lemma PlaceOctet(high: nat, octet: nat, k: nat)
    requires octet < 256
    ensures Or(high * (256 * Pow2(k)), ShiftLeft(octet, k)) == (high * 256 + octet) * Pow2(k)
  {
    hide Or, Pow2;
    var m := Pow2(k);
    Pow2Values();
    Pow2Adds(8, k);
    var x, y := high * (256 * m), octet * m;
    assert x == (256 * m) * high;
    DivModIs(x, 256 * m, high, 0);
    Times(m, octet);
    assert y == m * octet;
    OrDisjoint(x, y, 8 + k);
    Distribute(high, octet, m);
  }

  lemma Distribute(high: nat, octet: nat, m: nat)
    ensures high * (256 * m) + octet * m == (high * 256 + octet) * m
  {
    assert (high * 256 + octet) * m == (high * 256) * m + octet * m;
    assert (high * 256) * m == high * (256 * m);
  }

  lemma {:induction false} IntervalFirstValue(p: OctetPrefix)
    ensures IntervalFirst(p) == FromOctets(p) * Span(|p|)
    decreases |p|
  {
    hide FromOctets, Or, Pow2;
    var n := |p|;
    if n == 0 {
      EmptyOctets();
    } else {
      IntervalFirstValue(p[..n - 1]);
      FromOctetsSnoc(p);
      SpanOfPrefix(n);
      PlaceOctet(FromOctets(p[..n - 1]), p[n - 1], 32 - 8 * n);
    }
  }

  lemma IntervalLastValue(p: OctetPrefix)
    ensures IntervalLast(p) == IntervalFirst(p) + Span(|p|) - 1
  {
    hide FromOctets, IntervalFirst, Or, Pow2;
    var f, m := FromOctets(p), Span(|p|);
    IntervalFirstValue(p);
    assert f * m == m * f;
    DivModIs(f * m, m, f, 0);
    OrDisjoint(f * m, m - 1, 32 - 8 * |p|);
    SpanOfPrefix(4);
    OrDisjoint(f * m, 0, 32 - 8 * |p|);
  }

  lemma IntervalIsQuotient(p: OctetPrefix, a: Address)
    ensures IntervalFirst(p) <= a <= IntervalLast(p) <==> a / Span(|p|) == FromOctets(p)
  {
    hide FromOctets, IntervalFirst, IntervalLast, Pow2;
    IntervalFirstValue(p);
    IntervalLastValue(p);
    var f, m := FromOctets(p), Span(|p|);
    assert f * m == m * f;
    if f * m <= a <= f * m + m - 1 {
      DivModIs(a, m, f, a - m * f);
    }
    assert a == m * (a / m) + a % m;
  }

  /** The interval of an octet prefix holds exactly the addresses that start with these octets. */
  lemma IntervalIsPrefix(p: OctetPrefix, a: Address)
    ensures IntervalFirst(p) <= a <= IntervalLast(p) <==> p <= ToOctets(a)
  {
    hide FromOctets, ToOctets, IntervalFirst, IntervalLast, Span;
    var n := |p|;
    IntervalIsQuotient(p, a);
    OctetsAreQuotients(a, n);
    if FromOctets(ToOctets(a)[..n]) == FromOctets(p) {
      FromOctetsInjective(ToOctets(a)[..n], p);
    }
    assert p <= ToOctets(a) <==> p == ToOctets(a)[..n];
  }

  method OctetPrefixInterval(octets: seq<int>) returns (r: Result<(int, int), Thrown>)
    ensures r.Ok? <==> |octets| <= 4 && AreOctets(octets)
    ensures r.Err? ==> r.error == RangeError
    ensures r.Ok? ==> r.value == (IntervalFirst(octets), IntervalLast(octets))
  {
    hide Or, ShiftLeft, Span;
    if |octets| > 4 {
      return Err(RangeError);
    }
    var first := 0;
    assert octets[..0] == [];
    for i := 0 to |octets|
      invariant 0 <= first && AreOctets(octets[..i]) && first == IntervalFirst(octets[..i])
    {
      if !IsOctet(octets[i]) {
        assert octets[i] in octets;
        return Err(RangeError);
      }
      assert octets[..i + 1] == octets[..i] + [octets[i]] && octets[..i + 1][..i] == octets[..i];
      first := Or(first, ShiftLeft(octets[i], 24 - 8 * i));
    }
    assert octets[..|octets|] == octets;
    var suffix := if |octets| == 4 then 0 else Span(|octets|) - 1;
    return Ok((first, Or(first, suffix)));
  }
}
