/** The scanner agrees with the grammar: on every JSON text it judges exactly the top-level member names. */
module JsonScannerProofs {
  import opened Wrappers
  import opened JsonGrammar
  import opened JsonScanner

  // ---------- Skipping a value ----------

  /** The scan of a value passes over `t` and is where it was: outside strings, at the same depth. */
  ghost predicate Passes(t: Text, depth: int) {
    forall rest: Text :: SkipValue(t + rest, depth, false, false) == SkipValue(rest, depth, false, false)
  }

  lemma PassesAt(t: Text, rest: Text, depth: int)
    requires Passes(t, depth)
    ensures SkipValue(t + rest, depth, false, false) == SkipValue(rest, depth, false, false)
  {
  }

  lemma PassesBoth(a: Text, b: Text, depth: int)
    requires Passes(a, depth) && Passes(b, depth)
    ensures Passes(a + b, depth)
  {
    forall rest: Text
      ensures SkipValue(a + b + rest, depth, false, false) == SkipValue(rest, depth, false, false)
    {
      assert a + b + rest == a + (b + rest);
      PassesAt(a, b + rest, depth);
      PassesAt(b, rest, depth);
    }
  }

  /** Neither a quote, nor a bracket, nor a comma. */
  predicate IsInert(u: Unit) {
    u != QUOTE && u != OPEN_BRACKET && u != CLOSE_BRACKET && u != OPEN_BRACE && u != CLOSE_BRACE && u != COMMA
  }

  lemma {:induction false} InertPasses(t: Text, depth: int)
    requires forall u :: u in t ==> IsInert(u)
    ensures Passes(t, depth)
  {
    forall rest: Text
      ensures SkipValue(t + rest, depth, false, false) == SkipValue(rest, depth, false, false)
    {
      InertPassesBefore(t, rest, depth);
    }
  }

  lemma {:induction false} InertPassesBefore(t: Text, rest: Text, depth: int)
    requires forall u :: u in t ==> IsInert(u)
    ensures SkipValue(t + rest, depth, false, false) == SkipValue(rest, depth, false, false)
  {
    if t == [] {
      assert t + rest == rest;
    } else {
      assert IsInert(t[0]);
      assert (t + rest)[1..] == t[1..] + rest;
      InertPassesBefore(t[1..], rest, depth);
    }
  }

  /** Inside a string, the spelling of its characters is passed over whatever it contains. */
  lemma {:induction false} CharactersPass(cs: Characters, rest: Text, depth: int)
    ensures SkipValue(SpellCharacters(cs) + rest, depth, true, false) == SkipValue(rest, depth, true, false)
  {
    if cs == [] {
      assert SpellCharacters(cs) + rest == rest;
    } else {
      assert cs[0].Ok();
      var tail := SpellCharacters(cs[1..]) + rest;
      assert SpellCharacters(cs) + rest == cs[0].Spell() + tail;
      CharacterPasses(cs[0], tail, depth);
      CharactersPass(cs[1..], rest, depth);
    }
  }

  lemma UnitPassesInString(u: Unit, rest: Text, depth: int)
    requires u != QUOTE && u != BACKSLASH
    ensures SkipValue([u] + rest, depth, true, false) == SkipValue(rest, depth, true, false)
  {
    assert ([u] + rest)[1..] == rest;
  }

  lemma EscapePassesInString(u: Unit, rest: Text, depth: int)
    ensures SkipValue([BACKSLASH, u] + rest, depth, true, false) == SkipValue(rest, depth, true, false)
  {
    var t := [BACKSLASH, u] + rest;
    assert t[1..] == [u] + rest && t[1..][1..] == rest;
  }

  lemma CharacterPasses(c: Character, rest: Text, depth: int)
    requires c.Ok()
    ensures SkipValue(c.Spell() + rest, depth, true, false) == SkipValue(rest, depth, true, false)
  {
    match c
    case Plain(u) => UnitPassesInString(u, rest, depth);
    case Escape(e) => EscapePassesInString(e, rest, depth);
    case Hex(h0, h1, h2, h3) =>
      var r3 := [h3] + rest;
      var r2 := [h2] + r3;
      var r1 := [h1] + r2;
      var r0 := [h0] + r1;
      assert c.Spell() + rest == [BACKSLASH, LETTER_U] + r0;
      EscapePassesInString(LETTER_U, r0, depth);
      UnitPassesInString(h0, r1, depth);
      UnitPassesInString(h1, r2, depth);
      UnitPassesInString(h2, r3, depth);
      UnitPassesInString(h3, rest, depth);
  }

  lemma StringPasses(cs: Characters, depth: int)
    ensures Passes(SpellString(cs), depth)
  {
    forall rest: Text
      ensures SkipValue(SpellString(cs) + rest, depth, false, false) == SkipValue(rest, depth, false, false)
    {
      var t := SpellString(cs) + rest;
      assert t[1..] == SpellCharacters(cs) + ([QUOTE] + rest);
      CharactersPass(cs, [QUOTE] + rest, depth);
      assert ([QUOTE] + rest)[1..] == rest;
    }
  }

  lemma BracketsPass(open: Unit, inner: Text, close: Unit, depth: int)
    requires open == OPEN_BRACKET || open == OPEN_BRACE
    requires close == CLOSE_BRACKET || close == CLOSE_BRACE
    requires 0 <= depth && Passes(inner, depth + 1)
    ensures Passes([open] + inner + [close], depth)
  {
    forall rest: Text
      ensures SkipValue([open] + inner + [close] + rest, depth, false, false) == SkipValue(rest, depth, false, false)
    {
      var t := [open] + inner + [close] + rest;
      assert t[1..] == inner + ([close] + rest);
      PassesAt(inner, [close] + rest, depth + 1);
      assert ([close] + rest)[1..] == rest;
    }
  }

  lemma CommaPasses(depth: int)
    requires 0 < depth
    ensures Passes([COMMA], depth)
  {
    forall rest: Text
      ensures SkipValue([COMMA] + rest, depth, false, false) == SkipValue(rest, depth, false, false)
    {
      assert ([COMMA] + rest)[1..] == rest;
    }
  }

  lemma BlanksPass(s: Text, depth: int)
    requires AreBlank(s)
    ensures Passes(s, depth)
  {
    forall u | u in s
      ensures IsInert(u)
    {
      assert IsBlank(u);
    }
    InertPasses(s, depth);
  }

  lemma NumberIsInert(negative: bool, whole: Text, fraction: Text, exponent: Exponent, u: Unit)
    requires NumberOk(whole, fraction, exponent) && u in SpellNumber(negative, whole, fraction, exponent)
    ensures IsInert(u) && !IsSpace(u)
  {
    assert u in whole ==> IsDigit(u);
    assert u in fraction ==> IsDigit(u);
    assert exponent.Exponent? && u in exponent.digits ==> IsDigit(u);
  }

  /** Whatever the value, at whatever depth it stands: its own brackets, commas and quotes cancel out. */
  lemma {:induction false} ValuePasses(v: Value, depth: int)
    requires ValueOk(v) && 0 <= depth
    ensures Passes(Spell(v), depth)
    decreases v, 1
  {
    match v
    case Literal(word) => InertPasses(SpellWord(word), depth);
    case Number(negative, whole, fraction, exponent) =>
      forall u | u in Spell(v)
        ensures IsInert(u)
      {
        NumberIsInert(negative, whole, fraction, exponent, u);
      }
      InertPasses(Spell(v), depth);
    case String(characters) => StringPasses(characters, depth);
    case Array(pad, elements) =>
      if elements == [] {
        BlanksPass(pad, depth + 1);
        BracketsPass(OPEN_BRACKET, pad, CLOSE_BRACKET, depth);
      } else {
        ElementsPass(elements, depth + 1);
        BracketsPass(OPEN_BRACKET, SpellElements(elements), CLOSE_BRACKET, depth);
      }
    case Object(pad, members) =>
      if members == [] {
        BlanksPass(pad, depth + 1);
        BracketsPass(OPEN_BRACE, pad, CLOSE_BRACE, depth);
      } else {
        MembersPass(members, depth + 1);
        BracketsPass(OPEN_BRACE, SpellMembers(members), CLOSE_BRACE, depth);
      }
  }

  lemma {:induction false} ElementPasses(e: Element, depth: int)
    requires ElementOk(e) && 0 <= depth
    ensures Passes(SpellElement(e), depth)
    decreases e, 2
  {
    BlanksPass(e.before, depth);
    ValuePasses(e.value, depth);
    BlanksPass(e.after, depth);
    PassesBoth(e.before, Spell(e.value), depth);
    PassesBoth(e.before + Spell(e.value), e.after, depth);
  }

  lemma {:induction false} ElementsPass(es: seq<Element>, depth: int)
    requires (forall e :: e in es ==> ElementOk(e)) && es != [] && 0 < depth
    ensures Passes(SpellElements(es), depth)
    decreases es, 0
  {
    ElementPasses(es[0], depth);
    if |es| > 1 {
      CommaPasses(depth);
      ElementsPass(es[1..], depth);
      PassesBoth(SpellElement(es[0]), [COMMA], depth);
      PassesBoth(SpellElement(es[0]) + [COMMA], SpellElements(es[1..]), depth);
    }
  }

  lemma {:induction false} MemberPasses(m: Member, depth: int)
    requires MemberOk(m) && 0 <= depth
    ensures Passes(SpellMember(m), depth)
    decreases m, 2
  {
    BlanksPass(m.before, depth);
    StringPasses(m.key, depth);
    BlanksPass(m.after, depth);
    InertPasses([COLON], depth);
    ElementPasses(m.element, depth);
    PassesBoth(m.before, SpellString(m.key), depth);
    PassesBoth(m.before + SpellString(m.key), m.after, depth);
    PassesBoth(m.before + SpellString(m.key) + m.after, [COLON], depth);
    PassesBoth(m.before + SpellString(m.key) + m.after + [COLON], SpellElement(m.element), depth);
  }

  lemma {:induction false} MembersPass(ms: seq<Member>, depth: int)
    requires (forall m :: m in ms ==> MemberOk(m)) && ms != [] && 0 < depth
    ensures Passes(SpellMembers(ms), depth)
    decreases ms, 0
  {
    MemberPasses(ms[0], depth);
    if |ms| > 1 {
      CommaPasses(depth);
      MembersPass(ms[1..], depth);
      PassesBoth(SpellMember(ms[0]), [COMMA], depth);
      PassesBoth(SpellMember(ms[0]) + [COMMA], SpellMembers(ms[1..]), depth);
    }
  }

  /** The scan of a member's value lands on the comma after it or on the brace that closes its object. */
  lemma ValueScanLands(e: Element, rest: Text)
    requires ElementOk(e)
    ensures SkipValue(SpellElement(e) + [COMMA] + rest, 0, false, false) == (AtComma, rest)
    ensures SkipValue(SpellElement(e) + [CLOSE_BRACE] + rest, 0, false, false) == (AtBrace, [CLOSE_BRACE] + rest)
  {
    ElementPasses(e, 0);
    assert SpellElement(e) + [COMMA] + rest == SpellElement(e) + ([COMMA] + rest);
    PassesAt(SpellElement(e), [COMMA] + rest, 0);
    assert ([COMMA] + rest)[1..] == rest;
    assert SpellElement(e) + [CLOSE_BRACE] + rest == SpellElement(e) + ([CLOSE_BRACE] + rest);
    PassesAt(SpellElement(e), [CLOSE_BRACE] + rest, 0);
  }

  // ---------- Reading a member name ----------

  lemma UnitStaysInString(u: Unit, rest: Text)
    requires u != QUOTE && u != BACKSLASH
    ensures SkipString([u] + rest, false) == SkipString(rest, false)
  {
    assert ([u] + rest)[1..] == rest;
  }

  lemma EscapeStaysInString(u: Unit, rest: Text)
    ensures SkipString([BACKSLASH, u] + rest, false) == SkipString(rest, false)
  {
    var t := [BACKSLASH, u] + rest;
    assert t[1..] == [u] + rest && t[1..][1..] == rest;
  }

  lemma CharacterStaysInString(c: Character, rest: Text)
    requires c.Ok()
    ensures SkipString(c.Spell() + rest, false) == SkipString(rest, false)
  {
    match c
    case Plain(u) => UnitStaysInString(u, rest);
    case Escape(e) => EscapeStaysInString(e, rest);
    case Hex(h0, h1, h2, h3) =>
      var r3 := [h3] + rest;
      var r2 := [h2] + r3;
      var r1 := [h1] + r2;
      var r0 := [h0] + r1;
      assert c.Spell() + rest == [BACKSLASH, LETTER_U] + r0;
      EscapeStaysInString(LETTER_U, r0);
      UnitStaysInString(h0, r1);
      UnitStaysInString(h1, r2);
      UnitStaysInString(h2, r3);
      UnitStaysInString(h3, rest);
  }

  /** The scan of a name stops right after its own closing quote. */
  lemma {:induction false} StringScanEnds(cs: Characters, rest: Text)
    ensures SkipString(SpellCharacters(cs) + [QUOTE] + rest, false) == rest
  {
    if cs == [] {
      assert SpellCharacters(cs) + [QUOTE] + rest == [QUOTE] + rest;
      assert ([QUOTE] + rest)[1..] == rest;
    } else {
      assert cs[0].Ok();
      var tail := SpellCharacters(cs[1..]) + [QUOTE] + rest;
      assert SpellCharacters(cs) + [QUOTE] + rest == cs[0].Spell() + tail;
      CharacterStaysInString(cs[0], tail);
      StringScanEnds(cs[1..], rest);
    }
  }

  lemma ParsesCharacter(c: Character, rest: Text)
    requires c.Ok()
    ensures ParseCharacters(c.Spell() + rest) == Prepend(c.Meaning(), ParseCharacters(rest))
  {
    var t := c.Spell() + rest;
    match c
    case Plain(u) => assert t[0] == u && t[1..] == rest;
    case Escape(e) => assert t[0] == BACKSLASH && t[1] == e && t[2..] == rest;
    case Hex(h0, h1, h2, h3) =>
      assert t[0] == BACKSLASH && t[1] == LETTER_U && t[2] == h0 && t[3] == h1 && t[4] == h2 && t[5] == h3
        && t[6..] == rest;
      assert LETTER_U !in ESCAPES;
  }

  /** Parsing undoes spelling. */
  lemma {:induction false} ParsesSpelledCharacters(cs: Characters)
    ensures ParseCharacters(SpellCharacters(cs)) == Some(MeaningOf(cs))
  {
    if cs != [] {
      assert cs[0].Ok();
      ParsesCharacter(cs[0], SpellCharacters(cs[1..]));
      ParsesSpelledCharacters(cs[1..]);
    }
  }

  function FirstCharacter(s: Text): (c: Character)
    requires s != [] && ParseCharacters(s).Some?
    ensures c.Ok() && |c.Spell()| <= |s| && c.Spell() == s[..|c.Spell()|]
  {
    if s[0] != BACKSLASH then Plain(s[0])
    else if |s| >= 2 && s[1] in ESCAPES then Escape(s[1])
    else Hex(s[2], s[3], s[4], s[5])
  }

  /** And only spellings of strings are parsed: everything else is a syntax error. */
  lemma {:induction false} ParsesOnlySpellings(s: Text) returns (cs: Characters)
    requires ParseCharacters(s).Some?
    ensures SpellCharacters(cs) == s && MeaningOf(cs) == ParseCharacters(s).value
    decreases |s|
  {
    if s == [] {
      cs := [];
    } else {
      var c := FirstCharacter(s);
      var rest := s[|c.Spell()|..];
      assert s == c.Spell() + rest;
      ParsesCharacter(c, rest);
      var tail := ParsesOnlySpellings(rest);
      cs := [c] + tail;
      assert cs[1..] == tail;
    }
  }

  // ---------- One member ----------

  lemma {:induction false} SpaceSkips(pad: Text, t: Text)
    requires AreBlank(pad) && t != [] && !IsSpace(t[0])
    ensures SkipSpace(pad + t) == t
  {
    if pad == [] {
      assert pad + t == t;
    } else {
      assert IsBlank(pad[0]);
      assert (pad + t)[1..] == pad[1..] + t;
      SpaceSkips(pad[1..], t);
    }
  }

  lemma ReadsKey(key: Characters, rest: Text)
    ensures var t := SpellString(key) + rest;
            && SkipString(t[1..], false) == rest
            && ParseString(t[..|t| - |rest|]) == Some(MeaningOf(key))
  {
    var t := SpellString(key) + rest;
    assert t[1..] == SpellCharacters(key) + [QUOTE] + rest;
    StringScanEnds(key, rest);
    var token := SpellString(key);
    assert t[..|t| - |rest|] == token;
    assert token[1..|token| - 1] == SpellCharacters(key);
    ParsesSpelledCharacters(key);
  }

  lemma AfterKeyLands(m: Member, rest: Text)
    requires MemberOk(m)
    ensures AfterKey(m.after + [COLON] + SpellElement(m.element) + [COMMA] + rest) == (AtComma, rest)
    ensures AfterKey(m.after + [COLON] + SpellElement(m.element) + [CLOSE_BRACE] + rest)
            == (AtBrace, [CLOSE_BRACE] + rest)
  {
    hide SpellElement, ElementOk, SkipValue;
    ValueScanLands(m.element, rest);
    var e := SpellElement(m.element);
    var u0, u1 := [COLON] + (e + [COMMA] + rest), [COLON] + (e + [CLOSE_BRACE] + rest);
    assert m.after + [COLON] + e + [COMMA] + rest == m.after + u0;
    assert m.after + [COLON] + e + [CLOSE_BRACE] + rest == m.after + u1;
    SpaceSkips(m.after, u0);
    SpaceSkips(m.after, u1);
    assert u0[1..] == e + [COMMA] + rest && u1[1..] == e + [CLOSE_BRACE] + rest;
  }

  lemma KeyTurn(m: Member, tail: Text, seen: set<Text>)
    requires MemberOk(m)
    ensures OneMember(m.before + SpellString(m.key) + tail, seen) ==
            var key := MeaningOf(m.key);
            if key in seen then Ends(Repeats(key))
            else if AfterKey(tail).0 == AtComma then GoesOn(AfterKey(tail).1, seen + {key}) else Ends(Accepted)
  {
    hide AfterKey, ParseString, SkipString;
    var t := SpellString(m.key) + tail;
    assert m.before + SpellString(m.key) + tail == m.before + t;
    SpaceSkips(m.before, t);
    ReadsKey(m.key, tail);
  }

  lemma MemberTurn(m: Member, rest: Text, seen: set<Text>)
    requires MemberOk(m)
    ensures var key := MeaningOf(m.key);
            && OneMember(SpellMember(m) + [COMMA] + rest, seen)
               == (if key in seen then Ends(Repeats(key)) else GoesOn(rest, seen + {key}))
            && OneMember(SpellMember(m) + [CLOSE_BRACE] + rest, seen)
               == Ends(if key in seen then Repeats(key) else Accepted)
  {
    hide OneMember, AfterKey;
    var e := SpellElement(m.element);
    var tail0, tail1 := m.after + [COLON] + e + [COMMA] + rest, m.after + [COLON] + e + [CLOSE_BRACE] + rest;
    assert SpellMember(m) + [COMMA] + rest == m.before + SpellString(m.key) + tail0;
    assert SpellMember(m) + [CLOSE_BRACE] + rest == m.before + SpellString(m.key) + tail1;
    AfterKeyLands(m, rest);
    KeyTurn(m, tail0, seen);
    KeyTurn(m, tail1, seen);
  }

  // ---------- All members ----------

  /** The verdict on a list of names: the first that is among those seen or before it in the list. */
  function FirstRepeat(keys: seq<Text>, seen: set<Text>): Verdict {
    if keys == [] then Accepted
    else if keys[0] in seen then Repeats(keys[0])
    else FirstRepeat(keys[1..], seen + {keys[0]})
  }

  lemma {:induction false} MembersScan(ms: seq<Member>, rest: Text, seen: set<Text>)
    requires ms != [] && (forall m :: m in ms ==> MemberOk(m))
    ensures ScanMembers(SpellMembers(ms) + [CLOSE_BRACE] + rest, seen) == FirstRepeat(Keys(ms), seen)
    decreases |ms|
  {
    hide OneMember, MemberOk, SpellMember;
    var key := MeaningOf(ms[0].key);
    assert Keys(ms)[0] == key && Keys(ms)[1..] == Keys(ms[1..]);
    if |ms| == 1 {
      MemberTurn(ms[0], rest, seen);
      assert Keys(ms[1..]) == [];
    } else {
      var tail := SpellMembers(ms[1..]) + [CLOSE_BRACE] + rest;
      assert SpellMembers(ms) + [CLOSE_BRACE] + rest == SpellMember(ms[0]) + [COMMA] + tail;
      MemberTurn(ms[0], tail, seen);
      if key !in seen {
        MembersScan(ms[1..], rest, seen + {key});
      }
    }
  }

  lemma FirstUnitOfValue(v: Value)
    requires ValueOk(v)
    ensures Spell(v) != [] && !IsSpace(Spell(v)[0]) && (Spell(v)[0] == OPEN_BRACE <==> v.Object?)
  {
    if v.Number? {
      var t := Spell(v);
      assert v.whole[0] in v.whole && IsDigit(v.whole[0]);
      assert t[0] == if v.negative then MINUS else v.whole[0];
    }
  }

  /** The top-level names of a JSON text, in order. */
  function TopLevelKeys(e: Element): seq<Text> {
    if e.value.Object? then Keys(e.value.members) else []
  }

  lemma EmptyObjectScans(pad: Text, after: Text)
    requires AreBlank(pad)
    ensures ScanMembers(pad + [CLOSE_BRACE] + after, {}) == Accepted
  {
    assert pad + [CLOSE_BRACE] + after == pad + ([CLOSE_BRACE] + after);
    SpaceSkips(pad, [CLOSE_BRACE] + after);
  }

  lemma ObjectScans(pad: Text, members: seq<Member>, after: Text)
    requires ValueOk(Object(pad, members))
    ensures ScanMembers((Spell(Object(pad, members)) + after)[1..], {}) == FirstRepeat(Keys(members), {})
  {
    hide ScanMembers;
    var t := Spell(Object(pad, members)) + after;
    if members == [] {
      assert t[1..] == pad + [CLOSE_BRACE] + after;
      EmptyObjectScans(pad, after);
    } else {
      assert t[1..] == SpellMembers(members) + [CLOSE_BRACE] + after;
      MembersScan(members, after, {});
    }
  }

  /** On every JSON text the scanner reads the top-level names, exactly and in order, and judges those. */
  lemma ScanJudgesTopLevelKeys(e: Element)
    requires ElementOk(e)
    ensures Scan(SpellElement(e)) == FirstRepeat(TopLevelKeys(e), {})
  {
    hide ScanMembers, Spell, SkipSpace, ValueOk;
    FirstUnitOfValue(e.value);
    var t := Spell(e.value) + e.after;
    assert SpellElement(e) == e.before + t;
    SpaceSkips(e.before, t);
    if e.value.Object? {
      ObjectScans(e.value.pad, e.value.members, e.after);
    }
  }

  // ---------- What the verdict means ----------

  ghost predicate AllDifferent(keys: seq<Text>) {
    forall i, j :: 0 <= i < j < |keys| ==> keys[i] != keys[j]
  }

  /** Name `j` is the first one that repeats an earlier name. */
  ghost predicate IsFirstRepeat(keys: seq<Text>, j: int) {
    0 <= j < |keys| && keys[j] in keys[..j] && AllDifferent(keys[..j])
  }

  lemma {:induction false} FirstRepeatSince(all: seq<Text>, n: nat, seen: set<Text>)
    requires n <= |all| && AllDifferent(all[..n]) && (forall k :: k in seen <==> k in all[..n])
    ensures match FirstRepeat(all[n..], seen)
            case Accepted => AllDifferent(all)
            case Repeats(key) => exists j :: IsFirstRepeat(all, j) && all[j] == key
            case BadToken => false
    decreases |all| - n
  {
    if n == |all| {
      assert all[..n] == all;
    } else if all[n] in seen {
      assert IsFirstRepeat(all, n);
    } else {
      assert all[..n + 1] == all[..n] + [all[n]];
      assert all[n..][1..] == all[n + 1..];
      FirstRepeatSince(all, n + 1, seen + {all[n]});
    }
  }

  lemma VerdictOnKeys(keys: seq<Text>)
    ensures var verdict := FirstRepeat(keys, {});
            && (verdict == Accepted <==> AllDifferent(keys))
            && verdict != BadToken
            && (verdict.Repeats? ==> exists j :: IsFirstRepeat(keys, j) && keys[j] == verdict.key)
  {
    assert keys[0..] == keys;
    FirstRepeatSince(keys, 0, {});
    if j :| IsFirstRepeat(keys, j) {
      var i :| 0 <= i < j && keys[i] == keys[j];
      assert !AllDifferent(keys);
    }
  }

  /**
   The guard of the configuration loader: a JSON text is rejected iff two of its top-level names
   decode to the same string, with the first such name as the reason; it never raises a syntax error.
   */
  lemma RejectsExactlyDuplicates(e: Element)
    requires ElementOk(e)
    ensures var verdict, keys := Scan(SpellElement(e)), TopLevelKeys(e);
            && (verdict == Accepted <==> AllDifferent(keys))
            && verdict != BadToken
            && (verdict.Repeats? ==> exists j :: IsFirstRepeat(keys, j) && keys[j] == verdict.key)
  {
    hide Scan, SpellElement, FirstRepeat, IsFirstRepeat, AllDifferent;
    ScanJudgesTopLevelKeys(e);
    VerdictOnKeys(TopLevelKeys(e));
  }
}
