/**
 The JSON grammar of RFC 8259, sections 2 to 7, over UTF-16 code units: a tree for every
 derivation, and the text that the tree spells.
 */
module JsonGrammar {
  type Unit = u: int | 0 <= u < 0x1_0000
  type Text = seq<Unit>

  const QUOTE: Unit := 0x22
  const BACKSLASH: Unit := 0x5C
  const SLASH: Unit := 0x2F
  const COMMA: Unit := 0x2C
  const COLON: Unit := 0x3A
  const MINUS: Unit := 0x2D
  const PLUS: Unit := 0x2B
  const POINT: Unit := 0x2E
  const OPEN_BRACKET: Unit := 0x5B
  const CLOSE_BRACKET: Unit := 0x5D
  const OPEN_BRACE: Unit := 0x7B
  const CLOSE_BRACE: Unit := 0x7D

  /** Section 2: space, tab, line feed, carriage return. */
  predicate IsBlank(u: Unit) {
    u == 0x20 || u == 0x09 || u == 0x0A || u == 0x0D
  }

  predicate IsDigit(u: Unit) {
    0x30 <= u <= 0x39
  }

  predicate IsHexDigit(u: Unit) {
    IsDigit(u) || 0x41 <= u <= 0x46 || 0x61 <= u <= 0x66
  }

  function HexValue(u: Unit): (v: int)
    requires IsHexDigit(u)
    ensures 0 <= v < 16
  {
    if IsDigit(u) then u - 0x30 else if u <= 0x46 then u - 0x41 + 10 else u - 0x61 + 10
  }

  /** Section 7: the letters after a backslash, and what they stand for. */
  const ESCAPES: map<Unit, Unit> := map[
    QUOTE := QUOTE, BACKSLASH := BACKSLASH, SLASH := SLASH,
    0x62 := 0x08, 0x66 := 0x0C, 0x6E := 0x0A, 0x72 := 0x0D, 0x74 := 0x09]

  const LETTER_U: Unit := 0x75

  datatype Character =
    | Plain(unit: Unit)
    | Escape(letter: Unit)
    | Hex(h0: Unit, h1: Unit, h2: Unit, h3: Unit)
  {
    predicate Ok() {
      match this
      case Plain(u) => 0x20 <= u && u != QUOTE && u != BACKSLASH
      case Escape(e) => e in ESCAPES
      case Hex(a, b, c, d) => IsHexDigit(a) && IsHexDigit(b) && IsHexDigit(c) && IsHexDigit(d)
    }

    function Spell(): Text {
      match this
      case Plain(u) => [u]
      case Escape(e) => [BACKSLASH, e]
      case Hex(a, b, c, d) => [BACKSLASH, LETTER_U, a, b, c, d]
    }

    /** The code unit the character stands for. */
    function Meaning(): Unit
      requires Ok()
    {
      match this
      case Plain(u) => u
      case Escape(e) => ESCAPES[e]
      case Hex(a, b, c, d) => HexValue(a) * 4096 + HexValue(b) * 256 + HexValue(c) * 16 + HexValue(d)
    }
  }

  type Characters = cs: seq<Character> | forall c :: c in cs ==> c.Ok()

  function SpellCharacters(cs: Characters): Text {
    if cs == [] then [] else cs[0].Spell() + SpellCharacters(cs[1..])
  }

  function SpellString(cs: Characters): Text {
    [QUOTE] + SpellCharacters(cs) + [QUOTE]
  }

  function MeaningOf(cs: Characters): Text {
    if cs == [] then [] else [cs[0].Meaning()] + MeaningOf(cs[1..])
  }

  predicate AreBlank(s: Text) {
    forall u :: u in s ==> IsBlank(u)
  }

  predicate AreDigits(s: Text) {
    s != [] && (forall u :: u in s ==> IsDigit(u))
  }

  datatype Exponent = NoExponent | Exponent(marker: Unit, sign: Text, digits: Text)

  datatype Word = True | False | Null

  datatype Value =
    | Literal(word: Word)
    | Number(negative: bool, whole: Text, fraction: Text, exponent: Exponent)
    | String(characters: Characters)
    | Array(pad: Text, elements: seq<Element>)
    | Object(pad: Text, members: seq<Member>)

  /** A value with the blanks around it. */
  datatype Element = Element(before: Text, value: Value, after: Text)

  datatype Member = Member(before: Text, key: Characters, after: Text, element: Element)

  /** Section 6. */
  predicate NumberOk(whole: Text, fraction: Text, exponent: Exponent) {
    && AreDigits(whole) && (whole[0] == 0x30 ==> |whole| == 1)
    && (fraction == [] || AreDigits(fraction))
    && (exponent.Exponent? ==>
          && (exponent.marker == 0x65 || exponent.marker == 0x45)
          && (exponent.sign == [] || exponent.sign == [PLUS] || exponent.sign == [MINUS])
          && AreDigits(exponent.digits))
  }

  predicate ValueOk(v: Value)
    decreases v, 0
  {
    match v
    case Literal(_) => true
    case Number(_, whole, fraction, exponent) => NumberOk(whole, fraction, exponent)
    case String(_) => true
    case Array(pad, elements) => AreBlank(pad) && (forall e :: e in elements ==> ElementOk(e))
    case Object(pad, members) => AreBlank(pad) && (forall m :: m in members ==> MemberOk(m))
  }

  predicate ElementOk(e: Element)
    decreases e, 1
  {
    AreBlank(e.before) && ValueOk(e.value) && AreBlank(e.after)
  }

  predicate MemberOk(m: Member)
    decreases m, 1
  {
    AreBlank(m.before) && AreBlank(m.after) && ElementOk(m.element)
  }

  function SpellWord(word: Word): Text {
    match word
    case True => [0x74, 0x72, 0x75, 0x65]
    case False => [0x66, 0x61, 0x6C, 0x73, 0x65]
    case Null => [0x6E, 0x75, 0x6C, 0x6C]
  }

  function SpellExponent(exponent: Exponent): Text {
    if exponent.NoExponent? then [] else [exponent.marker] + exponent.sign + exponent.digits
  }

  function SpellNumber(negative: bool, whole: Text, fraction: Text, exponent: Exponent): Text {
    (if negative then [MINUS] else []) + whole
    + (if fraction == [] then [] else [POINT] + fraction) + SpellExponent(exponent)
  }

  function Spell(v: Value): Text
    decreases v, 1
  {
    match v
    case Literal(word) => SpellWord(word)
    case Number(negative, whole, fraction, exponent) => SpellNumber(negative, whole, fraction, exponent)
    case String(characters) => SpellString(characters)
    case Array(pad, elements) =>
      [OPEN_BRACKET] + (if elements == [] then pad else SpellElements(elements)) + [CLOSE_BRACKET]
    case Object(pad, members) => [OPEN_BRACE] + (if members == [] then pad else SpellMembers(members)) + [CLOSE_BRACE]
  }

  function SpellElement(e: Element): Text
    decreases e, 2
  {
    e.before + Spell(e.value) + e.after
  }

  function SpellElements(es: seq<Element>): Text
    decreases es, 0
  {
    if es == [] then []
    else if |es| == 1 then SpellElement(es[0])
    else SpellElement(es[0]) + [COMMA] + SpellElements(es[1..])
  }

  function SpellMember(m: Member): Text
    decreases m, 2
  {
    m.before + SpellString(m.key) + m.after + [COLON] + SpellElement(m.element)
  }

  function SpellMembers(ms: seq<Member>): Text
    decreases ms, 0
  {
    if ms == [] then []
    else if |ms| == 1 then SpellMember(ms[0])
    else SpellMember(ms[0]) + [COMMA] + SpellMembers(ms[1..])
  }

  /** The member names of an object, decoded, in order. */
  function Keys(ms: seq<Member>): seq<Text> {
    if ms == [] then [] else [MeaningOf(ms[0].key)] + Keys(ms[1..])
  }
}
