/**
 `rejectDuplicateTopLevelKeys` of `launcher.ts`: a scanner over the raw text of the configuration,
 run before `JSON.parse`, which by itself would silently keep the last of two equal members.
 */
module JsonScanner {
  import opened Wrappers
  import opened JsonGrammar

  /** What the scanner does: return, throw because of a repeated key, or throw inside `JSON.parse`. */
  datatype Verdict = Accepted | Repeats(key: Text) | BadToken

  /** The class `\s` of JavaScript regular expressions. */
  predicate IsSpace(u: Unit) {
    || 0x09 <= u <= 0x0D || u == 0x20 || u == 0xA0 || u == 0x1680 || 0x2000 <= u <= 0x200A
    || u == 0x2028 || u == 0x2029 || u == 0x202F || u == 0x205F || u == 0x3000 || u == 0xFEFF
  }

  function SkipSpace(s: Text): (rest: Text)
    ensures |rest| <= |s| && rest == s[|s| - |rest|..]
  {
    if s != [] && IsSpace(s[0]) then SkipSpace(s[1..]) else s
  }

  /** What follows the string whose opening quote has been read. */
  function SkipString(s: Text, escaped: bool): (rest: Text)
    ensures |rest| <= |s| && rest == s[|s| - |rest|..]
  {
    if s == [] then []
    else if escaped then SkipString(s[1..], false)
    else if s[0] == BACKSLASH then SkipString(s[1..], true)
    else if s[0] == QUOTE then s[1..]
    else SkipString(s[1..], false)
  }

  /** Why the scan of a member's value ended: at the end of the text, at the object's brace, or at a comma. */
  datatype Stop = AtEnd | AtBrace | AtComma

  function SkipValue(s: Text, depth: int, inString: bool, escaped: bool): (r: (Stop, Text))
    ensures |r.1| <= |s|
  {
    if s == [] then (AtEnd, [])
    else
      var u := s[0];
      if inString then
        if escaped then SkipValue(s[1..], depth, true, false)
        else if u == BACKSLASH then SkipValue(s[1..], depth, true, true)
        else SkipValue(s[1..], depth, u != QUOTE, false)
      else if u == QUOTE then SkipValue(s[1..], depth, true, escaped)
      else if u == OPEN_BRACKET || u == OPEN_BRACE then SkipValue(s[1..], depth + 1, false, escaped)
      else if u == CLOSE_BRACKET || u == CLOSE_BRACE then
        if u == CLOSE_BRACE && depth == 0 then (AtBrace, s)
        else SkipValue(s[1..], depth - 1, false, escaped)
      else if u == COMMA && depth == 0 then (AtComma, s[1..])
      else SkipValue(s[1..], depth, false, escaped)
  }

  /** `JSON.parse` on what stands between two quotes. */
  function ParseCharacters(s: Text): Option<Text> {
    if s == [] then Some([])
    else if s[0] == BACKSLASH then
      if |s| >= 2 && s[1] in ESCAPES then Prepend(ESCAPES[s[1]], ParseCharacters(s[2..]))
      else if |s| >= 6 && s[1] == LETTER_U
              && IsHexDigit(s[2]) && IsHexDigit(s[3]) && IsHexDigit(s[4]) && IsHexDigit(s[5])
      then Prepend(Hex(s[2], s[3], s[4], s[5]).Meaning(), ParseCharacters(s[6..]))
      else None
    else if s[0] < 0x20 || s[0] == QUOTE then None
    else Prepend(s[0], ParseCharacters(s[1..]))
  }

  function Prepend(u: Unit, rest: Option<Text>): Option<Text> {
    if rest.None? then None else Some([u] + rest.value)
  }

  /** `JSON.parse` on a text that starts with a quote: a string, or a syntax error. */
  function ParseString(token: Text): Option<Text> {
    if |token| < 2 || token[0] != QUOTE || token[|token| - 1] != QUOTE then None
    else ParseCharacters(token[1..|token| - 1])
  }

  /** What follows a member name: a colon and a value. */
  function AfterKey(s: Text): (r: (Stop, Text))
    ensures |r.1| < |s| || r.0 != AtComma
  {
    var u := SkipSpace(s);
    if u == [] || u[0] != COLON then (AtEnd, []) else SkipValue(u[1..], 0, false, false)
  }

  /** One turn of the outer loop ends the scan, or leaves the rest of the text and the keys seen. */
  datatype Turn = Ends(verdict: Verdict) | GoesOn(rest: Text, seen: set<Text>)

  function OneMember(s: Text, seen: set<Text>): (turn: Turn)
    ensures turn.GoesOn? ==> |turn.rest| < |s|
  {
    var t := SkipSpace(s);
    if t == [] || t[0] != QUOTE then Ends(Accepted)
    else
      var rest := SkipString(t[1..], false);
      match ParseString(t[..|t| - |rest|])
      case None => Ends(BadToken)
      case Some(key) =>
        if key in seen then Ends(Repeats(key))
        else
          var (stop, after) := AfterKey(rest);
          if stop == AtComma then GoesOn(after, seen + {key}) else Ends(Accepted)
  }

  function ScanMembers(s: Text, seen: set<Text>): Verdict
    decreases |s|
  {
    match OneMember(s, seen)
    case Ends(verdict) => verdict
    case GoesOn(rest, seen1) => ScanMembers(rest, seen1)
  }

  function Scan(s: Text): Verdict {
    var t := SkipSpace(s);
    if t == [] || t[0] != OPEN_BRACE then Accepted else ScanMembers(t[1..], {})
  }

  // ---------- The scanner itself ----------

  method SkipWhitespace(source: Text, start: nat) returns (index: nat)
    requires start <= |source|
    ensures start <= index <= |source| && source[index..] == SkipSpace(source[start..])
  {
    index := start;
    while index < |source| && IsSpace(source[index])
      invariant start <= index <= |source|
      invariant SkipSpace(source[index..]) == SkipSpace(source[start..])
    {
      assert source[index..][1..] == source[index + 1..];
      index := index + 1;
    }
  }

  /** The loop over a member name, from the character after its opening quote. */
  method ReadString(source: Text, start: nat) returns (index: nat)
    requires start <= |source|
    ensures start <= index <= |source| && source[index..] == SkipString(source[start..], false)
  {
    index := start;
    var escaped := false;
    while index < |source|
      invariant start <= index <= |source|
      invariant SkipString(source[index..], escaped) == SkipString(source[start..], false)
    {
      var character := source[index];
      assert source[index..][1..] == source[index + 1..];
      index := index + 1;
      if escaped {
        escaped := false;
      } else if character == BACKSLASH {
        escaped := true;
      } else if character == QUOTE {
        break;
      }
    }
  }

  /** The loop over a member's value, from the character after its colon. */
  method PassValue(source: Text, start: nat) returns (stop: Stop, index: nat)
    requires start <= |source|
    ensures start <= index <= |source| && (stop, source[index..]) == SkipValue(source[start..], 0, false, false)
    ensures stop == AtComma ==> start < index
  {
    index := start;
    var depth, inString, escaped := 0, false, false;
    while index < |source|
      invariant start <= index <= |source|
      invariant SkipValue(source[index..], depth, inString, escaped) == SkipValue(source[start..], 0, false, false)
    {
      var character := source[index];
      assert source[index..][1..] == source[index + 1..];
      if inString {
        if escaped {
          escaped := false;
        } else if character == BACKSLASH {
          escaped := true;
        } else if character == QUOTE {
          inString := false;
        }
      } else if character == QUOTE {
        inString := true;
      } else if character == OPEN_BRACKET || character == OPEN_BRACE {
        depth := depth + 1;
      } else if character == CLOSE_BRACKET || character == CLOSE_BRACE {
        if character == CLOSE_BRACE && depth == 0 {
          return AtBrace, index;
        }
        depth := depth - 1;
      } else if character == COMMA && depth == 0 {
        return AtComma, index + 1;
      }
      index := index + 1;
    }
    stop := AtEnd;
  }

  /** A member name: the slice between its quotes, parsed. */
  method ReadKey(source: Text, start: nat) returns (key: Option<Text>, index: nat)
    requires start < |source|
    ensures start < index <= |source| && source[index..] == SkipString(source[start..][1..], false)
    ensures key == ParseString(source[start..][..|source[start..]| - |source[index..]|])
  {
    assert source[start..][1..] == source[start + 1..];
    index := ReadString(source, start + 1);
    assert source[start..index] == source[start..][..|source[start..]| - |source[index..]|];
    key := ParseString(source[start..index]);
  }

  method PassMember(source: Text, start: nat) returns (stop: Stop, index: nat)
    requires start <= |source|
    ensures start <= index <= |source| && stop == AfterKey(source[start..]).0
    ensures stop == AtComma ==> start < index && source[index..] == AfterKey(source[start..]).1
  {
    hide SkipSpace, SkipValue;
    index := SkipWhitespace(source, start);
    if index == |source| || source[index] != COLON {
      return AtEnd, index;
    }
    assert source[index..][1..] == source[index + 1..];
    stop, index := PassValue(source, index + 1);
  }

  /** One turn of the outer loop. */
  method ScanMember(source: Text, start: nat, seen: set<Text>)
    returns (ended: Option<Verdict>, index: nat, seen1: set<Text>)
    requires start <= |source|
    ensures start <= index <= |source|
    ensures OneMember(source[start..], seen) ==
            if ended.Some? then Ends(ended.value) else GoesOn(source[index..], seen1)
  {
    hide SkipSpace, SkipString, AfterKey, ParseString;
    seen1 := seen;
    index := SkipWhitespace(source, start);
    if index == |source| || source[index] == CLOSE_BRACE || source[index] != QUOTE {
      return Some(Accepted), index, seen1;
    }
    var key: Option<Text>;
    key, index := ReadKey(source, index);
    if key.None? {
      return Some(BadToken), index, seen1;
    }
    if key.value in seen {
      return Some(Repeats(key.value)), index, seen1;
    }
    seen1 := seen + {key.value};
    var stop: Stop;
    stop, index := PassMember(source, index);
    ended := if stop == AtComma then None else Some(Accepted);
  }

  lemma NothingLeft(seen: set<Text>)
    ensures ScanMembers([], seen) == Accepted
  {
  }

  method RejectDuplicateTopLevelKeys(source: Text) returns (verdict: Verdict)
    ensures verdict == Scan(source)
  {
    hide SkipSpace, OneMember;
    assert source[0..] == source;
    var index := SkipWhitespace(source, 0);
    if index == |source| || source[index] != OPEN_BRACE {
      return Accepted;
    }
    assert source[index..][1..] == source[index + 1..];
    index := index + 1;
    var seen: set<Text> := {};
    while index < |source|
      invariant index <= |source| && ScanMembers(source[index..], seen) == Scan(source)
      decreases |source| - index
    {
      var ended: Option<Verdict>;
      ended, index, seen := ScanMember(source, index, seen);
      if ended.Some? {
        return ended.value;
      }
    }
    assert source[index..] == [];
    NothingLeft(seen);
    return Accepted;
  }
}
