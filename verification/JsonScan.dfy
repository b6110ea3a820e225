/**
 The JSON writer and readers of tools/direct_usb_path_attribution.cpp and tools/capture_route_health_gate.cpp:
 json_escape, json_string, json_bool and json_object, which look for a quoted key as plain text.
 */
module JsonScan {
  import opened Words
  import opened Wrappers

  // ---- Escaping

  function EscapeChar(c: char): string {
    if c == '"' || c == '\\' then ['\\', c] else [c]
  }

  function Escape(s: string): string {
    if s == "" then "" else EscapeChar(s[0]) + Escape(s[1..])
  }

  /** Quotes and backslashes are printed after a backslash, and every other character as it is. */
  lemma {:induction false} EscapeOf(s: string, c: char)
    ensures Escape("") == ""
    ensures Escape(s + [c]) == Escape(s) + (if c == '"' then "\\\"" else if c == '\\' then "\\\\" else [c])
  {
    if s == "" {
      assert s + [c] == [c] && [c][1..] == "";
    } else {
      EscapeOf(s[1..], c);
      assert (s + [c])[1..] == s[1..] + [c];
    }
  }

  lemma {:induction false} EscapeFront(c: char, rest: string)
    ensures Escape([c] + rest) == EscapeChar(c) + Escape(rest)
  {
    assert ([c] + rest)[1..] == rest;
  }

  /** json_escape. */
  method JsonEscape(input: string) returns (out: string)
    ensures out == Escape(input)
  {
    hide Escape;
    out := "";
    assert Escape("") == "" by { EscapeOf("", 'a'); }
    for i := 0 to |input|
      invariant out + Escape(input[i..]) == Escape(input)
    {
      var c := input[i];
      assert input[i..] == [c] + input[i + 1..];
      EscapeFront(c, input[i + 1..]);
      ghost var next := out + (EscapeChar(c) + Escape(input[i + 1..]));
      assert next == (out + EscapeChar(c)) + Escape(input[i + 1..]);
      if c == '"' || c == '\\' { out := out + ['\\']; }
      out := out + [c];
    }
  }

  // ---- Finding text

  /** The first occurrence at or after from begins at p. */
  ghost predicate FirstAt(text: string, needle: string, from: nat, p: nat) {
    && from <= p && p + |needle| <= |text| && text[p..p + |needle|] == needle
    && forall i :: from <= i < p ==> !(needle <= text[i..])
  }

  /** There is no occurrence at or after from. */
  ghost predicate NowhereFrom(text: string, needle: string, from: nat) {
    forall i :: from <= i <= |text| ==> !(needle <= text[i..])
  }

  /** The position of the first occurrence at or after from, as std::string::find gives it. */
  function Find(text: string, needle: string, from: nat): (p: Option<nat>)
    requires from <= |text|
    ensures p.Some? ==> from <= p.value && p.value + |needle| <= |text|
    ensures p.Some? ==> FirstAt(text, needle, from, p.value)
    ensures p.None? ==> NowhereFrom(text, needle, from)
    decreases |text| - from
  {
    if needle <= text[from..] then Some(from)
    else if from == |text| then None
    else Find(text, needle, from + 1)
  }

  /** The text that follows the first occurrence of the needle. */
  function After(text: string, needle: string): Option<string> {
    if needle <= text then Some(text[|needle|..])
    else if text == "" then None
    else After(text[1..], needle)
  }

  lemma {:induction false} FindGivesAfter(text: string, needle: string, from: nat)
    requires from <= |text|
    ensures After(text[from..], needle) ==
            (match Find(text, needle, from) case None => None case Some(p) => Some(text[p + |needle|..]))
    decreases |text| - from
  {
    if needle <= text[from..] {
      assert text[from..][|needle|..] == text[from + |needle|..];
    } else if from < |text| {
      assert text[from..][1..] == text[from + 1..];
      FindGivesAfter(text, needle, from + 1);
    }
  }

  function Needle(key: string): string { "\"" + key + "\"" }

  /** isspace in the C locale. */
  predicate IsSpace(c: char) { c == ' ' || '\t' <= c <= '\r' }

  /** Space, tab, line feed, vertical tab, form feed or carriage return. */
  ghost predicate White(c: char) {
    c as int in {32, 9, 10, 11, 12, 13}
  }

  function SkipSpaces(text: string): string {
    if text != "" && IsSpace(text[0]) then SkipSpaces(text[1..]) else text
  }

  /** The text past the first occurrence of the quoted key and the first colon after it. */
  function ColonText(json: string, key: string): Option<string> {
    match After(json, Needle(key))
    case None => None
    case Some(rest) => After(rest, ":")
  }

  /** What the readers look at: past the quoted key, past the next colon, past white space. */
  function ValueText(json: string, key: string): Option<string> {
    match ColonText(json, key)
    case None => None
    case Some(value) => Some(SkipSpaces(value))
  }

  // ---- Reading a string

  /** The unescaped text up to the closing quote. */
  function StringText(text: string, escaped: bool, out: string): Option<string> {
    if text == "" then None
    else if escaped then StringText(text[1..], false, out + [text[0]])
    else if text[0] == '\\' then StringText(text[1..], true, out)
    else if text[0] == '"' then Some(out)
    else StringText(text[1..], false, out + [text[0]])
  }

  /**
   A backslash makes the next character part of the string, whatever it is; otherwise a quote ends the
   string, and with no quote that ends it there is none.
   */
  lemma {:induction false} StringTextMeans(c: char, rest: string, out: string)
    ensures StringText("", false, out) == StringText("\\", false, out) == None
    ensures StringText(['\\', c] + rest, false, out) == StringText(rest, false, out + [c])
    ensures StringText("\"" + rest, false, out) == Some(out)
    ensures c != '"' && c != '\\' ==> StringText([c] + rest, false, out) == StringText(rest, false, out + [c])
  {
    assert (['\\', c] + rest)[1..] == [c] + rest && ([c] + rest)[1..] == rest;
  }

  function ReadString(json: string, key: string): Option<string> {
    match ValueText(json, key)
    case None => None
    case Some(text) => if text == "" || text[0] != '"' then None else StringText(text[1..], false, "")
  }

  method PastSpaces(json: string, from: nat) returns (p: nat)
    requires from <= |json|
    ensures from <= p <= |json| && SkipSpaces(json[from..]) == json[p..]
    ensures (forall i :: from <= i < p ==> White(json[i])) && (p == |json| || !White(json[p]))
  {
    p := from;
    while p < |json| && IsSpace(json[p])
      invariant from <= p <= |json| && forall i :: from <= i < p ==> White(json[i])
      invariant SkipSpaces(json[p..]) == SkipSpaces(json[from..])
    {
      assert json[p..][1..] == json[p + 1..];
      p := p + 1;
    }
  }

  /** The first quoted key is at p and the first colon after it at q; the value begins past all white space. */
  ghost predicate ValueBegins(json: string, key: string, p: nat, q: nat, first: nat) {
    && FirstAt(json, "\"" + key + "\"", 0, p) && FirstAt(json, ":", p + |key| + 2, q)
    && q < first <= |json| && (forall i :: q < i < first ==> White(json[i]))
    && (first == |json| || !White(json[first]))
  }

  /** The position json_string and its siblings start at: find, find, skip white space. */
  method FindValue(json: string, key: string) returns (start: Option<nat>)
    ensures start.Some? ==> start.value <= |json|
    ensures start.Some? ==> exists p: nat, q: nat :: ValueBegins(json, key, p, q, start.value)
    ensures start.None? ==>
      || NowhereFrom(json, "\"" + key + "\"", 0)
      || exists p: nat :: FirstAt(json, "\"" + key + "\"", 0, p) && NowhereFrom(json, ":", p + |key| + 2)
    ensures ValueText(json, key) == (match start case None => None case Some(p) => Some(json[p..]))
  {
    hide After, FirstAt, NowhereFrom, SkipSpaces, White;
    var needle := Needle(key);
    FindGivesAfter(json, needle, 0);
    assert json[0..] == json;
    var keyPosition := Find(json, needle, 0);
    if keyPosition.None? { return None; }
    var afterKey := keyPosition.value + |needle|;
    FindGivesAfter(json, ":", afterKey);
    var colon := Find(json, ":", afterKey);
    if colon.None? { return None; }
    var first := PastSpaces(json, colon.value + 1);
    start := Some(first);
    assert ValueBegins(json, key, keyPosition.value, colon.value, first);
  }

  /** json_string. */
  method JsonString(json: string, key: string) returns (r: Option<string>)
    ensures r == ReadString(json, key)
  {
    var start := FindValue(json, key);
    if start.None? { return None; }
    var first := start.value;
    if first >= |json| || json[first] != '"' { return None; }
    var out, escaped, i := "", false, first + 1;
    assert json[first..][1..] == json[i..];
    while i < |json|
      invariant first < i <= |json|
      invariant ReadString(json, key) == StringText(json[i..], escaped, out)
    {
      var c := json[i];
      assert json[i..][1..] == json[i + 1..];
      if escaped {
        out, escaped := out + [c], false;
      } else if c == '\\' {
        escaped := true;
      } else if c == '"' {
        return Some(out);
      } else {
        out := out + [c];
      }
      i := i + 1;
    }
    r := None;
  }

  // ---- Reading a flag

  function ReadBool(json: string, key: string): Option<bool> {
    match ValueText(json, key)
    case None => None
    case Some(text) => if "true" <= text then Some(true) else if "false" <= text then Some(false) else None
  }

  /** The value must begin as a string, or as one of the two flags; whatever comes after it is not looked at. */
  lemma ReadersMean(json: string, key: string)
    ensures ValueText(json, key).None? ==> ReadString(json, key) == None && ReadBool(json, key) == None
    ensures forall text :: ValueText(json, key) == Some(text) ==>
      && (|text| >= 1 && text[0] == '"' ==> ReadString(json, key) == StringText(text[1..], false, ""))
      && (text == "" || text[0] != '"' ==> ReadString(json, key) == None)
      && (ReadBool(json, key) == Some(true) <==> |text| >= 4 && text[..4] == "true")
      && (ReadBool(json, key) == Some(false) <==> |text| >= 5 && text[..5] == "false")
  {
  }

  /** json_bool. */
  method JsonBool(json: string, key: string) returns (r: Option<bool>)
    ensures r == ReadBool(json, key)
  {
    var start := FindValue(json, key);
    if start.None? { return None; }
    var text := json[start.value..];
    r := if "true" <= text then Some(true) else if "false" <= text then Some(false) else None;
  }

  // ---- Reading an object

  /** The text up to the brace that closes the object; the nesting depth is a 32-bit counter. */
  function ObjectText(text: string, depth: nat, inString: bool, escaped: bool, taken: string): Option<string> {
    if text == "" then None
    else
      var c, rest, taken' := text[0], text[1..], taken + [text[0]];
      if escaped then ObjectText(rest, depth, inString, false, taken')
      else if inString && c == '\\' then ObjectText(rest, depth, inString, true, taken')
      else if c == '"' then ObjectText(rest, depth, !inString, false, taken')
      else if inString then ObjectText(rest, depth, inString, false, taken')
      else if c == '{' then ObjectText(rest, (depth + 1) % UINT32, false, false, taken')
      else if c == '}' then
        if depth == 0 then None
        else if depth == 1 then Some(taken')
        else ObjectText(rest, depth - 1, false, false, taken')
      else ObjectText(rest, depth, false, false, taken')
  }

  function ReadObject(json: string, key: string): Option<string> {
    match ValueText(json, key)
    case None => None
    case Some(text) => if text == "" || text[0] != '{' then None else ObjectText(text, 0, false, false, "")
  }

  /** json_object. */
  method JsonObject(json: string, key: string) returns (r: Option<string>)
    ensures r == ReadObject(json, key)
  {
    var start := FindValue(json, key);
    if start.None? { return None; }
    var first := start.value;
    if first >= |json| || json[first] != '{' { return None; }
    var depth: nat, inString, escaped := 0, false, false;
    var i := first;
    assert json[first..i] == "";
    while i < |json|
      invariant first <= i <= |json|
      invariant ReadObject(json, key) == ObjectText(json[i..], depth, inString, escaped, json[first..i])
    {
      var c := json[i];
      assert json[i..][1..] == json[i + 1..] && json[first..i] + [c] == json[first..i + 1];
      i := i + 1;
      if escaped {
        escaped := false;
      } else if inString && c == '\\' {
        escaped := true;
      } else if c == '"' {
        inString := !inString;
      } else if inString {
      } else if c == '{' {
        depth := (depth + 1) % UINT32;
      } else if c == '}' {
        if depth == 0 { return None; }
        depth := depth - 1;
        if depth == 0 { return Some(json[first..i]); }
      }
    }
    r := None;
  }
}
