/** What the JSON readers recover from what the writer prints. */
module JsonRoundTrip {
  import opened JsonScan
  import opened Words
  import opened Wrappers

  // ---- Printed documents

  datatype Value = Str(s: string) | Raw(text: string) | Obj(fields: Fields)

  /** Fields in printing order; lead is the white space before a key or before the closing brace. */
  datatype Fields = End(lead: string) | More(lead: string, key: string, value: Value, rest: Fields)

  function Quoted(s: string): string { "\"" + Escape(s) + "\"" }

  function Print(v: Value): string
    decreases v, 0
  {
    match v
    case Str(s) => Quoted(s)
    case Raw(text) => text
    case Obj(fields) => "{" + PrintFields(fields)
  }

  function PrintFields(f: Fields): string
    decreases f, 0
  {
    match f
    case End(lead) => lead + "}"
    case More(lead, key, value, rest) => lead + (Quoted(key) + (": " + (Print(value) + PrintRest(rest))))
  }

  function PrintRest(rest: Fields): string
    decreases rest, 1
  {
    if rest.More? then "," + PrintFields(rest) else PrintFields(rest)
  }

  predicate NameChar(c: char) {
    'a' <= c <= 'z' || 'A' <= c <= 'Z' || '0' <= c <= '9' || c == '_'
  }

  /** A key as the writer uses them. */
  predicate IsName(key: string) {
    key != "" && forall i :: 0 <= i < |key| ==> NameChar(key[i])
  }

  predicate IsWhite(lead: string) {
    forall i :: 0 <= i < |lead| ==> IsSpace(lead[i])
  }

  /** A number, true, false or null. */
  predicate IsRaw(text: string) {
    text != "" && forall i :: 0 <= i < |text| ==> NameChar(text[i]) || text[i] in ".+-"
  }

  predicate WellFormed(v: Value) {
    match v
    case Str(_) => true
    case Raw(text) => IsRaw(text)
    case Obj(fields) => WellFormedFields(fields)
  }

  predicate WellFormedFields(f: Fields) {
    IsWhite(f.lead) && (f.More? ==> IsName(f.key) && WellFormed(f.value) && WellFormedFields(f.rest))
  }

  // ---- Strings

  predicate Plain(t: string) {
    forall i :: 0 <= i < |t| ==> t[i] != '"' && t[i] != '\\'
  }

  lemma {:induction false} UnescapeChar(c: char, rest: string, out: string)
    ensures StringText(EscapeChar(c) + rest, false, out) == StringText(rest, false, out + [c])
  {
    var text := EscapeChar(c) + rest;
    if c == '"' || c == '\\' {
      assert text[1..] == [c] + rest && ([c] + rest)[1..] == rest;
    } else {
      assert text[1..] == rest;
    }
  }

  /** Whatever follows, scanning an escaped string up to its closing quote gives the string back. */
  lemma {:induction false} UnescapeEscape(s: string, rest: string, out: string)
    ensures StringText(Escape(s) + ("\"" + rest), false, out) == Some(out + s)
  {
    if s == "" {
      assert Escape(s) + ("\"" + rest) == "\"" + rest;
      assert out + s == out;
    } else {
      var tail := Escape(s[1..]) + ("\"" + rest);
      assert Escape(s) + ("\"" + rest) == EscapeChar(s[0]) + tail;
      assert out + [s[0]] + s[1..] == out + s;
      hide StringText, Escape, EscapeChar;
      UnescapeChar(s[0], tail, out);
      UnescapeEscape(s[1..], rest, out + [s[0]]);
    }
  }

  // ---- Objects

  /** How deep the braces nest. */
  function Depth(v: Value): nat {
    if v.Obj? then 1 + DepthOf(v.fields) else 0
  }

  function DepthOf(f: Fields): nat {
    if f.End? then 0
    else
      var d, e := Depth(f.value), DepthOf(f.rest);
      if d >= e then d else e
  }

  predicate Unbraced(t: string) {
    forall i :: 0 <= i < |t| ==> t[i] != '"' && t[i] != '{' && t[i] != '}'
  }

  lemma {:induction false} PassesUnbraced(t: string, rest: string, depth: nat, taken: string)
    requires Unbraced(t)
    ensures ObjectText(t + rest, depth, false, false, taken) == ObjectText(rest, depth, false, false, taken + t)
  {
    if t == "" {
      assert t + rest == rest && taken + t == taken;
    } else {
      assert (t + rest)[0] == t[0] && (t + rest)[1..] == t[1..] + rest;
      PassesUnbraced(t[1..], rest, depth, taken + [t[0]]);
      assert taken + [t[0]] + t[1..] == taken + t;
    }
  }

  lemma {:induction false} PassesEscapedChar(c: char, rest: string, depth: nat, taken: string)
    ensures ObjectText(EscapeChar(c) + rest, depth, true, false, taken) ==
            ObjectText(rest, depth, true, false, taken + EscapeChar(c))
  {
    var text := EscapeChar(c) + rest;
    if c == '"' || c == '\\' {
      assert text[1..] == [c] + rest && ([c] + rest)[1..] == rest;
      assert taken + ['\\'] + [c] == taken + EscapeChar(c);
    } else {
      assert text[1..] == rest;
    }
  }

  lemma {:induction false} PassesEscaped(s: string, rest: string, depth: nat, taken: string)
    ensures ObjectText(Escape(s) + rest, depth, true, false, taken) ==
            ObjectText(rest, depth, true, false, taken + Escape(s))
  {
    hide ObjectText, EscapeChar;
    if s == "" {
      assert Escape(s) + rest == rest && taken + Escape(s) == taken;
    } else {
      var tail := Escape(s[1..]) + rest;
      var text := Escape(s) + rest;
      assert text == EscapeChar(s[0]) + tail;
      PassesEscapedChar(s[0], tail, depth, taken);
      PassesEscaped(s[1..], rest, depth, taken + EscapeChar(s[0]));
      assert taken + EscapeChar(s[0]) + Escape(s[1..]) == taken + Escape(s);
    }
  }

  lemma {:induction false} PassesQuoted(s: string, rest: string, depth: nat, taken: string)
    ensures ObjectText(Quoted(s) + rest, depth, false, false, taken) ==
            ObjectText(rest, depth, false, false, taken + Quoted(s))
  {
    var inner := Escape(s) + ("\"" + rest);
    assert Quoted(s) + rest == "\"" + inner;
    assert ("\"" + inner)[1..] == inner && ("\"" + rest)[1..] == rest;
    PassesEscaped(s, "\"" + rest, depth, taken + ['"']);
    assert taken + ['"'] + Escape(s) + ['"'] == taken + Quoted(s);
  }

  lemma {:induction false} PassesName(f: Fields, rest: string, depth: nat, taken: string)
    requires WellFormedFields(f) && f.More?
    ensures ObjectText(PrintFields(f) + rest, depth, false, false, taken) ==
            ObjectText(Print(f.value) + (PrintRest(f.rest) + rest), depth, false, false,
                       taken + f.lead + Quoted(f.key) + ": ")
  {
    var afterColon := Print(f.value) + (PrintRest(f.rest) + rest);
    assert PrintFields(f) + rest == f.lead + (Quoted(f.key) + (": " + afterColon));
    hide ObjectText, Quoted, Print, PrintFields, PrintRest;
    PassesUnbraced(f.lead, Quoted(f.key) + (": " + afterColon), depth, taken);
    PassesQuoted(f.key, ": " + afterColon, depth, taken + f.lead);
    PassesUnbraced(": ", afterColon, depth, taken + f.lead + Quoted(f.key));
  }

  /** Scanning a printed value at depth one or more passes over exactly that value. */
  lemma {:induction false} PassesValue(v: Value, rest: string, depth: nat, taken: string)
    requires WellFormed(v) && 1 <= depth && depth + Depth(v) < UINT32
    ensures ObjectText(Print(v) + rest, depth, false, false, taken) ==
            ObjectText(rest, depth, false, false, taken + Print(v))
    decreases v, 0
  {
    match v
    case Str(s) => PassesQuoted(s, rest, depth, taken);
    case Raw(text) => PassesUnbraced(text, rest, depth, taken);
    case Obj(fields) =>
      var inner := PrintFields(fields) + rest;
      assert Print(v) + rest == "{" + inner && ("{" + inner)[1..] == inner;
      ClosesFields(fields, rest, depth + 1, taken + ['{']);
      assert taken + ['{'] + PrintFields(fields) == taken + Print(v);
  }

  /** Scanning printed fields ends at their own closing brace. */
  lemma {:induction false} ClosesFields(f: Fields, rest: string, depth: nat, taken: string)
    requires WellFormedFields(f) && 1 <= depth && depth + DepthOf(f) < UINT32
    ensures ObjectText(PrintFields(f) + rest, depth, false, false, taken) ==
            if depth == 1 then Some(taken + PrintFields(f))
            else ObjectText(rest, depth - 1, false, false, taken + PrintFields(f))
    decreases f, 1
  {
    match f
    case End(lead) =>
      assert PrintFields(f) + rest == lead + ("}" + rest);
      PassesUnbraced(lead, "}" + rest, depth, taken);
      assert ("}" + rest)[1..] == rest && taken + lead + ['}'] == taken + PrintFields(f);
    case More(lead, key, value, more) =>
      var before := taken + lead + Quoted(key) + ": ";
      assert before + Print(value) + PrintRest(more) == taken + PrintFields(f);
      hide ObjectText, Quoted;
      PassesName(f, rest, depth, taken);
      PassesValue(value, PrintRest(more) + rest, depth, before);
      ClosesRest(more, rest, depth, before + Print(value));
  }

  lemma {:induction false} ClosesRest(more: Fields, rest: string, depth: nat, taken: string)
    requires WellFormedFields(more) && 1 <= depth && depth + DepthOf(more) < UINT32
    ensures ObjectText(PrintRest(more) + rest, depth, false, false, taken) ==
            if depth == 1 then Some(taken + PrintRest(more))
            else ObjectText(rest, depth - 1, false, false, taken + PrintRest(more))
    decreases more, 2
  {
    if more.More? {
      assert PrintRest(more) + rest == "," + (PrintFields(more) + rest);
      PassesUnbraced(",", PrintFields(more) + rest, depth, taken);
      ClosesFields(more, rest, depth, taken + ",");
      assert taken + "," + PrintFields(more) == taken + PrintRest(more);
    } else {
      ClosesFields(more, rest, depth, taken);
    }
  }

  /**
   Started at an object, json_object's scan returns exactly the printed object, whatever braces, quotes or
   backslashes its strings contain and whatever follows it, as long as the nesting fits the 32-bit counter.
   */
  lemma {:induction false} ObjectIsExact(f: Fields, rest: string)
    requires WellFormedFields(f) && DepthOf(f) + 1 < 0x1_0000_0000
    ensures ObjectText(Print(Obj(f)) + rest, 0, false, false, "") == Some(Print(Obj(f)))
  {
    var inner := PrintFields(f) + rest;
    assert Print(Obj(f)) + rest == "{" + inner && ("{" + inner)[1..] == inner;
    ClosesFields(f, rest, 1, "" + ['{']);
    assert "" + ['{'] + PrintFields(f) == Print(Obj(f));
  }

  // ---- Finding a key

  lemma {:induction false} PassesPlain(t: string, rest: string, needle: string)
    requires needle != "" && forall i :: 0 <= i < |t| ==> t[i] != needle[0]
    ensures After(t + rest, needle) == After(rest, needle)
  {
    if t == "" {
      assert t + rest == rest;
    } else {
      assert (t + rest)[0] == t[0] && (t + rest)[1..] == t[1..] + rest;
      PassesPlain(t[1..], rest, needle);
    }
  }

  /** Every quote but one in first place follows a backslash, as inside an escaped string. */
  predicate Inside(u: string) {
    forall i :: 0 < i < |u| && u[i] == '"' ==> u[i - 1] == '\\'
  }

  /** From the start of an escaped text, the key and a quote come next exactly when the text is the key. */
  lemma QuoteEndsKey(u: string, v: string, key: string)
    requires Inside(u) && (u != "" ==> u[0] != '"') && IsName(key)
    ensures key + "\"" <= u + ("\"" + v) <==> u == key
  {
    var text := u + ("\"" + v);
    assert Plain(key) by { assert forall i :: 0 <= i < |key| ==> NameChar(key[i]); }
    if u == key { assert text[..|key| + 1] == key + "\""; }
    assert |key| < |u| ==> text[|key|] == u[|key|] && text[|key| - 1] == u[|key| - 1];
    if key + "\"" <= text {
      var q := |key|;
      assert text[q] == (key + "\"")[q] == '"';
      forall i | 0 <= i < q ensures text[i] == key[i] && NameChar(text[i]) { assert text[i] == (key + "\"")[i]; }
      assert text[|u|] == '"';
      assert |u| >= q;
      assert u == text[..q];
    }
  }

  /** The text ends with a quote followed by the key. */
  predicate EndsLike(s: string, key: string) {
    |s| > |key| && s[|s| - |key| - 1] == '"' && s[|s| - |key|..] == key
  }

  lemma StartsNeedle(text: string, key: string)
    ensures Needle(key) <= "\"" + text <==> key + "\"" <= text
  {
    var longer, needle, short := "\"" + text, Needle(key), key + "\"";
    assert needle == "\"" + short;
    if needle <= longer {
      forall i | 0 <= i < |short| ensures short[i] == text[i] { assert needle[i + 1] == longer[i + 1]; }
    }
    if short <= text {
      forall i | 0 <= i < |needle| ensures needle[i] == longer[i] {
        if i > 0 { assert short[i - 1] == text[i - 1]; }
      }
    }
  }

  lemma EndsLikeStep(u: string, key: string)
    requires u != ""
    ensures EndsLike(u, key) <==> (u[0] == '"' && u[1..] == key) || EndsLike(u[1..], key)
  {
    if |u| > |key| + 1 {
      var n := |u| - |key|;
      assert u[n..] == u[1..][n - 1..];
      assert u[n - 1] == u[1..][n - 2];
    } else if |u| == |key| + 1 {
      assert u[|u| - |key|..] == u[1..];
    }
  }

  /** Searching from inside an escaped text, up to the quote that closes it. */
  lemma {:induction false} SearchInside(u: string, v: string, key: string)
    requires Inside(u) && IsName(key)
    ensures After(u + ("\"" + v), Needle(key)) ==
            if EndsLike(u, key) then Some(v) else After("\"" + v, Needle(key))
  {
    if u == "" {
      assert u + ("\"" + v) == "\"" + v;
    } else {
      var text := u[1..] + ("\"" + v);
      assert u + ("\"" + v) == [u[0]] + text && ([u[0]] + text)[1..] == text;
      SearchInside(u[1..], v, key);
      EndsLikeStep(u, key);
      if u[0] == '"' {
        StartsNeedle(text, key);
        QuoteEndsKey(u[1..], v, key);
        if u[1..] == key { assert (u + ("\"" + v))[|Needle(key)|..] == v; }
      } else {
        assert Needle(key)[0] == '"' && ([u[0]] + text)[0] == u[0];
      }
    }
  }

  /** The string is the key, or ends with a quote followed by the key: printed, it looks like the quoted key. */
  predicate Hits(s: string, key: string) {
    s == key || EndsLike(s, key)
  }

  predicate AllName(key: string) {
    forall i :: 0 <= i < |key| ==> NameChar(key[i])
  }

  lemma {:induction false} EscapeIsInside(s: string)
    ensures Inside(Escape(s)) && (Escape(s) != "" ==> Escape(s)[0] != '"')
  {
    if s == "" {
    } else {
      EscapeIsInside(s[1..]);
      var tail := Escape(s[1..]);
      var n := |EscapeChar(s[0])|;
      forall i | 0 < i < |Escape(s)| && Escape(s)[i] == '"' ensures Escape(s)[i - 1] == '\\' {
        if i >= n { assert Escape(s)[i] == tail[i - n]; assert i > n ==> Escape(s)[i - 1] == tail[i - n - 1]; }
      }
    }
  }

  lemma {:induction false} EscapeIsKey(s: string, key: string)
    requires AllName(key)
    ensures Escape(s) == key <==> s == key
  {
    if s != "" && key != "" {
      EscapeIsKey(s[1..], key[1..]);
      assert s == [s[0]] + s[1..] && key == [key[0]] + key[1..];
      assert Escape(s)[0] == EscapeChar(s[0])[0];
      if s[0] != '"' && s[0] != '\\' { assert Escape(s)[1..] == Escape(s[1..]); }
      assert NameChar(key[0]);
    }
  }

  lemma {:induction false} EscapeSnoc(s: string, c: char)
    ensures Escape(s + [c]) == Escape(s) + EscapeChar(c)
  {
    EscapeOf(s, c);
  }

  lemma EndsLikeSnoc(x: string, k: string, c: char)
    ensures EndsLike(x + [c], k + [c]) <==> EndsLike(x, k)
  {
    var y, l := x + [c], k + [c];
    if |x| > |k| {
      assert y[|y| - |l|..] == x[|x| - |k|..] + [c];
      assert y[|y| - |l| - 1] == x[|x| - |k| - 1];
      if y[|y| - |l|..] == l { assert x[|x| - |k|..] == y[|y| - |l|..][..|k|] == l[..|k|] == k; }
    }
  }

  lemma EndsLikeLast(x: string, k: string)
    requires k != "" && EndsLike(x, k)
    ensures x[|x| - 1] == k[|k| - 1]
  {
    assert x[|x| - |k|..][|k| - 1] == x[|x| - 1];
  }

  lemma {:induction false} EscapeEndsLike(s: string, key: string)
    requires AllName(key)
    ensures EndsLike(Escape(s), key) <==> EndsLike(s, key)
    decreases |s|
  {
    if s == "" {
    } else {
      var s', d := s[..|s| - 1], s[|s| - 1];
      assert s == s' + [d];
      EscapeSnoc(s', d);
      var e := Escape(s);
      assert e[|e| - 1] == d;
      if key == "" {
        assert e[|e|..] == "" && s[|s|..] == "";
      } else {
        var k', c := key[..|key| - 1], key[|key| - 1];
        assert key == k' + [c] && NameChar(c);
        if d == c {
          EscapeEndsLike(s', k');
          EndsLikeSnoc(s', k', c);
          EndsLikeSnoc(Escape(s'), k', c);
        } else {
          if EndsLike(e, key) { EndsLikeLast(e, key); }
          if EndsLike(s, key) { EndsLikeLast(s, key); }
        }
      }
    }
  }

  lemma NoKeyStart(v: string, key: string)
    requires IsName(key) && (v != "" ==> !NameChar(v[0]))
    ensures !(key + "\"" <= v)
  {
    assert (key + "\"")[0] == key[0];
  }

  /** A printed string is passed over unless it looks like the quoted key; then the search ends at its end. */
  lemma {:induction false} SearchString(s: string, v: string, key: string)
    requires IsName(key) && (v != "" ==> !NameChar(v[0]))
    ensures After(Quoted(s) + v, Needle(key)) == if Hits(s, key) then Some(v) else After(v, Needle(key))
  {
    var e := Escape(s);
    var text := e + ("\"" + v);
    assert Quoted(s) + v == "\"" + text && ("\"" + text)[1..] == text;
    EscapeIsInside(s);
    EscapeIsKey(s, key);
    EscapeEndsLike(s, key);
    StartsNeedle(text, key);
    QuoteEndsKey(e, v, key);
    SearchInside(e, v, key);
    StartsNeedle(v, key);
    NoKeyStart(v, key);
    assert ("\"" + v)[1..] == v;
    if e == key { assert ("\"" + text)[|Needle(key)|..] == v; }
  }

  // ---- Which field a reader reads

  /**
   The field whose value is read for a key: the first of that name, unless an earlier string looks like the
   quoted key; then the field after that string.
   */
  function Located(f: Fields, key: string): (n: Option<Fields>)
    ensures n.Some? ==> n.value.More?
  {
    if f.End? then None
    else if f.key == key then Some(f)
    else if f.value.Str? && Hits(f.value.s, key) then (if f.rest.More? then Some(f.rest) else None)
    else Located(f.rest, key)
  }

  /** No object comes before the field that is read. */
  predicate FlatBefore(f: Fields, key: string) {
    f.End? || f.key == key || (!f.value.Obj? && ((f.value.Str? && Hits(f.value.s, key)) || FlatBefore(f.rest, key)))
  }

  /** What follows the colon of field n, with more text after the fields. */
  function FromColon(n: Fields, tail: string): string
    requires n.More?
  {
    " " + (Print(n.value) + (PrintRest(n.rest) + tail))
  }

  lemma {:induction false} PrintedField(f: Fields, tail: string)
    requires f.More?
    ensures PrintFields(f) + tail == f.lead + (Quoted(f.key) + (":" + FromColon(f, tail)))
  {
  }

  lemma NameIsPrinted(key: string)
    requires AllName(key)
    ensures Quoted(key) == "\"" + key + "\"" && forall i :: 0 <= i < |Quoted(key)| ==> Quoted(key)[i] != ':'
  {
    EscapeIsKey(key, key);
  }

  lemma {:induction false} ColonFirst(t: string, value: string)
    requires forall i :: 0 <= i < |t| ==> t[i] != ':'
    ensures After(t + (":" + value), ":") == Some(value)
  {
    PassesPlain(t, ":" + value, ":");
    assert (":" + value)[1..] == value;
  }

  /** From before the white space of a field, the next colon is that field's. */
  lemma {:induction false} NextColon(f: Fields, tail: string)
    requires WellFormedFields(f) && f.More?
    ensures After(PrintRest(f) + tail, ":") == Some(FromColon(f, tail))
  {
    var t, value := "," + f.lead + Quoted(f.key), FromColon(f, tail);
    assert PrintRest(f) + tail == t + (":" + value) by { PrintedField(f, tail); }
    assert forall i :: 0 <= i < |t| ==> t[i] != ':' by { NameIsPrinted(f.key); }
    hide After, PrintRest, PrintFields, FromColon;
    ColonFirst(t, value);
  }

  lemma {:induction false} NoColonAtEnd(f: Fields)
    requires f.End? && IsWhite(f.lead)
    ensures After(PrintRest(f), ":") == None
  {
    var t := f.lead + "}";
    PassesPlain(t, "", ":");
    assert t + "" == PrintRest(f);
  }

  lemma NameHitsItself(name: string, key: string)
    requires AllName(name)
    ensures Hits(name, key) <==> name == key
  {
  }

  /** Searching a field ends at its name if that is the key, and goes on with its value otherwise. */
  lemma {:induction false} SearchName(f: Fields, tail: string, key: string)
    requires WellFormedFields(f) && f.More? && IsName(key)
    ensures After(PrintFields(f) + tail, Needle(key)) ==
            if f.key == key then Some(":" + FromColon(f, tail))
            else After(Print(f.value) + (PrintRest(f.rest) + tail), Needle(key))
  {
    var afterName := ":" + FromColon(f, tail);
    var afterColon := Print(f.value) + (PrintRest(f.rest) + tail);
    assert PrintFields(f) + tail == f.lead + (Quoted(f.key) + afterName) by { PrintedField(f, tail); }
    assert afterName == ": " + afterColon;
    hide Print, PrintFields, PrintRest, FromColon, Quoted, After;
    PassesPlain(f.lead, Quoted(f.key) + afterName, Needle(key));
    SearchString(f.key, afterName, key);
    NameHitsItself(f.key, key);
    PassesPlain(": ", afterColon, Needle(key));
  }

  lemma {:induction false} RestStart(rest: Fields, tail: string)
    requires WellFormedFields(rest)
    ensures PrintRest(rest) + tail != "" && !NameChar((PrintRest(rest) + tail)[0])
  {
    if rest.End? && rest.lead != "" { assert (PrintRest(rest) + tail)[0] == rest.lead[0]; }
  }

  lemma {:induction false} SearchValue(f: Fields, tail: string, key: string)
    requires WellFormedFields(f) && f.More? && !f.value.Obj? && IsName(key)
    ensures var rest := PrintRest(f.rest) + tail;
      After(Print(f.value) + rest, Needle(key)) ==
      if f.value.Str? && Hits(f.value.s, key) then Some(rest) else After(rest, Needle(key))
  {
    var rest := PrintRest(f.rest) + tail;
    RestStart(f.rest, tail);
    if f.value.Str? { SearchString(f.value.s, rest, key); } else { PassesPlain(f.value.text, rest, Needle(key)); }
  }

  lemma {:induction false} SearchRest(rest: Fields, tail: string, key: string)
    requires IsName(key)
    ensures After(PrintRest(rest) + tail, Needle(key)) == After(PrintFields(rest) + tail, Needle(key))
  {
    if rest.More? {
      assert PrintRest(rest) + tail == "," + (PrintFields(rest) + tail);
      PassesPlain(",", PrintFields(rest) + tail, Needle(key));
    }
  }

  lemma {:induction false} NothingAtEnd(f: Fields, key: string)
    requires WellFormedFields(f) && f.End?
    ensures ColonText(PrintFields(f) + "", key) == None
  {
    PassesPlain(f.lead + "}", "", Needle(key));
    assert PrintFields(f) + "" == f.lead + "}" + "";
  }

  lemma {:induction false} LocatesField(f: Fields, tail: string, key: string)
    requires WellFormedFields(f) && FlatBefore(f, key) && IsName(key)
    ensures Located(f, key).Some? ==>
              ColonText(PrintFields(f) + tail, key) == Some(FromColon(Located(f, key).value, tail))
    ensures Located(f, key).None? && tail == "" ==> ColonText(PrintFields(f) + tail, key) == None
  {
    hide Print, PrintFields, PrintRest, FromColon, After, Needle;
    match f
    case End(lead) =>
      if tail == "" { NothingAtEnd(f, key); }
    case More(lead, name, value, rest) =>
      SearchName(f, tail, key);
      if name == key {
        ColonFirst("", FromColon(f, tail));
        assert "" + (":" + FromColon(f, tail)) == ":" + FromColon(f, tail);
      } else {
        SearchValue(f, tail, key);
        if value.Str? && Hits(value.s, key) {
          if rest.More? {
            NextColon(rest, tail);
          } else if tail == "" {
            NoColonAtEnd(rest);
            assert PrintRest(rest) + tail == PrintRest(rest);
          }
        } else {
          SearchRest(rest, tail, key);
          LocatesField(rest, tail, key);
        }
      }
  }

  lemma {:induction false} ValueStart(v: Value)
    requires WellFormed(v)
    ensures Print(v) != "" && !IsSpace(Print(v)[0])
    ensures Print(v)[0] == '"' <==> v.Str?
    ensures Print(v)[0] == '{' <==> v.Obj?
  {
  }

  lemma {:induction false} SpaceBeforeValue(v: Value, rest: string)
    requires WellFormed(v)
    ensures SkipSpaces(" " + (Print(v) + rest)) == Print(v) + rest
  {
    var text := Print(v) + rest;
    assert (" " + text)[1..] == text;
    ValueStart(v);
    assert text[0] == Print(v)[0];
  }

  lemma {:induction false} LocatedIsWellFormed(f: Fields, key: string)
    requires WellFormedFields(f) && Located(f, key).Some?
    ensures WellFormedFields(Located(f, key).value) && DepthOf(Located(f, key).value) <= DepthOf(f)
  {
    if f.key != key && !(f.value.Str? && Hits(f.value.s, key)) { LocatedIsWellFormed(f.rest, key); }
  }

  /** In a printed object, with more text after it, the search reaches what follows the located field's colon. */
  lemma {:induction false} FindsColon(f: Fields, tail: string, key: string)
    requires WellFormedFields(f) && FlatBefore(f, key) && IsName(key)
    ensures Located(f, key).Some? ==>
              ColonText(Print(Obj(f)) + tail, key) == Some(FromColon(Located(f, key).value, tail))
    ensures Located(f, key).None? && tail == "" ==> ColonText(Print(Obj(f)) + tail, key) == None
  {
    hide Located, FlatBefore, FromColon;
    assert Print(Obj(f)) + tail == "{" + (PrintFields(f) + tail);
    PassesPlain("{", PrintFields(f) + tail, Needle(key));
    LocatesField(f, tail, key);
  }

  /** Read from a printed object, the value's own printed text comes next. */
  lemma {:induction false} ReachesValue(f: Fields, tail: string, key: string)
    requires WellFormedFields(f) && FlatBefore(f, key) && IsName(key)
    ensures var json := Print(Obj(f)) + tail;
      && (Located(f, key).Some? ==>
            var n := Located(f, key).value;
            ValueText(json, key) == Some(Print(n.value) + (PrintRest(n.rest) + tail)))
      && (Located(f, key).None? && tail == "" ==> ValueText(json, key) == None)
  {
    FindsColon(f, tail, key);
    if Located(f, key).Some? {
      var n := Located(f, key).value;
      LocatedIsWellFormed(f, key);
      SpaceBeforeValue(n.value, PrintRest(n.rest) + tail);
    }
  }

  /** What json_string makes of a printed value. */
  lemma {:induction false} StringOf(v: Value, rest: string)
    requires WellFormed(v)
    ensures var text := Print(v) + rest;
      && text != ""
      && (text[0] == '"' <==> v.Str?)
      && (v.Str? ==> StringText(text[1..], false, "") == Some(v.s))
  {
    var text := Print(v) + rest;
    ValueStart(v);
    assert text[0] == Print(v)[0];
    if v.Str? {
      assert text[1..] == Escape(v.s) + ("\"" + rest);
      UnescapeEscape(v.s, rest, "");
      assert "" + v.s == v.s;
    }
  }

  /**
   json_string on a printed object returns the string of the located field, exactly as it was before
   escaping, and nothing when that field holds no string or no field is located.
   */
  lemma {:induction false} ReadsString(f: Fields, key: string)
    requires WellFormedFields(f) && FlatBefore(f, key) && IsName(key)
    ensures ReadString(Print(Obj(f)), key) ==
            match Located(f, key) {
              case None => None
              case Some(n) => if n.value.Str? then Some(n.value.s) else None
            }
  {
    hide Print, PrintRest, Located, FlatBefore, ValueText, StringText;
    ReachesValue(f, "", key);
    assert Print(Obj(f)) + "" == Print(Obj(f));
    if Located(f, key).Some? {
      LocatedIsWellFormed(f, key);
      var n := Located(f, key).value;
      StringOf(n.value, PrintRest(n.rest) + "");
    }
  }

  /** json_object returns exactly the printed object of the located field, whatever the document continues with. */
  lemma {:induction false} ReadsObject(f: Fields, tail: string, key: string)
    requires WellFormedFields(f) && FlatBefore(f, key) && IsName(key) && DepthOf(f) < 0x1_0000_0000
    requires Located(f, key).Some? && Located(f, key).value.value.Obj?
    ensures ReadObject(Print(Obj(f)) + tail, key) == Some(Print(Located(f, key).value.value))
  {
    ReachesValue(f, tail, key);
    LocatedIsWellFormed(f, key);
    var n := Located(f, key).value;
    ValueStart(n.value);
    var rest := PrintRest(n.rest) + tail;
    assert (Print(n.value) + rest)[0] == Print(n.value)[0];
    ObjectIsExact(n.value.fields, rest);
  }

  function Flag(b: bool): Value { Raw(if b then "true" else "false") }

  /** json_bool reads a located flag, and nothing from a located string. */
  lemma {:induction false} ReadsBool(f: Fields, key: string)
    requires WellFormedFields(f) && FlatBefore(f, key) && IsName(key) && Located(f, key).Some?
    ensures Located(f, key).value.value == Raw("true") ==> ReadBool(Print(Obj(f)), key) == Some(true)
    ensures Located(f, key).value.value == Raw("false") ==> ReadBool(Print(Obj(f)), key) == Some(false)
    ensures Located(f, key).value.value.Str? ==> ReadBool(Print(Obj(f)), key) == None
  {
    ReachesValue(f, "", key);
    assert Print(Obj(f)) + "" == Print(Obj(f));
    var n := Located(f, key).value;
    var rest := PrintRest(n.rest) + "";
    if n.value.Str? { assert (Print(n.value) + rest)[0] == '"'; }
    if n.value == Flag(true) { assert "true" <= "true" + rest; }
    if n.value == Flag(false) { assert "false" <= "false" + rest && ("false" + rest)[0] == 'f'; }
  }

  // ---- Every field of a flat object

  function Count(f: Fields): nat {
    if f.End? then 0 else 1 + Count(f.rest)
  }

  /** What is left of the fields after the first k. */
  function Suffix(f: Fields, k: nat): (n: Fields)
    requires k <= Count(f)
    ensures Count(n) == Count(f) - k
  {
    if k == 0 then f else Suffix(f.rest, k - 1)
  }

  /** Printed, this value can be taken for the quoted key. */
  predicate LooksLike(v: Value, key: string) {
    v.Str? && Hits(v.s, key)
  }

  /** The p-th field is the first of its name, and no object comes before it. */
  ghost predicate FirstOfName(f: Fields, p: nat) {
    && p < Count(f)
    && forall i :: 0 <= i < p ==> Suffix(f, i).key != Suffix(f, p).key && !Suffix(f, i).value.Obj?
  }

  /** No string before the field looks like its key, except perhaps the one directly in front of it. */
  ghost predicate Undisturbed(f: Fields, p: nat)
    requires p < Count(f)
  {
    forall i :: 0 <= i < p - 1 ==> !LooksLike(Suffix(f, i).value, Suffix(f, p).key)
  }

  /** Which field is read for the name of the p-th. */
  function ReadAt(f: Fields, key: string, p: nat): (q: nat)
    requires p < Count(f)
    ensures q <= p
  {
    if p == 0 then 0 else if LooksLike(f.value, key) then 1 else 1 + ReadAt(f.rest, key, p - 1)
  }

  lemma {:induction false} UndisturbedRest(f: Fields, p: nat)
    requires 0 < p < Count(f)
    ensures Undisturbed(f, p) <==>
              Undisturbed(f.rest, p - 1) && (p == 1 || !LooksLike(f.value, Suffix(f, p).key))
  {
    hide LooksLike;
    assert Suffix(f, 0) == f;
    forall i | 0 <= i < p - 1 ensures Suffix(f.rest, i) == Suffix(f, i + 1) {}
    if Undisturbed(f, p) {
      forall i | 0 <= i < p - 2 ensures !LooksLike(Suffix(f.rest, i).value, Suffix(f, p).key) {
        assert !LooksLike(Suffix(f, i + 1).value, Suffix(f, p).key);
      }
    } else {
      var i :| 0 <= i < p - 1 && LooksLike(Suffix(f, i).value, Suffix(f, p).key);
      if i > 0 { assert Suffix(f, i) == Suffix(f.rest, i - 1); }
    }
  }

  lemma {:induction false} LocatedAt(f: Fields, p: nat)
    requires FirstOfName(f, p)
    ensures var key := Suffix(f, p).key;
      && Located(f, key) == Some(Suffix(f, ReadAt(f, key, p))) && FlatBefore(f, key)
      && (ReadAt(f, key, p) == p <==> Undisturbed(f, p))
  {
    hide Hits;
    var key := Suffix(f, p).key;
    if p == 0 {
    } else {
      assert Suffix(f, 0) == f;
      forall i | 0 <= i < p - 1
        ensures Suffix(f.rest, i) == Suffix(f, i + 1)
        ensures Suffix(f.rest, i).key != key && !Suffix(f.rest, i).value.Obj?
      {
        assert Suffix(f, i + 1).key != key;
      }
      LocatedAt(f.rest, p - 1);
      UndisturbedRest(f, p);
    }
  }

  /** An earlier field leaves more text after its colon. */
  lemma {:induction false} EarlierIsLonger(f: Fields, i: nat, j: nat, tail: string)
    requires i < j < Count(f)
    ensures |FromColon(Suffix(f, i), tail)| > |FromColon(Suffix(f, j), tail)|
    decreases j
  {
    if i > 0 {
      EarlierIsLonger(f.rest, i - 1, j - 1, tail);
    } else {
      assert PrintRest(f.rest) == "," + PrintFields(f.rest);
      PrintedField(f.rest, tail);
      assert |FromColon(f, tail)| > |FromColon(f.rest, tail)|;
      if j > 1 { EarlierIsLonger(f.rest, 0, j - 1, tail); }
    }
  }

  /**
   What a reader finds after the colon is the text of the field asked for if and only if no string before it
   looks like its key, or only the one directly in front of it.
   */
  lemma {:induction false} FieldIsReadIff(f: Fields, p: nat, tail: string)
    requires WellFormedFields(f) && FirstOfName(f, p) && IsName(Suffix(f, p).key)
    ensures ColonText(Print(Obj(f)) + tail, Suffix(f, p).key) == Some(FromColon(Suffix(f, p), tail))
       <==> Undisturbed(f, p)
  {
    hide Located, FlatBefore, FromColon, ColonText, Undisturbed, PrintFields, PrintRest;
    var key := Suffix(f, p).key;
    LocatedAt(f, p);
    FindsColon(f, tail, key);
    var q := ReadAt(f, key, p);
    if q < p { EarlierIsLonger(f, q, p, tail); }
  }

  lemma {:induction false} NamesAreWellFormed(f: Fields, p: nat)
    requires WellFormedFields(f) && p < Count(f)
    ensures IsName(Suffix(f, p).key)
  {
    if p == 0 {
    } else {
      NamesAreWellFormed(f.rest, p - 1);
    }
  }

  // ---- The report and its reader

  /** The latest_run object: path, attribution and internal_clean come first, in this order. */
  function LatestRun(path: string, attribution: string, clean: bool, more: Fields): Fields {
    More("", "path", Str(path),
      More(" ", "attribution", Str(attribution),
        More(" ", "internal_clean", Flag(clean), more)))
  }

  /** Fields printed before latest_run. */
  function Prepend(before: seq<(string, string, Value)>, f: Fields): Fields {
    if before == [] then f
    else More(before[0].0, before[0].1, before[0].2, Prepend(before[1..], f))
  }

  predicate Clear(before: seq<(string, string, Value)>, key: string) {
    forall i :: 0 <= i < |before| ==>
      before[i].1 != key && !before[i].2.Obj? && (before[i].2.Str? ==> !Hits(before[i].2.s, key))
  }

  lemma {:induction false} LocatedPastClear(before: seq<(string, string, Value)>, f: Fields, key: string)
    requires Clear(before, key)
    ensures Located(Prepend(before, f), key) == Located(f, key)
    ensures FlatBefore(Prepend(before, f), key) == FlatBefore(f, key)
  {
    if before == [] {
    } else {
      LocatedPastClear(before[1..], f, key);
    }
  }

  /** The report: some fields, latest_run, and whatever is printed after it. */
  function Report(before: seq<(string, string, Value)>, run: Fields, after: Fields): Fields {
    Prepend(before, More("\n  ", "latest_run", Obj(run), after))
  }

  /** Any path and attribution will do. */
  lemma {:induction false} RunIsWellFormed(path: string, attribution: string, clean: bool, more: Fields)
    requires WellFormedFields(more)
    ensures WellFormedFields(LatestRun(path, attribution, clean, more))
  {
    assert IsName("path") && IsName("attribution") && IsName("internal_clean");
    var run := LatestRun(path, attribution, clean, more);
    assert WellFormedFields(run.rest.rest);
    assert WellFormedFields(run.rest);
  }

  lemma RunIsRead(path: string, attribution: string, clean: bool, more: Fields)
    requires WellFormedFields(LatestRun(path, attribution, clean, more))
    ensures var text := Print(Obj(LatestRun(path, attribution, clean, more)));
      && ReadString(text, "attribution") == Some(attribution)
      && (ReadBool(text, "internal_clean") == Some(clean) <==> !Hits(path, "internal_clean"))
  {
    hide Print, PrintFields, ReadString, ReadBool, Hits;
    var run := LatestRun(path, attribution, clean, more);
    assert IsName("attribution") && IsName("internal_clean");
    assert Located(run, "attribution") == Some(run.rest);
    ReadsString(run, "attribution");
    assert Located(run.rest.rest, "internal_clean") == Some(run.rest.rest);
    assert Located(run.rest, "internal_clean") == Some(run.rest.rest);
    assert Located(run, "internal_clean") ==
           Some(if Hits(path, "internal_clean") then run.rest else run.rest.rest);
    ReadsBool(run, "internal_clean");
  }

  /**
   The health gate reads back what the attribution tool printed. latest_run is cut out exactly, and of any
   field of it that is the first of its name the gate finds the text if and only if no string before it looks
   like its quoted key, or only the one directly in front of it.
   */
  lemma {:induction false} GateReadsLatestRun(before: seq<(string, string, Value)>, after: Fields, run: Fields)
    requires Clear(before, "latest_run")
    requires WellFormedFields(Report(before, run, after)) && DepthOf(Report(before, run, after)) < 0x1_0000_0000
    ensures var text := Print(Obj(run));
      && ReadObject(Print(Obj(Report(before, run, after))) + "\n", "latest_run") == Some(text)
      && forall p :: FirstOfName(run, p) ==>
           (ColonText(text, Suffix(run, p).key) == Some(FromColon(Suffix(run, p), "")) <==> Undisturbed(run, p))
  {
    hide Print, ColonText, ReadObject, FromColon, Undisturbed;
    var report := Report(before, run, after);
    var text := Print(Obj(run));
    LocatedPastClear(before, More("\n  ", "latest_run", Obj(run), after), "latest_run");
    ReadsObject(report, "\n", "latest_run");
    LocatedIsWellFormed(report, "latest_run");
    forall p | FirstOfName(run, p)
      ensures ColonText(text, Suffix(run, p).key) == Some(FromColon(Suffix(run, p), "")) <==> Undisturbed(run, p)
    {
      NamesAreWellFormed(run, p);
      FieldIsReadIff(run, p, "");
      assert text + "" == text;
    }
  }

  /**
   In particular the attribution, second after the path, is recovered for every path, even one that looks
   like its quoted key; the flag that follows is recovered if and only if the path does not look like its key.
   */
  lemma GateReadsAttribution(before: seq<(string, string, Value)>, after: Fields,
                             path: string, attribution: string, clean: bool, more: Fields)
    requires Clear(before, "latest_run")
    requires WellFormedFields(Report(before, LatestRun(path, attribution, clean, more), after))
    requires DepthOf(Report(before, LatestRun(path, attribution, clean, more), after)) < 0x1_0000_0000
    ensures var text := ReadObject(
        Print(Obj(Report(before, LatestRun(path, attribution, clean, more), after))) + "\n", "latest_run");
      && text.Some? && ReadString(text.value, "attribution") == Some(attribution)
      && (ReadBool(text.value, "internal_clean") == Some(clean) <==> !Hits(path, "internal_clean"))
  {
    var run := LatestRun(path, attribution, clean, more);
    GateReadsLatestRun(before, after, run);
    LocatedPastClear(before, More("\n  ", "latest_run", Obj(run), after), "latest_run");
    LocatedIsWellFormed(Report(before, run, after), "latest_run");
    RunIsRead(path, attribution, clean, more);
  }
}
