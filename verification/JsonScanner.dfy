/** The scanner of the command line interface, and that it takes back what the writer wrote. */
module JsonScanner {
  import opened Basics
  import opened JsonText

  datatype Parsed = Parsed(value: string, rest: string)

  predicate IsBlank(c: char) {
    c == ' ' || c == '\t' || c == '\n' || c == '\r'
  }

  function SkipBlanks(s: string): (r: string)
    ensures |r| <= |s| && (r != "" ==> !IsBlank(r[0]))
  {
    if s != "" && IsBlank(s[0]) then SkipBlanks(s[1..]) else s
  }

  /** What a backslash and the characters after it stand for: the character, and how many characters they are.
      A `\uXXXX` stands for a question mark, whatever it says. */
  function Unescaped(s: string): Option<(char, nat)>
    requires s != "" && s[0] == '\\'
  {
    if |s| < 2 then None
    else if s[1] == '"' || s[1] == '\\' || s[1] == '/' then Some((s[1], 2))
    else if s[1] == 'n' then Some(('\n', 2))
    else if s[1] == 'r' then Some(('\r', 2))
    else if s[1] == 't' then Some(('\t', 2))
    else if s[1] == 'u' then if |s| < 6 then None else Some(('?', 6))
    else None
  }

  /** The rest of a string after its opening quote. */
  function ParseBody(s: string): (r: Option<Parsed>)
    ensures r.Some? ==> |r.value.rest| < |s|
    decreases |s|
  {
    if s == "" then None
    else if s[0] == '"' then Some(Parsed("", s[1..]))
    else if s[0] != '\\' then Prepend(s[0], ParseBody(s[1..]))
    else
      var u := Unescaped(s);
      if u == None then None else Prepend(u.value.0, ParseBody(s[u.value.1..]))
  }

  function Prepend(c: char, r: Option<Parsed>): Option<Parsed> {
    if r == None then None else Some(Parsed([c] + r.value.value, r.value.rest))
  }

  function ParseString(s: string): (r: Option<Parsed>)
    ensures r.Some? ==> |r.value.rest| < |s|
  {
    if s == "" || s[0] != '"' then None else ParseBody(s[1..])
  }

  /** Looks for the bracket that closes the first one, counting one kind of bracket only and passing over strings. */
  function FindClose(s: string, open: char, close: char, depth: int, inString: bool, escape: bool): (r: Option<string>)
    ensures r.Some? ==> |r.value| < |s|
    decreases |s|
  {
    if s == "" then None
    else if inString then
      if escape then FindClose(s[1..], open, close, depth, true, false)
      else if s[0] == '\\' then FindClose(s[1..], open, close, depth, true, true)
      else FindClose(s[1..], open, close, depth, s[0] != '"', false)
    else if s[0] == '"' then FindClose(s[1..], open, close, depth, true, escape)
    else if s[0] == open then FindClose(s[1..], open, close, depth + 1, false, escape)
    else if s[0] == close then
      if depth - 1 == 0 then Some(s[1..]) else FindClose(s[1..], open, close, depth - 1, false, escape)
    else FindClose(s[1..], open, close, depth, false, escape)
  }

  /** `skip_value`: what follows one value of any kind. */
  function SkipValue(s: string): (r: Option<string>)
    ensures r.Some? ==> |r.value| < |s|
  {
    var t := SkipBlanks(s);
    if t == "" then None
    else if t[0] == '"' then
      var p := ParseString(t);
      if p == None then None else Some(p.value.rest)
    else if t[0] == '-' || IsDigit(t[0]) then
      var used := ScanNumber(t).used;
      if used == 0 then None else Some(t[used..])
    else if "true" <= t then Some(t[4..])
    else if "false" <= t then Some(t[5..])
    else if "null" <= t then Some(t[4..])
    else if t[0] == '{' then FindClose(t, '{', '}', 0, false, false)
    else if t[0] == '[' then FindClose(t, '[', ']', 0, false, false)
    else None
  }

  // Strings read back.

  /** What comes back of a character: a control character other than newline, return and tab does not. */
  function LossyChar(c: char): char {
    if c as int < 0x20 && c != '\n' && c != '\r' && c != '\t' then '?' else c
  }

  function Lossy(s: string): string {
    seq(|s|, i requires 0 <= i < |s| => LossyChar(s[i]))
  }

  lemma ParseEscapedChar(c: char, rest: string)
    ensures ParseBody(EscapeChar(c) + rest) == Prepend(LossyChar(c), ParseBody(rest))
  {
    var e := EscapeChar(c);
    var s := e + rest;
    assert s[|e|..] == rest;
    assert s[0] == e[0];
    if |e| > 1 {
      assert s[1] == e[1];
    }
  }

  /** `parse_string` undoes `raw_string`, up to the characters that cannot come back. */
  lemma {:induction false} ParseEscaped(s: string, rest: string)
    ensures ParseBody(Escape(s) + "\"" + rest) == Some(Parsed(Lossy(s), rest))
  {
    if s == "" {
      assert "" + "\"" + rest == "\"" + rest;
      assert ("\"" + rest)[1..] == rest;
    } else {
      var tail := Escape(s[1..]) + "\"" + rest;
      assert Escape(s) + "\"" + rest == EscapeChar(s[0]) + tail;
      ParseEscapedChar(s[0], tail);
      ParseEscaped(s[1..], rest);
      assert Lossy(s) == [LossyChar(s[0])] + Lossy(s[1..]);
    }
  }

  lemma ParseQuoted(s: string, rest: string)
    ensures ParseString(Quoted(s) + rest) == Some(Parsed(Lossy(s), rest))
  {
    assert (Quoted(s) + rest)[1..] == Escape(s) + "\"" + rest;
    ParseEscaped(s, rest);
  }

  /** The round trip is exact exactly for strings without those characters. */
  lemma LossyIsExact(s: string)
    ensures Lossy(s) == s <==> forall c | c in s :: c as int >= 0x20 || c == '\n' || c == '\r' || c == '\t'
  {
    if Lossy(s) == s {
      forall c | c in s
        ensures c as int >= 0x20 || c == '\n' || c == '\r' || c == '\t'
      {
        var i :| 0 <= i < |s| && s[i] == c;
        assert Lossy(s)[i] == LossyChar(s[i]);
      }
    } else {
      var i :| 0 <= i < |s| && Lossy(s)[i] != s[i];
      assert s[i] in s;
    }
  }

  // Skipping a written value.

  predicate IsBracket(c: char) {
    c == '{' || c == '}' || c == '[' || c == ']'
  }

  predicate PlainText(s: string) {
    forall c | c in s :: !IsBracket(c) && c != '"'
  }

  lemma Step(a: string, b: string)
    requires a != ""
    ensures (a + b)[0] == a[0] && (a + b)[1..] == a[1..] + b && a + b != ""
  {
  }

  lemma {:induction false} PastPlain(a: string, rest: string, open: char, close: char, depth: int)
    requires PlainText(a) && IsBracket(open) && IsBracket(close)
    ensures FindClose(a + rest, open, close, depth, false, false) == FindClose(rest, open, close, depth, false, false)
  {
    if a == "" {
      assert a + rest == rest;
    } else {
      Step(a, rest);
      assert a[0] in a;
      PastPlain(a[1..], rest, open, close, depth);
    }
  }

  lemma PastEscapedChar(c: char, rest: string, open: char, close: char, depth: int)
    ensures FindClose(EscapeChar(c) + rest, open, close, depth, true, false)
         == FindClose(rest, open, close, depth, true, false)
  {
    var e := EscapeChar(c);
    Step(e, rest);
    if |e| > 1 {
      Step(e[1..], rest);
      if |e| == 6 {
        Step(e[2..], rest);
        Step(e[3..], rest);
        Step(e[4..], rest);
        Step(e[5..], rest);
        assert e[1..][1..] == e[2..] && e[2..][1..] == e[3..] && e[3..][1..] == e[4..] && e[4..][1..] == e[5..];
        assert e[5..][1..] == "" && "" + rest == rest;
        HexIsPlain(c);
        assert FindClose(e + rest, open, close, depth, true, false)
            == FindClose(e[2..] + rest, open, close, depth, true, false);
        assert FindClose(e[2..] + rest, open, close, depth, true, false)
            == FindClose(e[4..] + rest, open, close, depth, true, false);
        assert FindClose(e[4..] + rest, open, close, depth, true, false)
            == FindClose(rest, open, close, depth, true, false);
      } else {
        assert e[1..][1..] == "" && "" + rest == rest;
      }
    } else {
      assert e[1..] == "" && "" + rest == rest;
    }
  }

  lemma HexIsPlain(c: char)
    requires |EscapeChar(c)| == 6
    ensures var e := EscapeChar(c); forall i | 2 <= i < 6 :: e[i] != '"' && e[i] != '\\'
  {
    var e := EscapeChar(c);
    assert e[2] == '0' && e[3] == '0' && e[4] == HexDigit(c as int / 16) && e[5] == HexDigit(c as int % 16);
  }

  lemma {:induction false} PastEscaped(s: string, rest: string, open: char, close: char, depth: int)
    ensures FindClose(Escape(s) + "\"" + rest, open, close, depth, true, false)
         == FindClose(rest, open, close, depth, false, false)
  {
    if s == "" {
      assert "" + "\"" + rest == "\"" + rest;
      Step("\"", rest);
      assert "\""[1..] + rest == rest;
    } else {
      var tail := Escape(s[1..]) + "\"" + rest;
      assert Escape(s) + "\"" + rest == EscapeChar(s[0]) + tail;
      PastEscapedChar(s[0], tail, open, close, depth);
      PastEscaped(s[1..], rest, open, close, depth);
    }
  }

  lemma PastQuoted(s: string, rest: string, open: char, close: char, depth: int)
    requires IsBracket(open) && IsBracket(close)
    ensures FindClose(Quoted(s) + rest, open, close, depth, false, false)
         == FindClose(rest, open, close, depth, false, false)
  {
    assert (Quoted(s) + rest)[1..] == Escape(s) + "\"" + rest;
    PastEscaped(s, rest, open, close, depth);
  }

  /** `[` and `]`, or `{` and `}`. */
  predicate BracketKind(open: char, close: char) {
    (open == '{' && close == '}') || (open == '[' && close == ']')
  }

  lemma NumberPlain(s: string)
    requires forall c | c in s :: IsNumberChar(c)
    ensures PlainText(s)
  {
  }

  /** Inside an open bracket, a whole written value leaves the count where it was, whichever kind is counted. */
  lemma {:induction false} PastValue(v: Value, rest: string, open: char, close: char, depth: int)
    requires Printable(v) && BracketKind(open, close) && depth >= 1
    ensures FindClose(Render(v) + rest, open, close, depth, false, false)
         == FindClose(rest, open, close, depth, false, false)
    decreases v, 0
  {
    match v
    case Null => PastPlain("null", rest, open, close, depth);
    case Boolean(b) => PastPlain(if b then "true" else "false", rest, open, close, depth);
    case Integer(n) =>
      NumberPlain(Decimal(n));
      PastPlain(Decimal(n), rest, open, close, depth);
    case Number(token) =>
      FormattedIsToken(token);
      NumberPlain(token);
      PastPlain(token, rest, open, close, depth);
    case Text(s) => PastQuoted(s, rest, open, close, depth);
    case List(items) =>
      var d := if open == '[' then depth + 1 else depth;
      PastItems(items, "]" + rest, open, close, d);
      PastBrackets("[", RenderItems(items), "]", rest, open, close, depth);
    case Object(members) =>
      var d := if open == '{' then depth + 1 else depth;
      PastMembers(members, "}" + rest, open, close, d);
      PastBrackets("{", RenderMembers(members), "}", rest, open, close, depth);
  }

  lemma PastBrackets(o: string, inner: string, c: string, rest: string, open: char, close: char, depth: int)
    requires BracketKind(open, close) && depth >= 1
    requires (o == "[" && c == "]") || (o == "{" && c == "}")
    requires var d := if open == o[0] then depth + 1 else depth;
             FindClose(inner + (c + rest), open, close, d, false, false)
             == FindClose(c + rest, open, close, d, false, false)
    ensures FindClose(o + inner + c + rest, open, close, depth, false, false)
         == FindClose(rest, open, close, depth, false, false)
  {
    var s := o + inner + c + rest;
    assert s[0] == o[0] && s[1..] == inner + (c + rest);
    assert (c + rest)[0] == c[0] && (c + rest)[1..] == rest;
  }

  lemma {:induction false} PastItems(items: seq<Value>, rest: string, open: char, close: char, depth: int)
    requires (forall i | 0 <= i < |items| :: Printable(items[i])) && BracketKind(open, close) && depth >= 1
    ensures FindClose(RenderItems(items) + rest, open, close, depth, false, false)
         == FindClose(rest, open, close, depth, false, false)
    decreases items, 1
  {
    if items == [] {
      assert "" + rest == rest;
    } else {
      var first, comma, more := Render(items[0]), if |items| > 1 then "," else "", RenderItems(items[1..]);
      assert first + comma + more + rest == first + (comma + (more + rest));
      PastValue(items[0], comma + (more + rest), open, close, depth);
      PastPlain(comma, more + rest, open, close, depth);
      PastItems(items[1..], rest, open, close, depth);
    }
  }

  lemma {:induction false} PastMembers(members: seq<Member>, rest: string, open: char, close: char, depth: int)
    requires (forall i | 0 <= i < |members| :: Printable(members[i].value)) && BracketKind(open, close) && depth >= 1
    ensures FindClose(RenderMembers(members) + rest, open, close, depth, false, false)
         == FindClose(rest, open, close, depth, false, false)
    decreases members, 1
  {
    if members == [] {
      assert "" + rest == rest;
    } else {
      var key, v := Quoted(members[0].key), Render(members[0].value);
      var comma, more := if |members| > 1 then "," else "", RenderMembers(members[1..]);
      Grouped(key, v, comma, more, rest);
      PastQuoted(members[0].key, ":" + (v + (comma + (more + rest))), open, close, depth);
      PastPlain(":", v + (comma + (more + rest)), open, close, depth);
      PastValue(members[0].value, comma + (more + rest), open, close, depth);
      PastPlain(comma, more + rest, open, close, depth);
      PastMembers(members[1..], rest, open, close, depth);
    }
  }

  lemma Grouped(key: string, v: string, comma: string, more: string, rest: string)
    ensures key + ":" + v + comma + more + rest == key + (":" + (v + (comma + (more + rest))))
  {
  }

  /** A number ends where something that cannot continue it begins. */
  predicate EndsNumber(rest: string) {
    rest == "" || !IsNumberChar(rest[0])
  }

  lemma NoBlankFirst(s: string)
    requires s != "" && !IsBlank(s[0])
    ensures SkipBlanks(s) == s
  {
  }

  /** `skip_value` passes over exactly one written value, although it counts one kind of bracket only. */
  lemma SkipWritten(v: Value, rest: string)
    requires Printable(v) && (v.Integer? || v.Number? ==> EndsNumber(rest))
    ensures SkipValue(Render(v) + rest) == Some(rest)
  {
    var s := Render(v) + rest;
    match v
    case Null => assert s[..4] == "null" && s[4..] == rest;
    case Boolean(b) =>
      assert if b then s[..4] == "true" && s[4..] == rest else s[..5] == "false" && s[5..] == rest;
    case Integer(n) =>
      ScanDecimal(n);
      SkipToken(Decimal(n), rest);
    case Number(token) =>
      FormattedIsToken(token);
      SkipToken(token, rest);
    case Text(x) => ParseQuoted(x, rest);
    case List(items) => SkipBrackets(v, "[", RenderItems(items), "]", rest);
    case Object(members) => SkipBrackets(v, "{", RenderMembers(members), "}", rest);
  }

  lemma SkipToken(token: string, rest: string)
    requires NumberToken(token) && EndsNumber(rest)
    ensures SkipValue(token + rest) == Some(rest)
  {
    var s := token + rest;
    ScanNumberStops(token, rest);
    assert s[0] == token[0] && s[|token|..] == rest;
    NoBlankFirst(s);
    SkipNumber(s, |token|);
  }

  lemma SkipNumber(s: string, used: nat)
    requires s != "" && (s[0] == '-' || IsDigit(s[0])) && SkipBlanks(s) == s && ScanNumber(s).used == used > 0
    ensures SkipValue(s) == Some(s[used..])
  {
  }

  lemma OpenAndClose(o: string, inner: string, c: string, rest: string)
    requires |o| == 1 && |c| == 1
    ensures var s := o + inner + c + rest;
            s[0] == o[0] && s[1..] == inner + (c + rest) && (c + rest)[0] == c[0] && (c + rest)[1..] == rest
  {
  }

  lemma SkipBrackets(v: Value, o: string, inner: string, c: string, rest: string)
    requires Printable(v)
    requires (v.List? && o == "[" && c == "]" && inner == RenderItems(v.items))
          || (v.Object? && o == "{" && c == "}" && inner == RenderMembers(v.members))
    ensures SkipValue(o + inner + c + rest) == Some(rest)
  {
    var s := o + inner + c + rest;
    OpenAndClose(o, inner, c, rest);
    NoBlankFirst(s);
    if v.List? {
      PastItems(v.items, c + rest, '[', ']', 1);
      assert FindClose(s, '[', ']', 0, false, false) == Some(rest);
      assert SkipValue(s) == FindClose(s, '[', ']', 0, false, false);
    } else {
      PastMembers(v.members, c + rest, '{', '}', 1);
      assert FindClose(s, '{', '}', 0, false, false) == Some(rest);
      assert SkipValue(s) == FindClose(s, '{', '}', 0, false, false);
    }
  }
}
