/** The forms the writer and the scanner have in common, as RFC 8259 names them. */
module JsonForms {
  import opened Basics
  import opened JsonText
  import opened JsonScanner
  import opened JsonWriter

  /** The decimal digits, most significant first. */
  lemma DigitsAre(n: nat, d: nat)
    requires d < 10
    ensures Digits(d) == [(48 + d) as char]
    ensures n > 0 ==> Digits(10 * n + d) == Digits(n) + [(48 + d) as char]
    ensures var m: int := n; Decimal(m) == Digits(n) && (n > 0 ==> Decimal(-m) == "-" + Digits(n))
  {
  }

  /** The words, an integer, a quoted text and the empty brackets. */
  lemma WordsAre(n: int, s: string)
    ensures Render(Null) == "null" && Render(Boolean(true)) == "true" && Render(Boolean(false)) == "false"
    ensures Render(Integer(n)) == Decimal(n) && Render(Text(s)) == "\"" + Escape(s) + "\""
    ensures Render(List([])) == "[]" && Render(Object([])) == "{}"
  {
  }

  /** Items with commas between them, in square brackets. */
  lemma ListIs(a: Value, b: Value)
    ensures Render(List([a, b])) == "[" + (Render(a) + "," + Render(b)) + "]"
  {
    hide Render;
    assert [a, b][1..] == [b] && [b][1..] == [];
    assert RenderItems([b]) == Render(b) + "" + "";
    assert RenderItems([a, b]) == Render(a) + "," + RenderItems([b]);
    ItemsInside([a, b]);
  }

  lemma ItemsInside(items: seq<Value>)
    ensures Render(List(items)) == "[" + RenderItems(items) + "]"
  {
  }

  lemma MembersInside(members: seq<Member>)
    ensures Render(Object(members)) == "{" + RenderMembers(members) + "}"
  {
  }

  /** Members with commas between them and a colon after each key, in braces. */
  lemma ObjectIs(k: string, a: Value, l: string, b: Value)
    ensures Render(Object([Member(k, a), Member(l, b)]))
      == "{" + (Quoted(k) + ":" + Render(a) + "," + (Quoted(l) + ":" + Render(b))) + "}"
  {
    hide Render, Quoted;
    var m, more := [Member(k, a), Member(l, b)], [Member(l, b)];
    assert m[1..] == more && more[1..] == [];
    assert RenderMembers(more) == Quoted(l) + ":" + Render(b) + "" + "";
    assert RenderMembers(m) == Quoted(k) + ":" + Render(a) + "," + RenderMembers(more);
    MembersInside(m);
  }

  /** A character in a quoted text, as in section 7 of RFC 8259. */
  lemma EscapeIs(c: char)
    ensures c == '"' ==> EscapeChar(c) == ['\\', '"']
    ensures c == '\\' ==> EscapeChar(c) == ['\\', '\\']
    ensures c as int == 10 ==> EscapeChar(c) == ['\\', 'n']
    ensures c as int == 13 ==> EscapeChar(c) == ['\\', 'r']
    ensures c as int == 9 ==> EscapeChar(c) == ['\\', 't']
    ensures c as int >= 32 && c != '"' && c != '\\' ==> EscapeChar(c) == [c]
    ensures c as int < 32 && c as int !in {9, 10, 13} ==>
      EscapeChar(c) == ['\\', 'u', '0', '0', "0123456789abcdef"[c as int / 16], "0123456789abcdef"[c as int % 16]]
  {
  }

  /** What a backslash and the character after it are read as; other letters make the text unreadable. */
  lemma EscapeReads(c: char, rest: string)
    ensures var r := ParseBody(['\\', c] + rest);
      && (c == '"' || c == '\\' || c == '/' ==> r == Prepend(c, ParseBody(rest)))
      && (c == 'n' ==> r == Prepend(10 as char, ParseBody(rest)))
      && (c == 'r' ==> r == Prepend(13 as char, ParseBody(rest)))
      && (c == 't' ==> r == Prepend(9 as char, ParseBody(rest)))
      && (c == 'u' ==> r == if |rest| < 4 then None else Prepend('?', ParseBody(rest[4..])))
      && (c !in "\"\\/nrtu" ==> r == None)
  {
    var s := ['\\', c] + rest;
    assert s[0] == '\\' && s[1] == c && s[2..] == rest;
    if |rest| >= 4 {
      assert s[6..] == rest[4..];
    }
    if c !in "\"\\/nrtu" {
      assert forall x | x in ['"', '\\', '/', 'n', 'r', 't', 'u'] :: x in "\"\\/nrtu";
    }
  }

  lemma {:induction false} PlainEscape(s: string)
    requires forall c | c in s :: c as int >= 32 && c != '"' && c != '\\'
    ensures Escape(s) == s
  {
    hide EscapeChar;
    if s != "" {
      assert s[0] in s && forall c | c in s[1..] :: c in s;
      EscapeIs(s[0]);
      PlainEscape(s[1..]);
      assert s == [s[0]] + s[1..];
    }
  }

  lemma PlainQuoted(s: string)
    requires forall c | c in s :: c as int >= 32 && c != '"' && c != '\\'
    ensures Quoted(s) == "\"" + s + "\""
  {
    PlainEscape(s);
  }

  lemma ScalarsAre(b: bool, s: string)
    ensures Render(Boolean(b)) == (if b then "true" else "false") && Render(Text(s)) == Quoted(s)
  {
  }

  /** The body of an error, to the letter. */
  lemma ErrorIs(message: string)
    ensures Render(ErrorBody(message))
      == "{" + ("\"ok\"" + ":" + "false" + "," + ("\"error\"" + ":" + Quoted(message))) + "}"
  {
    hide Render, Quoted, Escape;
    PlainQuoted("ok");
    PlainQuoted("error");
    ObjectIs("ok", Boolean(false), "error", Text(message));
    ScalarsAre(false, message);
  }

  /** The body of a reply, to the letter. */
  lemma ReplyIs(result: seq<Member>)
    ensures Render(ReplyBody(result))
      == "{" + ("\"ok\"" + ":" + "true" + "," + ("\"result\"" + ":" + ("{" + RenderMembers(result) + "}"))) + "}"
  {
    hide Render, Quoted, Escape, RenderMembers;
    PlainQuoted("ok");
    PlainQuoted("result");
    ObjectIs("ok", Boolean(true), "result", Object(result));
    ScalarsAre(true, "");
    MembersInside(result);
  }

  /** A number that is not finite is written as null. */
  lemma NotFiniteIsNull(w: Writer)
    ensures After(w, PutNumber(None)) == After(w, PutNull)
  {
  }

  // Exactly which texts are read as a string.

  /** One character of a quoted text: itself, a backslash and a letter, or `u` and four characters. */
  datatype Unit = Plain(c: char) | Pair(c: char) | Four(a: char, b: char, c: char, d: char)

  predicate GoodUnit(u: Unit) {
    match u
    case Plain(c) => c != '"' && c != '\\'
    case Pair(c) => c == '"' || c == '\\' || c == '/' || c == 'n' || c == 'r' || c == 't'
    case Four(_, _, _, _) => true
  }

  function UnitText(u: Unit): string {
    match u
    case Plain(c) => [c]
    case Pair(c) => ['\\', c]
    case Four(a, b, c, d) => ['\\', 'u', a, b, c, d]
  }

  function UnitValue(u: Unit): char {
    match u
    case Plain(c) => c
    case Pair(c) => if c == 'n' then 10 as char else if c == 'r' then 13 as char else if c == 't' then 9 as char else c
    case Four(_, _, _, _) => '?'
  }

  function UnitsText(us: seq<Unit>): string {
    if us == [] then "" else UnitText(us[0]) + UnitsText(us[1..])
  }

  function UnitsValue(us: seq<Unit>): string {
    if us == [] then "" else [UnitValue(us[0])] + UnitsValue(us[1..])
  }

  ghost predicate Quotes(s: string, value: string, rest: string) {
    exists us :: (forall u | u in us :: GoodUnit(u)) && s == "\"" + (UnitsText(us) + ("\"" + rest))
                 && value == UnitsValue(us)
  }

  lemma UnitReads(u: Unit, rest: string)
    requires GoodUnit(u)
    ensures ParseBody(UnitText(u) + rest) == Prepend(UnitValue(u), ParseBody(rest))
  {
    match u
    case Plain(c) => assert ([c] + rest)[1..] == rest;
    case Pair(c) => EscapeReads(c, rest);
    case Four(a, b, c, d) =>
      assert UnitText(u) + rest == ['\\', 'u'] + ([a, b, c, d] + rest);
      assert ([a, b, c, d] + rest)[4..] == rest;
      EscapeReads('u', [a, b, c, d] + rest);
  }

  lemma {:induction false} UnitsRead(us: seq<Unit>, rest: string)
    requires forall u | u in us :: GoodUnit(u)
    ensures ParseBody(UnitsText(us) + ("\"" + rest)) == Some(Parsed(UnitsValue(us), rest))
    decreases |us|
  {
    var close := "\"" + rest;
    if us == [] {
      assert "" + close == close && close[1..] == rest;
    } else {
      assert us[0] in us && forall u | u in us[1..] :: u in us;
      assert UnitsText(us) + close == UnitText(us[0]) + (UnitsText(us[1..]) + close);
      UnitReads(us[0], UnitsText(us[1..]) + close);
      UnitsRead(us[1..], rest);
    }
  }

  lemma UnitFound(s: string) returns (u: Unit, rest: string)
    requires s != "" && s[0] != '"' && ParseBody(s).Some?
    ensures GoodUnit(u) && s == UnitText(u) + rest && |rest| < |s|
  {
    if s[0] != '\\' {
      u, rest := Plain(s[0]), s[1..];
    } else if s[1] == 'u' {
      u, rest := Four(s[2], s[3], s[4], s[5]), s[6..];
    } else {
      u, rest := Pair(s[1]), s[2..];
    }
  }

  lemma {:induction false} BodyQuotes(s: string) returns (us: seq<Unit>)
    requires ParseBody(s).Some?
    ensures (forall u | u in us :: GoodUnit(u)) && s == UnitsText(us) + ("\"" + ParseBody(s).value.rest)
    ensures ParseBody(s).value.value == UnitsValue(us)
    decreases |s|
  {
    hide ParseBody, UnitText, UnitValue, GoodUnit, UnitsText, UnitsValue;
    if s[0] == '"' {
      us := [];
      NoUnits();
      BodyEnds(s);
    } else {
      var u, rest := UnitFound(s);
      UnitReads(u, rest);
      var more := BodyQuotes(rest);
      us := [u] + more;
      OneUnitMore(u, more, "\"" + ParseBody(rest).value.rest);
    }
  }

  lemma NoUnits()
    ensures UnitsText([]) == "" && UnitsValue([]) == ""
  {
  }

  lemma BodyEnds(s: string)
    requires s != "" && s[0] == '"'
    ensures ParseBody(s) == Some(Parsed("", s[1..])) && s == "" + ("\"" + s[1..])
  {
  }

  lemma OneUnitMore(u: Unit, more: seq<Unit>, close: string)
    ensures UnitsText([u] + more) + close == UnitText(u) + (UnitsText(more) + close)
    ensures UnitsValue([u] + more) == [UnitValue(u)] + UnitsValue(more)
  {
    hide UnitText, UnitValue;
    assert ([u] + more)[1..] == more;
  }

  /** A text is read as a string exactly when it starts with one in quotes, and what follows the closing quote is
      left. */
  lemma StringExactly(s: string, value: string, rest: string)
    ensures ParseString(s) == Some(Parsed(value, rest)) <==> Quotes(s, value, rest)
  {
    hide ParseBody;
    if ParseString(s) == Some(Parsed(value, rest)) {
      var us := BodyQuotes(s[1..]);
      assert s == "\"" + s[1..];
    }
    if Quotes(s, value, rest) {
      var us :| (forall u | u in us :: GoodUnit(u)) && s == "\"" + (UnitsText(us) + ("\"" + rest))
        && value == UnitsValue(us);
      UnitsRead(us, rest);
      assert s[1..] == UnitsText(us) + ("\"" + rest);
    }
  }
}
