/** The request parser of the command line interface, as loops over a cursor, and what it makes of a written request. */
module CliRequests {
  import opened Basics
  import opened JsonText
  import opened JsonScanner

  datatype Canvas = AnyCanvas | Place(place: int) | RootId(id: string)

  datatype Request = Request(
    command: string, selector: string, path: string, action: string, panel: string, zone: string, mode: string,
    canvas: Canvas, window: int, node: Option<int>, space: Option<int>,
    x: Option<real>, y: Option<real>, w: Option<real>, h: Option<real>,
    stop: bool, error: string)

  const EMPTY := Request("", "", "", "", "", "", "", AnyCanvas, 0, None, None, None, None, None, None, false, "")

  const INVALID := "invalid request"

  // The cursor loops.

  method SkipBlanksAt(s: string) returns (r: string)
    ensures r == SkipBlanks(s)
  {
    r := s;
    while r != "" && IsBlank(r[0])
      invariant SkipBlanks(r) == SkipBlanks(s)
      decreases |r|
    {
      r := r[1..];
    }
  }

  /** What `ParseBody` returns once `done` has been read already. */
  function Resume(done: string, r: Option<Parsed>): Option<Parsed> {
    if r == None then None else Some(Parsed(done + r.value.value, r.value.rest))
  }

  lemma ResumePrepend(done: string, c: char, r: Option<Parsed>)
    ensures Resume(done, Prepend(c, r)) == Resume(done + [c], r)
  {
    if r.Some? {
      assert done + ([c] + r.value.value) == done + [c] + r.value.value;
    }
  }

  method ParseStringAt(s: string) returns (r: Option<Parsed>)
    ensures r == ParseString(s)
  {
    if s == "" || s[0] != '"' {
      return None;
    }
    var rest, out := s[1..], "";
    assert Resume("", ParseBody(rest)) == ParseBody(rest) by {
      if ParseBody(rest).Some? {
        assert "" + ParseBody(rest).value.value == ParseBody(rest).value.value;
      }
    }
    while rest != ""
      invariant Resume(out, ParseBody(rest)) == ParseString(s)
      decreases |rest|
    {
      var c := rest[0];
      if c == '"' {
        assert out + "" == out;
        return Some(Parsed(out, rest[1..]));
      }
      if c != '\\' {
        ResumePrepend(out, c, ParseBody(rest[1..]));
        out, rest := out + [c], rest[1..];
        continue;
      }
      var u := Unescaped(rest);
      if u == None {
        return None;
      }
      ResumePrepend(out, u.value.0, ParseBody(rest[u.value.1..]));
      out, rest := out + [u.value.0], rest[u.value.1..];
    }
    r := None;
  }

  method SkipValueAt(s: string) returns (r: Option<string>)
    ensures r == SkipValue(s)
  {
    var t := SkipBlanksAt(s);
    if t == "" {
      return None;
    }
    if t[0] == '"' {
      var p := ParseStringAt(t);
      return if p == None then None else Some(p.value.rest);
    }
    if t[0] == '-' || IsDigit(t[0]) {
      var used := ScanNumber(t).used;
      return if used == 0 then None else Some(t[used..]);
    }
    if "true" <= t {
      return Some(t[4..]);
    }
    if "false" <= t {
      return Some(t[5..]);
    }
    if "null" <= t {
      return Some(t[4..]);
    }
    if t[0] != '{' && t[0] != '[' {
      return None;
    }
    var open, close := t[0], if t[0] == '{' then '}' else ']';
    var depth, inString, escape, i := 0, false, false, 0;
    while i < |t|
      invariant i <= |t| && FindClose(t[i..], open, close, depth, inString, escape) == SkipValue(s)
    {
      var c := t[i];
      assert t[i..][0] == c && t[i..][1..] == t[i + 1..];
      i := i + 1;
      if inString {
        if escape {
          escape := false;
        } else if c == '\\' {
          escape := true;
        } else if c == '"' {
          inString := false;
        }
      } else if c == '"' {
        inString := true;
      } else if c == open {
        depth := depth + 1;
      } else if c == close {
        depth := depth - 1;
        if depth == 0 {
          return Some(t[i..]);
        }
      }
    }
    r := None;
  }

  // One member of a request.

  datatype Taken = Taken(request: Request, rest: string)

  predicate TextKey(key: string) {
    key == "command" || key == "selector" || key == "path" || key == "action" || key == "panel" || key == "zone"
    || key == "mode"
  }

  predicate IdKey(key: string) {
    key == "window" || key == "node" || key == "space"
  }

  predicate RealKey(key: string) {
    key == "x" || key == "y" || key == "w" || key == "h"
  }

  function WithText(r: Request, key: string, value: string): Request {
    if key == "command" then r.(command := value)
    else if key == "selector" then r.(selector := value)
    else if key == "path" then r.(path := value)
    else if key == "action" then r.(action := value)
    else if key == "panel" then r.(panel := value)
    else if key == "zone" then r.(zone := value)
    else r.(mode := value)
  }

  function WithId(r: Request, key: string, id: int): Request {
    if key == "window" then r.(window := id)
    else if key == "node" then r.(node := Some(id))
    else r.(space := Some(id))
  }

  function WithReal(r: Request, key: string, value: real): Request {
    if key == "x" then r.(x := Some(value))
    else if key == "y" then r.(y := Some(value))
    else if key == "w" then r.(w := Some(value))
    else r.(h := Some(value))
  }

  /** A number that fits an unsigned 32-bit field. */
  predicate IsId(value: real) {
    0.0 <= value <= 4294967295.0 && value.Floor as real == value
  }

  /** The value of a member whose key was just read; nothing when it is not what the key takes. */
  function TakeMember(r: Request, key: string, s: string): (t: Option<Taken>)
    ensures t.Some? ==> |t.value.rest| <= |s|
  {
    if TextKey(key) then
      var p := ParseString(s);
      if p == None then None else Some(Taken(WithText(r, key, p.value.value), p.value.rest))
    else if key == "canvas" then
      if s != "" && s[0] == '"' then
        var p := ParseString(s);
        if p == None || p.value.value == "" then None
        else Some(Taken(r.(canvas := RootId(p.value.value)), p.value.rest))
      else
        var n := ScanNumber(s);
        if n.used == 0 || !IsId(n.value) then None
        else Some(Taken(r.(canvas := Place(n.value.Floor)), s[n.used..]))
    else if IdKey(key) || RealKey(key) then
      var n := ScanNumber(s);
      if n.used == 0 || (IdKey(key) && !IsId(n.value)) then None
      else Some(Taken(if IdKey(key) then WithId(r, key, n.value.Floor) else WithReal(r, key, n.value), s[n.used..]))
    else if key == "stop" then
      if "true" <= s then Some(Taken(r.(stop := true), s[4..]))
      else if "false" <= s then Some(Taken(r.(stop := false), s[5..]))
      else None
    else
      var rest := SkipValue(s);
      if rest == None then None else Some(Taken(r, rest.value))
  }

  function Failed(r: Request): Request {
    r.(error := INVALID)
  }

  /** The members up to the closing brace; commas between them are passed over, however many. */
  function ParseMembers(r: Request, s: string): Request
    decreases |s|
  {
    var t := SkipBlanks(s);
    if t != "" && t[0] == ',' then ParseMembers(r, t[1..])
    else if t != "" && t[0] == '}' then r
    else
      var key := ParseString(t);
      if key == None then Failed(r)
      else
        var u := SkipBlanks(key.value.rest);
        if u == "" || u[0] != ':' then Failed(r)
        else
          var m := TakeMember(r, key.value.value, SkipBlanks(u[1..]));
          if m == None then Failed(r) else ParseMembers(m.value.request, m.value.rest)
  }

  function RequestOf(body: string): Request {
    var s := SkipBlanks(body);
    if s == "" || s[0] != '{' then Failed(EMPTY) else ParseMembers(EMPTY, s[1..])
  }

  method TakeMemberAt(r: Request, key: string, s: string) returns (t: Option<Taken>)
    ensures t == TakeMember(r, key, s)
  {
    if TextKey(key) {
      var p := ParseStringAt(s);
      return if p == None then None else Some(Taken(WithText(r, key, p.value.value), p.value.rest));
    }
    if key == "canvas" {
      if s != "" && s[0] == '"' {
        var p := ParseStringAt(s);
        if p == None || p.value.value == "" {
          return None;
        }
        return Some(Taken(r.(canvas := RootId(p.value.value)), p.value.rest));
      }
      var n := ScanNumber(s);
      if n.used == 0 || !IsId(n.value) {
        return None;
      }
      return Some(Taken(r.(canvas := Place(n.value.Floor)), s[n.used..]));
    }
    if IdKey(key) || RealKey(key) {
      var n := ScanNumber(s);
      if n.used == 0 {
        return None;
      }
      if IdKey(key) {
        if !IsId(n.value) {
          return None;
        }
        return Some(Taken(WithId(r, key, n.value.Floor), s[n.used..]));
      }
      return Some(Taken(WithReal(r, key, n.value), s[n.used..]));
    }
    if key == "stop" {
      if "true" <= s {
        return Some(Taken(r.(stop := true), s[4..]));
      }
      if "false" <= s {
        return Some(Taken(r.(stop := false), s[5..]));
      }
      return None;
    }
    var rest := SkipValueAt(s);
    t := if rest == None then None else Some(Taken(r, rest.value));
  }

  /** `parse_request`: terminates on every input. */
  method ParseRequest(body: string) returns (r: Request)
    ensures r == RequestOf(body)
  {
    r := EMPTY;
    var s := SkipBlanksAt(body);
    if s == "" || s[0] != '{' {
      return Failed(r);
    }
    s := s[1..];
    while true
      invariant ParseMembers(r, s) == RequestOf(body)
      decreases |s|
    {
      s := SkipBlanksAt(s);
      if s != "" && s[0] == ',' {
        s := s[1..];
        continue;
      }
      if s != "" && s[0] == '}' {
        return;
      }
      var key := ParseStringAt(s);
      if key == None {
        return Failed(r);
      }
      s := SkipBlanksAt(key.value.rest);
      if s == "" || s[0] != ':' {
        return Failed(r);
      }
      s := SkipBlanksAt(s[1..]);
      var m := TakeMemberAt(r, key.value.value, s);
      if m == None {
        return Failed(r);
      }
      r, s := m.value.request, m.value.rest;
    }
  }

  // A written request.

  /** The number a written value holds, if it is one. */
  function NumberOf(v: Value): Option<real> {
    match v
    case Integer(n) => Some(n as real)
    case Number(token) => Some(ScanNumber(token).value)
    case _ => None
  }

  /** What one member means for the request; nothing when its value is not what the key takes. */
  function Meaning(r: Request, key: string, v: Value): Option<Request> {
    if TextKey(key) then if v.Text? then Some(WithText(r, key, Lossy(v.s))) else None
    else if key == "canvas" then
      if v.Text? then if v.s == "" then None else Some(r.(canvas := RootId(Lossy(v.s))))
      else if NumberOf(v).Some? && IsId(NumberOf(v).value) then Some(r.(canvas := Place(NumberOf(v).value.Floor)))
      else None
    else if IdKey(key) then
      if NumberOf(v).Some? && IsId(NumberOf(v).value) then Some(WithId(r, key, NumberOf(v).value.Floor)) else None
    else if RealKey(key) then
      if NumberOf(v).Some? then Some(WithReal(r, key, NumberOf(v).value)) else None
    else if key == "stop" then if v.Boolean? then Some(r.(stop := v.b)) else None
    else Some(r)
  }

  /** The members in order, a later one overriding an earlier one, up to the first that does not fit. */
  function Folded(r: Request, members: seq<Member>): Request
    decreases |members|
  {
    if members == [] then r
    else
      var m := Meaning(r, Lossy(members[0].key), members[0].value);
      if m == None then Failed(r) else Folded(m.value, members[1..])
  }

  /** What a written value starts with tells its kind. */
  lemma FirstChar(v: Value)
    requires Printable(v)
    ensures var s := Render(v);
            && s != "" && !IsBlank(s[0]) && s[0] != ',' && s[0] != '}'
            && (s[0] == '"' <==> v.Text?)
            && (IsNumberChar(s[0]) <==> v.Integer? || v.Number?)
            && ("true" <= s <==> v == Boolean(true)) && ("false" <= s <==> v == Boolean(false))
  {
    var s := Render(v);
    match v
    case Integer(n) => assert s[0] in s;
    case Number(token) => assert s[0] in s;
    case Text(x) => assert s[0] == '"';
    case List(items) => assert s[0] == '[';
    case Object(members) => assert s[0] == '{';
    case _ =>
  }

  lemma StartsWith(word: string, s: string, rest: string)
    requires s != "" && word != "" && (word <= s <==> s[0] == word[0])
    ensures word <= s + rest <==> word <= s
    ensures word == s ==> (s + rest)[|word|..] == rest
  {
    assert (s + rest)[0] == s[0];
    if word <= s {
      assert (s + rest)[..|word|] == s[..|word|];
    }
  }

  lemma ScanWritten(v: Value, rest: string)
    requires Printable(v) && EndsNumber(rest)
    ensures NumberOf(v) == None ==> ScanNumber(Render(v) + rest).used == 0
    ensures NumberOf(v).Some? ==>
      && ScanNumber(Render(v) + rest) == Scanned(|Render(v)|, NumberOf(v).value)
      && (Render(v) + rest)[|Render(v)|..] == rest
  {
    FirstChar(v);
    var s := Render(v);
    assert (s + rest)[0] == s[0];
    match v
    case Integer(n) =>
      ScanDecimal(n);
      ScanNumberStops(s, rest);
    case Number(token) =>
      FormattedIsToken(token);
      ScanNumberStops(token, rest);
    case _ =>
  }

  lemma StopWritten(v: Value, rest: string)
    requires Printable(v)
    ensures "true" <= Render(v) + rest <==> v == Boolean(true)
    ensures "false" <= Render(v) + rest <==> v == Boolean(false)
    ensures v == Boolean(true) ==> (Render(v) + rest)[4..] == rest
    ensures v == Boolean(false) ==> (Render(v) + rest)[5..] == rest
  {
    FirstChar(v);
    var s := Render(v);
    assert s[0] != 't' || v == Boolean(true);
    assert s[0] != 'f' || v == Boolean(false);
    StartsWith("true", s, rest);
    StartsWith("false", s, rest);
  }

  function Expected(m: Option<Request>, rest: string): Option<Taken> {
    if m == None then None else Some(Taken(m.value, rest))
  }

  lemma TakeText(r: Request, key: string, v: Value, rest: string)
    requires Printable(v) && TextKey(key)
    ensures TakeMember(r, key, Render(v) + rest) == Expected(Meaning(r, key, v), rest)
  {
    FirstChar(v);
    var s := Render(v) + rest;
    assert s[0] == Render(v)[0];
    if v.Text? {
      ParseQuoted(v.s, rest);
    }
  }

  lemma TakeCanvas(r: Request, v: Value, rest: string)
    requires Printable(v) && EndsNumber(rest)
    ensures TakeMember(r, "canvas", Render(v) + rest) == Expected(Meaning(r, "canvas", v), rest)
  {
    FirstChar(v);
    var s := Render(v) + rest;
    assert s[0] == Render(v)[0];
    if v.Text? {
      ParseQuoted(v.s, rest);
      assert Lossy(v.s) == "" <==> v.s == "";
    } else {
      ScanWritten(v, rest);
    }
  }

  lemma TakeNumber(r: Request, key: string, v: Value, rest: string)
    requires Printable(v) && EndsNumber(rest) && (IdKey(key) || RealKey(key))
    ensures TakeMember(r, key, Render(v) + rest) == Expected(Meaning(r, key, v), rest)
  {
    FirstChar(v);
    ScanWritten(v, rest);
  }

  /** A written member is taken for what it means, and exactly its value is used up. */
  lemma TakeWritten(r: Request, key: string, v: Value, rest: string)
    requires Printable(v) && EndsNumber(rest)
    ensures TakeMember(r, key, Render(v) + rest) == Expected(Meaning(r, key, v), rest)
  {
    if TextKey(key) {
      TakeText(r, key, v, rest);
    } else if key == "canvas" {
      TakeCanvas(r, v, rest);
    } else if IdKey(key) || RealKey(key) {
      TakeNumber(r, key, v, rest);
    } else if key == "stop" {
      StopWritten(v, rest);
    } else {
      SkipWritten(v, rest);
    }
  }

  lemma ParseKey(key: string, rest: string)
    ensures ParseString(Quoted(key) + ":" + rest) == Some(Parsed(Lossy(key), ":" + rest))
    ensures SkipBlanks(Quoted(key) + ":" + rest) == Quoted(key) + ":" + rest
  {
    assert Quoted(key) + ":" + rest == Quoted(key) + (":" + rest);
    ParseQuoted(key, ":" + rest);
    NoBlankFirst(Quoted(key) + ":" + rest);
  }

  lemma {:induction false} ParseWrittenMembers(r: Request, members: seq<Member>, junk: string)
    requires forall i | 0 <= i < |members| :: Printable(members[i].value)
    ensures ParseMembers(r, RenderMembers(members) + "}" + junk) == Folded(r, members)
    decreases |members|
  {
    if members == [] {
      assert "" + "}" + junk == "}" + junk;
      NoBlankFirst("}" + junk);
    } else {
      var key, v := members[0].key, members[0].value;
      var comma, more := if |members| > 1 then "," else "", RenderMembers(members[1..]);
      var after := comma + (more + "}" + junk);
      var s := RenderMembers(members) + "}" + junk;
      RequestText(Quoted(key), Render(v), comma, more, junk);
      assert s == Quoted(key) + ":" + (Render(v) + after);
      ParseKey(key, Render(v) + after);
      var colon := ":" + (Render(v) + after);
      NoBlankFirst(colon);
      assert colon[1..] == Render(v) + after;
      FirstChar(v);
      NoBlankFirst(Render(v) + after);
      TakeWritten(r, Lossy(key), v, after);
      var m := Meaning(r, Lossy(key), v);
      if m.Some? {
        AfterComma(m.value, members[1..], comma, more + "}" + junk);
        ParseWrittenMembers(m.value, members[1..], junk);
      }
    }
  }

  lemma RequestText(key: string, v: string, comma: string, more: string, junk: string)
    ensures key + ":" + v + comma + more + "}" + junk == key + ":" + (v + (comma + (more + "}" + junk)))
  {
  }

  lemma AfterComma(r: Request, members: seq<Member>, comma: string, s: string)
    requires comma == if members == [] then "" else ","
    ensures ParseMembers(r, comma + s) == ParseMembers(r, s)
  {
    if members == [] {
      assert comma + s == s;
    } else {
      NoBlankFirst(comma + s);
      assert (comma + s)[1..] == s;
    }
  }

  /** Parsing any written object, with anything after it, is the fold of its members. */
  lemma ParseWritten(members: seq<Member>, junk: string)
    requires Printable(Object(members))
    ensures RequestOf(Render(Object(members)) + junk) == Folded(EMPTY, members)
  {
    var s := Render(Object(members)) + junk;
    ObjectCut(RenderMembers(members), junk, s);
    NoBlankFirst(s);
    ParseWrittenMembers(EMPTY, members, junk);
  }

  lemma ObjectCut(inner: string, junk: string, s: string)
    requires s == "{" + inner + "}" + junk
    ensures s != "" && s[0] == '{' && s[1..] == inner + "}" + junk
  {
  }

  // What the fold says.

  predicate Known(key: string) {
    TextKey(key) || key == "canvas" || IdKey(key) || RealKey(key) || key == "stop"
  }

  /** A member with an unknown key changes nothing, whatever its value. */
  lemma {:induction false} UnknownIgnored(r: Request, before: seq<Member>, m: Member, after: seq<Member>)
    requires !Known(Lossy(m.key))
    ensures Folded(r, before + [m] + after) == Folded(r, before + after)
    decreases |before|
  {
    if before == [] {
      assert before + [m] + after == [m] + after && before + after == after;
      assert ([m] + after)[1..] == after;
    } else {
      assert (before + [m] + after)[0] == before[0] && (before + [m] + after)[1..] == before[1..] + [m] + after;
      assert (before + after)[0] == before[0] && (before + after)[1..] == before[1..] + after;
      var x := Meaning(r, Lossy(before[0].key), before[0].value);
      if x.Some? {
        UnknownIgnored(x.value, before[1..], m, after);
      }
    }
  }

  /** No control character turns an unknown key into a known one. */
  lemma LossyKnown(key: string)
    requires Known(Lossy(key))
    ensures Lossy(key) == key
  {
    var k := Lossy(key);
    assert '?' !in k;
    forall i | 0 <= i < |key|
      ensures k[i] == key[i]
    {
      assert k[i] == LossyChar(key[i]) && k[i] in k;
    }
  }

  /** The command is the last one given, as long as every member fits. */
  lemma {:induction false} LastCommandWins(r: Request, before: seq<Member>, text: string, after: seq<Member>)
    requires Folded(r, before + [Member("command", Text(text))] + after).error == ""
    requires r.error == "" && forall m | m in after :: m.key != "command"
    ensures Folded(r, before + [Member("command", Text(text))] + after).command == Lossy(text)
    decreases |before|
  {
    var m := Member("command", Text(text));
    if before == [] {
      assert before + [m] + after == [m] + after && ([m] + after)[1..] == after;
      assert Lossy("command") == "command";
      CommandStays(r.(command := Lossy(text)), after);
    } else {
      assert (before + [m] + after)[0] == before[0] && (before + [m] + after)[1..] == before[1..] + [m] + after;
      var x := Meaning(r, Lossy(before[0].key), before[0].value);
      assert x.Some?;
      LastCommandWins(x.value, before[1..], text, after);
    }
  }

  lemma {:induction false} CommandStays(r: Request, members: seq<Member>)
    requires forall m | m in members :: m.key != "command"
    ensures Folded(r, members).command == r.command
    decreases |members|
  {
    if members != [] {
      var key := members[0].key;
      assert members[0] in members;
      if Lossy(key) == "command" {
        LossyKnown(key);
      }
      var x := Meaning(r, Lossy(key), members[0].value);
      if x.Some? {
        CommandStays(x.value, members[1..]);
      }
    }
  }
}
