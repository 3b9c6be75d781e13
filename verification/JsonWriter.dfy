/** The streaming writer: it places the commas, and what it wrote is the rendering of the value that was driven
    through it. */
module JsonWriter {
  import opened Basics
  import opened JsonText

  datatype Event =
    | BeginObject | EndObject | BeginList | EndList
    | Key(name: string)
    | PutText(s: string) | PutBoolean(b: bool) | PutNull | PutInteger(n: int)
    | PutNumber(token: Option<string>)

  /** The writer's fields.  `vacant` has one flag for each open bracket, true until something is in it. */
  datatype Writer = Writer(out: string, vacant: seq<bool>, suppress: bool)

  function Last<T>(s: seq<T>): T
    requires s != []
  {
    s[|s| - 1]
  }

  function Used(vacant: seq<bool>): seq<bool> {
    if vacant == [] then [] else vacant[|vacant| - 1 := false]
  }

  function Comma(w: Writer): Writer {
    if w.suppress then w.(suppress := false)
    else w.(out := w.out + (if w.vacant != [] && !Last(w.vacant) then "," else ""), vacant := Used(w.vacant))
  }

  function Appended(w: Writer, text: string): Writer {
    w.(out := w.out + text)
  }

  function Opened(w: Writer, bracket: string): Writer {
    var c := Appended(Comma(w), bracket);
    Writer(c.out, c.vacant + [true], false)
  }

  function Closed(w: Writer, bracket: string): Writer {
    Writer(w.out + bracket, if w.vacant == [] then [] else w.vacant[..|w.vacant| - 1], false)
  }

  function After(w: Writer, e: Event): Writer {
    match e
    case BeginObject => Opened(w, "{")
    case EndObject => Closed(w, "}")
    case BeginList => Opened(w, "[")
    case EndList => Closed(w, "]")
    case Key(name) => Appended(Comma(w), Quoted(name) + ":").(suppress := true)
    case PutText(s) => Appended(Comma(w), Quoted(s))
    case PutBoolean(b) => Appended(Comma(w), if b then "true" else "false")
    case PutNull => Appended(Comma(w), "null")
    case PutInteger(n) => Appended(Comma(w), Decimal(n))
    case PutNumber(token) => Appended(Comma(w), if token == None then "null" else token.value)
  }

  function AfterAll(w: Writer, es: seq<Event>): Writer
    decreases |es|
  {
    if es == [] then w else AfterAll(After(w, es[0]), es[1..])
  }

  lemma {:induction false} AfterAppend(w: Writer, a: seq<Event>, b: seq<Event>)
    ensures AfterAll(w, a + b) == AfterAll(AfterAll(w, a), b)
    decreases |a|
  {
    if a == [] {
      assert a + b == b;
    } else {
      assert (a + b)[0] == a[0] && (a + b)[1..] == a[1..] + b;
      AfterAppend(After(w, a[0]), a[1..], b);
    }
  }

  // Driving a value through the writer by recursive descent.

  function Events(v: Value): seq<Event> {
    match v
    case Null => [PutNull]
    case Boolean(b) => [PutBoolean(b)]
    case Integer(n) => [PutInteger(n)]
    case Number(token) => [PutNumber(Some(token))]
    case Text(s) => [PutText(s)]
    case List(items) => [BeginList] + ItemEvents(items) + [EndList]
    case Object(members) => [BeginObject] + MemberEvents(members) + [EndObject]
  }

  function ItemEvents(items: seq<Value>): seq<Event> {
    if items == [] then [] else Events(items[0]) + ItemEvents(items[1..])
  }

  function MemberEvents(members: seq<Member>): seq<Event> {
    if members == [] then [] else [Key(members[0].key)] + Events(members[0].value) + MemberEvents(members[1..])
  }

  lemma AfterOne(w: Writer, e: Event)
    ensures AfterAll(w, [e]) == After(w, e)
  {
    assert [e][1..] == [];
  }

  lemma AfterBracketed(w: Writer, open: Event, inner: seq<Event>, close: Event)
    ensures AfterAll(w, [open] + inner + [close]) == After(AfterAll(After(w, open), inner), close)
  {
    AfterAppend(w, [open] + inner, [close]);
    AfterAppend(w, [open], inner);
    AfterOne(w, open);
    AfterOne(AfterAll(After(w, open), inner), close);
  }

  lemma Associates(a: string, b: string, c: string)
    ensures a + b + c == a + (b + c)
  {
  }

  /** Driving a value writes its rendering after at most one comma, and leaves the stack of open brackets as deep as it
      was, with the innermost one no longer vacant. */
  lemma {:induction false} DriveWritesRendering(w: Writer, v: Value)
    ensures AfterAll(w, Events(v)) == Appended(Comma(w), Render(v))
    decreases v, 0
  {
    match v
    case Null => AfterOne(w, PutNull);
    case Boolean(b) => AfterOne(w, PutBoolean(b));
    case Integer(n) => AfterOne(w, PutInteger(n));
    case Number(token) => AfterOne(w, PutNumber(Some(token)));
    case Text(s) => AfterOne(w, PutText(s));
    case List(items) =>
      ItemsWritten(After(w, BeginList), items);
      ListWritten(w, items);
    case Object(members) =>
      MembersWritten(After(w, BeginObject), members);
      ObjectWritten(w, members);
  }

  lemma ListWritten(w: Writer, items: seq<Value>)
    requires var m := AfterAll(After(w, BeginList), ItemEvents(items));
             && m.out == After(w, BeginList).out + Lead(After(w, BeginList), items != []) + RenderItems(items)
             && m.vacant == (if items == [] then After(w, BeginList).vacant else Used(After(w, BeginList).vacant))
    ensures AfterAll(w, Events(List(items))) == Appended(Comma(w), Render(List(items)))
  {
    AfterBracketed(w, BeginList, ItemEvents(items), EndList);
    var o := After(w, BeginList);
    assert o.out + "" == o.out;
    Bracketed(w, "[", RenderItems(items), "]", AfterAll(o, ItemEvents(items)));
  }

  lemma ObjectWritten(w: Writer, members: seq<Member>)
    requires var m := AfterAll(After(w, BeginObject), MemberEvents(members));
             && m.out == After(w, BeginObject).out + Lead(After(w, BeginObject), members != []) + RenderMembers(members)
             && m.vacant == (if members == [] then After(w, BeginObject).vacant else Used(After(w, BeginObject).vacant))
    ensures AfterAll(w, Events(Object(members))) == Appended(Comma(w), Render(Object(members)))
  {
    AfterBracketed(w, BeginObject, MemberEvents(members), EndObject);
    var o := After(w, BeginObject);
    assert o.out + "" == o.out;
    Bracketed(w, "{", RenderMembers(members), "}", AfterAll(o, MemberEvents(members)));
  }

  lemma Bracketed(w: Writer, open: string, inner: string, close: string, m: Writer)
    requires m.out == Opened(w, open).out + inner && |m.vacant| == |Comma(w).vacant| + 1
    requires m.vacant[..|m.vacant| - 1] == Comma(w).vacant
    ensures Closed(m, close) == Appended(Comma(w), open + inner + close)
  {
    assert Comma(w).out + open + inner + close == Comma(w).out + (open + inner + close);
  }

  /** What is in front of the first of several siblings. */
  function Lead(w: Writer, some: bool): string
    requires w.vacant != []
  {
    if some && !Last(w.vacant) then "," else ""
  }

  lemma {:induction false} ItemsWritten(w: Writer, items: seq<Value>)
    requires w.vacant != [] && !w.suppress
    ensures var m := AfterAll(w, ItemEvents(items));
            && m.out == w.out + Lead(w, items != []) + RenderItems(items)
            && m.vacant == (if items == [] then w.vacant else Used(w.vacant))
            && !m.suppress
    decreases items, 1
  {
    if items != [] {
      var first, rest := items[0], items[1..];
      AfterAppend(w, Events(first), ItemEvents(rest));
      DriveWritesRendering(w, first);
      var n := Appended(Comma(w), Render(first));
      ItemsWritten(n, rest);
      ItemText(w.out + Lead(w, true), Render(first), Lead(n, rest != []), RenderItems(rest));
    }
  }

  lemma {:induction false} MembersWritten(w: Writer, members: seq<Member>)
    requires w.vacant != [] && !w.suppress
    ensures var m := AfterAll(w, MemberEvents(members));
            && m.out == w.out + Lead(w, members != []) + RenderMembers(members)
            && m.vacant == (if members == [] then w.vacant else Used(w.vacant))
            && !m.suppress
    decreases members, 1
  {
    if members != [] {
      var key, v, rest := members[0].key, members[0].value, members[1..];
      var keyed := After(w, Key(key));
      AfterAppend(w, [Key(key)] + Events(v), MemberEvents(rest));
      AfterAppend(w, [Key(key)], Events(v));
      AfterOne(w, Key(key));
      DriveWritesRendering(keyed, v);
      var n := Appended(Comma(keyed), Render(v));
      MembersWritten(n, rest);
      MemberText(w.out + Lead(w, true), Quoted(key), Render(v), Lead(n, rest != []), RenderMembers(rest));
    }
  }

  lemma ItemText(a: string, v: string, c: string, d: string)
    ensures a + v + c + d == a + (v + c + d)
  {
  }

  lemma MemberText(a: string, k: string, v: string, c: string, d: string)
    ensures a + (k + ":") + v + c + d == a + (k + ":" + v + c + d)
  {
  }

  const START := Writer("", [true], false)

  /** A whole value driven through a new writer is its rendering and nothing else. */
  lemma DriveFromStart(v: Value)
    ensures AfterAll(START, Events(v)).out == Render(v)
    ensures |AfterAll(START, Events(v)).vacant| == 1
  {
    DriveWritesRendering(START, v);
    assert "" + "" + Render(v) == Render(v);
  }

  // The writer itself.

  class Json {
    var text: string
    var vacant: seq<bool>
    var suppress: bool

    constructor ()
      ensures State() == START
    {
      text, vacant, suppress := "", [true], false;
    }

    function State(): Writer
      reads this
    {
      Writer(text, vacant, suppress)
    }

    method WriteComma()
      modifies this
      ensures State() == Comma(old(State()))
    {
      if suppress {
        suppress := false;
        return;
      }
      if vacant != [] && !Last(vacant) {
        text := text + ",";
      }
      if vacant != [] {
        vacant := vacant[|vacant| - 1 := false];
      }
    }

    method Open(bracket: string)
      modifies this
      ensures State() == Opened(old(State()), bracket)
    {
      WriteComma();
      text := text + bracket;
      vacant := vacant + [true];
      suppress := false;
    }

    method Close(bracket: string)
      modifies this
      ensures State() == Closed(old(State()), bracket)
    {
      text := text + bracket;
      if vacant != [] {
        vacant := vacant[..|vacant| - 1];
      }
      suppress := false;
    }

    /** `raw_string`. */
    method WriteQuoted(s: string)
      modifies this
      ensures State() == Appended(old(State()), Quoted(s))
    {
      ghost var start := text + "\"";
      text := text + "\"";
      for i := 0 to |s|
        invariant text + Escape(s[i..]) == start + Escape(s)
        invariant vacant == old(vacant) && suppress == old(suppress)
      {
        assert s[i..][0] == s[i] && s[i..][1..] == s[i + 1..];
        Associates(text, EscapeChar(s[i]), Escape(s[i + 1..]));
        text := text + EscapeChar(s[i]);
      }
      assert Escape(s[|s|..]) == "" && text + "" == text;
      text := text + "\"";
      assert text == old(text) + ("\"" + Escape(s) + "\"");
    }

    method WriteKey(name: string)
      modifies this
      ensures State() == After(old(State()), Key(name))
    {
      WriteComma();
      ghost var before := text;
      WriteQuoted(name);
      text := text + ":";
      suppress := true;
      Associates(before, Quoted(name), ":");
    }

    method WriteText(s: string)
      modifies this
      ensures State() == After(old(State()), PutText(s))
    {
      WriteComma();
      WriteQuoted(s);
    }

    method WriteBoolean(b: bool)
      modifies this
      ensures State() == After(old(State()), PutBoolean(b))
    {
      WriteComma();
      text := text + if b then "true" else "false";
    }

    method WriteNull()
      modifies this
      ensures State() == After(old(State()), PutNull)
    {
      WriteComma();
      text := text + "null";
    }

    method WriteInteger(n: int)
      modifies this
      ensures State() == After(old(State()), PutInteger(n))
    {
      WriteComma();
      text := text + Decimal(n);
    }

    /** `token` is the number as formatted, or nothing when it is not finite. */
    method WriteNumber(token: Option<string>)
      modifies this
      ensures State() == After(old(State()), PutNumber(token))
    {
      WriteComma();
      if token == None {
        text := text + "null";
        return;
      }
      text := text + token.value;
    }
  }

  // Two bodies the command line interface answers with.

  /** The values a host command replies with are scalars. */
  predicate Scalar(v: Value) {
    !v.List? && !v.Object?
  }

  function ReplyBody(result: seq<Member>): Value {
    Object([Member("ok", Boolean(true)), Member("result", Object(result))])
  }

  function ErrorBody(message: string): Value {
    Object([Member("ok", Boolean(false)), Member("error", Text(message))])
  }

  method ErrorJson(message: string) returns (body: string)
    ensures body == Render(ErrorBody(message))
  {
    var json := new Json();
    json.Open("{");
    json.WriteKey("ok");
    json.WriteBoolean(false);
    json.WriteKey("error");
    json.WriteText(message);
    json.Close("}");
    body := json.text;
    ErrorWritten(message);
  }

  lemma ErrorWritten(message: string)
    ensures var w := After(After(After(START, BeginObject), Key("ok")), PutBoolean(false));
            After(After(After(w, Key("error")), PutText(message)), EndObject).out == Render(ErrorBody(message))
  {
    var members := [Member("ok", Boolean(false)), Member("error", Text(message))];
    var w1 := After(START, BeginObject);
    var w2 := After(After(w1, Key("ok")), PutBoolean(false));
    AfterBracketed(START, BeginObject, MemberEvents(members), EndObject);
    NextMember(w1, members[0], MemberEvents(members[1..]));
    AfterOne(After(w1, Key("ok")), PutBoolean(false));
    assert members[1..][0] == members[1] && members[1..][1..] == [];
    NextMember(w2, members[1], MemberEvents(members[1..][1..]));
    AfterOne(After(w2, Key("error")), PutText(message));
    DriveFromStart(ErrorBody(message));
  }

  method WriteScalar(json: Json, v: Value)
    requires Scalar(v)
    modifies json
    ensures json.State() == AfterAll(old(json.State()), Events(v))
  {
    ghost var w := json.State();
    match v {
      case Null =>
        json.WriteNull();
        AfterOne(w, PutNull);
      case Boolean(b) =>
        json.WriteBoolean(b);
        AfterOne(w, PutBoolean(b));
      case Integer(n) =>
        json.WriteInteger(n);
        AfterOne(w, PutInteger(n));
      case Number(token) =>
        json.WriteNumber(Some(token));
        AfterOne(w, PutNumber(Some(token)));
      case Text(s) =>
        json.WriteText(s);
        AfterOne(w, PutText(s));
    }
  }

  /** The body of a host command's reply. */
  method ExecuteHostReply(result: seq<Member>) returns (body: string)
    requires forall m | m in result :: Scalar(m.value)
    ensures body == Render(ReplyBody(result))
  {
    var json := new Json();
    json.Open("{");
    json.WriteKey("ok");
    json.WriteBoolean(true);
    json.WriteKey("result");
    json.Open("{");
    ghost var start := json.State();
    for i := 0 to |result|
      invariant AfterAll(json.State(), MemberEvents(result[i..])) == AfterAll(start, MemberEvents(result))
    {
      assert result[i] in result && result[i..][0] == result[i] && result[i..][1..] == result[i + 1..];
      NextMember(json.State(), result[i], MemberEvents(result[i + 1..]));
      json.WriteKey(result[i].key);
      WriteScalar(json, result[i].value);
    }
    assert MemberEvents(result[|result|..]) == [];
    json.Close("}");
    json.Close("}");
    body := json.text;
    ReplyEvents(result);
  }

  lemma NextMember(w: Writer, m: Member, rest: seq<Event>)
    ensures AfterAll(w, [Key(m.key)] + Events(m.value) + rest)
      == AfterAll(AfterAll(After(w, Key(m.key)), Events(m.value)), rest)
  {
    AfterAppend(w, [Key(m.key)] + Events(m.value), rest);
    AfterAppend(w, [Key(m.key)], Events(m.value));
    AfterOne(w, Key(m.key));
  }

  lemma ReplyEvents(result: seq<Member>)
    ensures var ok := After(After(After(START, BeginObject), Key("ok")), PutBoolean(true));
            var start := After(After(ok, Key("result")), BeginObject);
            After(After(AfterAll(start, MemberEvents(result)), EndObject), EndObject).out == Render(ReplyBody(result))
  {
    var members := [Member("ok", Boolean(true)), Member("result", Object(result))];
    var w1 := After(START, BeginObject);
    var w2 := After(After(w1, Key("ok")), PutBoolean(true));
    var w3 := After(w2, Key("result"));
    AfterBracketed(START, BeginObject, MemberEvents(members), EndObject);
    NextMember(w1, members[0], MemberEvents(members[1..]));
    AfterOne(After(w1, Key("ok")), PutBoolean(true));
    assert members[1..][0] == members[1] && members[1..][1..] == [];
    NextMember(w2, members[1], MemberEvents(members[1..][1..]));
    AfterBracketed(w3, BeginObject, MemberEvents(result), EndObject);
    DriveFromStart(ReplyBody(result));
  }
}
