/** Blanks between the tokens of a request do not matter; a missing brace, key or colon does. */
module RequestBlanks {
  import opened Basics
  import opened JsonText
  import opened JsonScanner
  import opened CliRequests

  predicate Blanks(s: string) {
    forall c | c in s :: c == ' ' || c == '\t' || c == '\n' || c == '\r'
  }

  /** A member with blanks before its key, its colon and its value, and after its value. */
  datatype Spaced = Spaced(member: Member, a: string, b: string, c: string, d: string)

  predicate WellSpaced(m: Spaced) {
    Blanks(m.a) && Blanks(m.b) && Blanks(m.c) && Blanks(m.d)
  }

  function MembersOf(items: seq<Spaced>): seq<Member> {
    if items == [] then [] else [items[0].member] + MembersOf(items[1..])
  }

  function SpacedText(items: seq<Spaced>): string {
    if items == [] then ""
    else
      items[0].a + (Quoted(items[0].member.key) + (items[0].b + (":" + (items[0].c + (Render(items[0].member.value)
      + (items[0].d + ((if |items| > 1 then "," else "") + SpacedText(items[1..]))))))))
  }

  lemma {:induction false} SkipPad(pad: string, s: string)
    requires Blanks(pad)
    ensures SkipBlanks(pad + s) == SkipBlanks(s)
    decreases |pad|
  {
    if pad == "" {
      assert pad + s == s;
    } else {
      assert pad[0] in pad && (pad + s)[0] == pad[0] && (pad + s)[1..] == pad[1..] + s;
      assert forall c | c in pad[1..] :: c in pad;
      SkipPad(pad[1..], s);
    }
  }

  lemma PadParse(r: Request, pad: string, s: string)
    requires Blanks(pad)
    ensures ParseMembers(r, pad + s) == ParseMembers(r, s)
  {
    SkipPad(pad, s);
  }

  lemma PadEndsNumber(pad: string, s: string)
    requires Blanks(pad) && EndsNumber(s)
    ensures EndsNumber(pad + s)
  {
    if pad == "" {
      assert pad + s == s;
    } else {
      assert pad[0] in pad && (pad + s)[0] == pad[0];
    }
  }

  /** One member, wherever blanks are. */
  lemma SpacedMember(r: Request, m: Spaced, rest: string)
    requires WellSpaced(m) && Printable(m.member.value) && EndsNumber(rest)
    ensures var key, v := m.member.key, m.member.value;
      ParseMembers(r, m.a + (Quoted(key) + (m.b + (":" + (m.c + (Render(v) + rest))))))
      == var x := Meaning(r, Lossy(key), v); if x == None then Failed(r) else ParseMembers(x.value, rest)
  {
    var key, v := m.member.key, m.member.value;
    var value := Render(v) + rest;
    var colon := ":" + (m.c + value);
    var text := Quoted(key) + (m.b + colon);
    PadParse(r, m.a, text);
    NoBlankFirst(text);
    ParseQuoted(key, m.b + colon);
    SkipPad(m.b, colon);
    NoBlankFirst(colon);
    assert colon[1..] == m.c + value;
    SkipPad(m.c, value);
    FirstChar(v);
    NoBlankFirst(value);
    TakeWritten(r, Lossy(key), v, rest);
  }

  lemma {:induction false} SpacedMembers(r: Request, items: seq<Spaced>, pad: string, junk: string)
    requires Blanks(pad) && forall i | 0 <= i < |items| :: WellSpaced(items[i]) && Printable(items[i].member.value)
    ensures ParseMembers(r, SpacedText(items) + (pad + ("}" + junk))) == Folded(r, MembersOf(items))
    decreases |items|
  {
    var close := pad + ("}" + junk);
    if items == [] {
      assert "" + close == close;
      PadParse(r, pad, "}" + junk);
      NoBlankFirst("}" + junk);
    } else {
      var m, more := items[0], items[1..];
      var comma := if |items| > 1 then "," else "";
      var rest := m.d + (comma + (SpacedText(more) + close));
      Regrouped(m.a, Quoted(m.member.key), m.b, m.c, Render(m.member.value), m.d, comma, SpacedText(more), close);
      TailEnds(comma, SpacedText(more), close, pad, junk, |more|);
      PadEndsNumber(m.d, comma + (SpacedText(more) + close));
      SpacedMember(r, m, rest);
      var x := Meaning(r, Lossy(m.member.key), m.member.value);
      assert MembersOf(items)[0] == m.member && MembersOf(items)[1..] == MembersOf(more);
      if x.Some? {
        PadParse(x.value, m.d, comma + (SpacedText(more) + close));
        CommaParse(x.value, comma, SpacedText(more) + close);
        SpacedMembers(x.value, more, pad, junk);
      }
    }
  }

  lemma Regrouped(a: string, key: string, b: string, c: string, v: string, d: string, comma: string, more: string,
                  close: string)
    ensures (a + (key + (b + (":" + (c + (v + (d + (comma + more)))))))) + close
      == a + (key + (b + (":" + (c + (v + (d + (comma + (more + close))))))))
  {
    assert (d + (comma + more)) + close == d + (comma + (more + close));
    assert (v + (d + (comma + more))) + close == v + ((d + (comma + more)) + close);
    assert (c + (v + (d + (comma + more)))) + close == c + ((v + (d + (comma + more))) + close);
  }

  lemma TailEnds(comma: string, more: string, close: string, pad: string, junk: string, n: nat)
    requires comma == (if n > 0 then "," else "") && (n == 0 ==> more == "")
    requires Blanks(pad) && close == pad + ("}" + junk)
    ensures EndsNumber(comma + (more + close))
  {
    if n > 0 {
      assert (comma + (more + close))[0] == ',';
    } else {
      PadEndsNumber(pad, "}" + junk);
      assert comma + (more + close) == close;
    }
  }

  lemma CommaParse(r: Request, comma: string, s: string)
    requires comma == "" || comma == ","
    ensures ParseMembers(r, comma + s) == ParseMembers(r, s)
  {
    if comma == "" {
      assert comma + s == s;
    } else {
      NoBlankFirst(comma + s);
      assert (comma + s)[1..] == s;
    }
  }

  lemma PadRequest(lead: string, body: string)
    requires Blanks(lead)
    ensures RequestOf(lead + ("{" + body)) == ParseMembers(EMPTY, body)
  {
    SkipPad(lead, "{" + body);
    NoBlankFirst("{" + body);
    assert ("{" + body)[1..] == body;
  }

  lemma PrintableMembers(members: seq<Member>)
    requires Printable(Object(members))
    ensures forall i | 0 <= i < |members| :: Printable(members[i].value)
  {
  }

  /** A request means the same with blanks around any of its tokens as without. */
  lemma BlanksDoNotMatter(items: seq<Spaced>, lead: string, pad: string, junk: string, more: string)
    requires Blanks(lead) && Blanks(pad) && (forall i | 0 <= i < |items| :: WellSpaced(items[i]))
    requires Printable(Object(MembersOf(items)))
    ensures RequestOf(lead + ("{" + (SpacedText(items) + (pad + ("}" + junk)))))
      == RequestOf(Render(Object(MembersOf(items))) + more)
  {
    hide RequestOf, SpacedText, MembersOf, Render, Folded, Blanks, ParseMembers;
    var body := SpacedText(items) + (pad + ("}" + junk));
    PadRequest(lead, body);
    PrintableMembers(MembersOf(items));
    SpacedPrintable(items);
    SpacedMembers(EMPTY, items, pad, junk);
    ParseWritten(MembersOf(items), more);
  }

  lemma {:induction false} SpacedPrintable(items: seq<Spaced>)
    requires forall i | 0 <= i < |MembersOf(items)| :: Printable(MembersOf(items)[i].value)
    ensures |MembersOf(items)| == |items| && forall i | 0 <= i < |items| :: Printable(items[i].member.value)
    decreases |items|
  {
    if items != [] {
      var all, more := MembersOf(items), MembersOf(items[1..]);
      assert all[0] == items[0].member && all[1..] == more;
      forall i | 0 <= i < |more|
        ensures Printable(more[i].value)
      {
        assert more[i] == all[i + 1];
      }
      SpacedPrintable(items[1..]);
      forall i | 0 <= i < |items|
        ensures Printable(items[i].member.value)
      {
        if i > 0 {
          assert items[i] == items[1..][i - 1];
        } else {
          assert Printable(all[0].value);
        }
      }
    }
  }

  // What is missing.

  predicate BlankChar(c: char) {
    c == ' ' || c == '\t' || c == '\n' || c == '\r'
  }

  lemma PadStops(pad: string, s: string)
    requires Blanks(pad) && (s == "" || !BlankChar(s[0]))
    ensures SkipBlanks(pad + s) == s
  {
    SkipPad(pad, s);
  }

  /** A request without its opening brace is refused. */
  lemma BraceNeeded(pad: string, s: string)
    requires Blanks(pad) && (s == "" || (!BlankChar(s[0]) && s[0] != '{'))
    ensures RequestOf(pad + s).error == "invalid request"
  {
    PadStops(pad, s);
  }

  /** Where a member may stand, anything else than a key, a comma or the closing brace is refused, and so is the end;
      what was given before is kept. */
  lemma KeyNeeded(r: Request, pad: string, s: string)
    requires Blanks(pad) && (s == "" || (!BlankChar(s[0]) && s[0] != '"' && s[0] != ',' && s[0] != '}'))
    ensures ParseMembers(r, pad + s) == r.(error := "invalid request")
  {
    PadStops(pad, s);
  }

  /** After a key, anything else than a colon is refused, and so is the end. */
  lemma ColonNeeded(r: Request, a: string, key: string, b: string, s: string)
    requires Blanks(a) && Blanks(b) && (s == "" || (!BlankChar(s[0]) && s[0] != ':'))
    ensures ParseMembers(r, a + (Quoted(key) + (b + s))) == r.(error := "invalid request")
  {
    var text := Quoted(key) + (b + s);
    assert text[0] == '"';
    PadStops(a, text);
    ParseQuoted(key, b + s);
    PadStops(b, s);
  }
}
