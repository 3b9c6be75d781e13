/** Which field of a request each key of a written object fills, and with what. */
module RequestFields {
  import opened Basics
  import opened JsonText
  import opened JsonScanner
  import opened CliRequests

  /** What a field holds. */
  datatype Held =
    | Word(s: string) | Spot(canvas: Canvas) | Id(id: Option<int>) | Coordinate(x: Option<real>) | Switch(on: bool)
    | NoField

  /** The field a key stands for. */
  function Field(r: Request, key: string): Held {
    if key == "command" then Word(r.command)
    else if key == "selector" then Word(r.selector)
    else if key == "path" then Word(r.path)
    else if key == "action" then Word(r.action)
    else if key == "panel" then Word(r.panel)
    else if key == "zone" then Word(r.zone)
    else if key == "mode" then Word(r.mode)
    else if key == "canvas" then Spot(r.canvas)
    else if key == "window" then Id(Some(r.window))
    else if key == "node" then Id(r.node)
    else if key == "space" then Id(r.space)
    else if key == "x" then Coordinate(r.x)
    else if key == "y" then Coordinate(r.y)
    else if key == "w" then Coordinate(r.w)
    else if key == "h" then Coordinate(r.h)
    else if key == "stop" then Switch(r.stop)
    else NoField
  }

  /** The number a written value stands for. */
  function Says(v: Value): Option<real> {
    match v
    case Integer(n) => Some(n as real)
    case Number(token) => Some(ScanNumber(token).value)
    case _ => None
  }

  /** A whole number of 32 bits without a sign. */
  predicate SaysId(v: Value) {
    Says(v).Some? && 0.0 <= Says(v).value < 4294967296.0 && Says(v).value == Says(v).value.Floor as real
  }

  /** What a value puts into a field of this sort, if it is one the field takes. */
  function Put(field: Held, v: Value): Option<Held> {
    match field
    case Word(_) => if v.Text? then Some(Word(Lossy(v.s))) else None
    case Spot(_) =>
      if v.Text? && v.s != "" then Some(Spot(RootId(Lossy(v.s))))
      else if SaysId(v) then Some(Spot(Place(Says(v).value.Floor)))
      else None
    case Id(_) => if SaysId(v) then Some(Id(Some(Says(v).value.Floor))) else None
    case Coordinate(_) => if Says(v).Some? then Some(Coordinate(Says(v))) else None
    case Switch(_) => if v.Boolean? then Some(Switch(v.b)) else None
    case NoField => Some(NoField)
  }

  lemma OneText(r: Request, key: string, v: Value, other: string)
    requires TextKey(key)
    ensures Meaning(r, key, v).Some? <==> Put(Field(r, key), v).Some?
    ensures Meaning(r, key, v).Some? ==> var now := Meaning(r, key, v).value;
      && Field(now, key) == Put(Field(r, key), v).value
      && (other != key ==> Field(now, other) == Field(r, other))
      && now.error == r.error
  {
    hide ScanNumber, Lossy;
  }

  lemma OneId(r: Request, key: string, v: Value, other: string)
    requires IdKey(key) && !TextKey(key)
    ensures Meaning(r, key, v).Some? <==> Put(Field(r, key), v).Some?
    ensures Meaning(r, key, v).Some? ==> var now := Meaning(r, key, v).value;
      && Field(now, key) == Put(Field(r, key), v).value
      && (other != key ==> Field(now, other) == Field(r, other))
      && now.error == r.error
  {
    hide ScanNumber, Lossy, TextKey;
  }

  lemma OneReal(r: Request, key: string, v: Value, other: string)
    requires RealKey(key) && !TextKey(key) && !IdKey(key)
    ensures Meaning(r, key, v).Some? <==> Put(Field(r, key), v).Some?
    ensures Meaning(r, key, v).Some? ==> var now := Meaning(r, key, v).value;
      && Field(now, key) == Put(Field(r, key), v).value
      && (other != key ==> Field(now, other) == Field(r, other))
      && now.error == r.error
  {
    hide ScanNumber, Lossy, TextKey, IdKey, IsId;
  }

  lemma OneOther(r: Request, key: string, v: Value, other: string)
    requires !TextKey(key) && !IdKey(key) && !RealKey(key)
    ensures Meaning(r, key, v).Some? <==> Put(Field(r, key), v).Some?
    ensures Meaning(r, key, v).Some? ==> var now := Meaning(r, key, v).value;
      && Field(now, key) == Put(Field(r, key), v).value
      && (other != key ==> Field(now, other) == Field(r, other))
      && now.error == r.error
  {
    hide ScanNumber, Lossy;
  }

  /** One member: its field takes its value, every other field stays. */
  lemma OneMember(r: Request, key: string, v: Value, other: string)
    ensures Meaning(r, key, v).Some? <==> Put(Field(r, key), v).Some?
    ensures Meaning(r, key, v).Some? ==> var now := Meaning(r, key, v).value;
      && Field(now, key) == Put(Field(r, key), v).value
      && (other != key ==> Field(now, other) == Field(r, other))
      && now.error == r.error
  {
    hide *;
    if TextKey(key) {
      OneText(r, key, v, other);
    } else if IdKey(key) {
      OneId(r, key, v, other);
    } else if RealKey(key) {
      OneReal(r, key, v, other);
    } else {
      OneOther(r, key, v, other);
    }
  }

  /** A key that a control character spoils stands for no field, as it did. */
  lemma SameField(r: Request, key: string)
    ensures Field(r, Lossy(key)) == Field(r, key)
  {
    if Known(Lossy(key)) {
      LossyKnown(key);
    } else if Known(key) {
      Lossless(key);
    }
  }

  lemma Lossless(key: string)
    requires Known(key)
    ensures Lossy(key) == key
  {
    assert forall i | 0 <= i < |key| :: key[i] as int >= 0x20;
    assert forall i | 0 <= i < |key| :: Lossy(key)[i] == key[i];
  }

  // Whole requests.

  /** A request nothing is given for. */
  const BLANK :=
    Request("", "", "", "", "", "", "", AnyCanvas, 0, None, None, None, None, None, None, false, "")

  /** The members after the last one with this key. */
  predicate LastOf(key: string, after: seq<Member>) {
    forall m | m in after :: m.key != key
  }

  lemma {:induction false} Untouched(r: Request, members: seq<Member>, key: string)
    requires LastOf(key, members) && Folded(r, members).error == "" && r.error == ""
    ensures Field(Folded(r, members), key) == Field(r, key)
    decreases |members|
  {
    hide Field, Meaning, Lossy, Put;
    if members != [] {
      var m := members[0];
      assert m in members;
      OneMember(r, Lossy(m.key), m.value, key);
      NotTheField(r, m, key);
      Untouched(Meaning(r, Lossy(m.key), m.value).value, members[1..], key);
    }
  }

  lemma NotTheField(r: Request, m: Member, key: string)
    requires m.key != key && Meaning(r, Lossy(m.key), m.value).Some?
    ensures Field(Meaning(r, Lossy(m.key), m.value).value, key) == Field(r, key)
  {
    hide Field, Meaning, Put;
    var now := Meaning(r, Lossy(m.key), m.value).value;
    OneMember(r, Lossy(m.key), m.value, key);
    if Lossy(m.key) == key {
      NoSpoiledField(r, m.key);
      NoSpoiledField(now, m.key);
    }
  }

  lemma NoSpoiledField(r: Request, key: string)
    requires Lossy(key) != key
    ensures Field(r, Lossy(key)) == NoField
  {
    if Known(Lossy(key)) {
      LossyKnown(key);
    }
  }

  /** Any written object that gives no error, whatever follows it: for each key the field it stands for holds the last
      value given for it, and a field no key names is as in an empty request. */
  lemma LastValueWins(before: seq<Member>, m: Member, after: seq<Member>, junk: string)
    requires Printable(Object(before + [m] + after)) && LastOf(m.key, after)
    requires RequestOf(Render(Object(before + [m] + after)) + junk).error == ""
    ensures var r := RequestOf(Render(Object(before + [m] + after)) + junk);
      Put(Field(BLANK, m.key), m.value) == Some(Field(r, m.key))
  {
    hide Field, Meaning, Lossy, Put, RequestOf, Render;
    ParseWritten(before + [m] + after, junk);
    LastHeld(EMPTY, before, m, after);
  }

  lemma NotGivenStays(members: seq<Member>, key: string, junk: string)
    requires Printable(Object(members)) && LastOf(key, members)
    requires RequestOf(Render(Object(members)) + junk).error == ""
    ensures Field(RequestOf(Render(Object(members)) + junk), key) == Field(BLANK, key)
  {
    hide Field, RequestOf, Render;
    ParseWritten(members, junk);
    Untouched(EMPTY, members, key);
  }

  /** What a field takes does not depend on what it holds. */
  lemma SamePut(a: Request, b: Request, key: string, v: Value)
    ensures Put(Field(a, key), v) == Put(Field(b, key), v)
  {
    hide Lossy, ScanNumber;
  }

  lemma {:induction false} LastHeld(r: Request, before: seq<Member>, m: Member, after: seq<Member>)
    requires LastOf(m.key, after) && r.error == "" && Folded(r, before + [m] + after).error == ""
    ensures Put(Field(EMPTY, m.key), m.value) == Some(Field(Folded(r, before + [m] + after), m.key))
    decreases |before|
  {
    hide Field, Meaning, Lossy, Put;
    if before == [] {
      assert before + [m] + after == [m] + after && ([m] + after)[1..] == after;
      OneMember(r, Lossy(m.key), m.value, m.key);
      var now := Meaning(r, Lossy(m.key), m.value).value;
      Untouched(now, after, m.key);
      SameField(r, m.key);
      SameField(now, m.key);
      SamePut(EMPTY, r, m.key, m.value);
    } else {
      var all := before + [m] + after;
      assert all[0] == before[0] && all[1..] == before[1..] + [m] + after;
      OneMember(r, Lossy(before[0].key), before[0].value, m.key);
      LastHeld(Meaning(r, Lossy(before[0].key), before[0].value).value, before[1..], m, after);
    }
  }

  /** A written object is refused exactly when some member has a value its field does not take. */
  lemma {:induction false} RefusedExactly(r: Request, members: seq<Member>)
    requires r.error == ""
    ensures Folded(r, members).error ==
      if forall m | m in members :: Put(Field(EMPTY, m.key), m.value).Some? then "" else "invalid request"
    decreases |members|
  {
    hide Field, Meaning, Lossy, Put;
    if members != [] {
      var m := members[0];
      OneMember(r, Lossy(m.key), m.value, m.key);
      SameField(r, m.key);
      SamePut(EMPTY, r, m.key, m.value);
      assert members == [m] + members[1..];
      if Meaning(r, Lossy(m.key), m.value).Some? {
        RefusedExactly(Meaning(r, Lossy(m.key), m.value).value, members[1..]);
      }
    }
  }

  lemma ErrorExactly(members: seq<Member>, junk: string)
    requires Printable(Object(members))
    ensures RequestOf(Render(Object(members)) + junk).error ==
      if forall m | m in members :: Put(Field(BLANK, m.key), m.value).Some? then "" else "invalid request"
  {
    hide Field, Put, RequestOf, Render;
    ParseWritten(members, junk);
    RefusedExactly(EMPTY, members);
  }
}
