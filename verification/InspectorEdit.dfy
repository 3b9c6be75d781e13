/** Typing into an inspector row: the one value its key names is replaced, and nothing else. */
module InspectorEdit {
  import opened Basics
  import opened Fields
  import opened JsonText
  import opened InspectorPaths
  import opened InspectorRows
  import opened RowTheorems

  // Numbers typed by hand.

  predicate Blank(c: char) {
    c == ' ' || c == '\t'
  }

  function TrimFront(s: string): string {
    if s != "" && Blank(s[0]) then TrimFront(s[1..]) else s
  }

  function TrimBack(s: string): string {
    if s != "" && Blank(s[|s| - 1]) then TrimBack(s[..|s| - 1]) else s
  }

  function Trimmed(s: string): string {
    TrimBack(TrimFront(s))
  }

  method Trim(s: string) returns (t: string)
    ensures t == Trimmed(s)
  {
    t := s;
    while t != "" && Blank(t[0])
      invariant TrimFront(t) == TrimFront(s)
      decreases |t|
    {
      t := t[1..];
    }
    while t != "" && Blank(t[|t| - 1])
      invariant TrimBack(t) == Trimmed(s)
      decreases |t|
    {
      t := t[..|t| - 1];
    }
  }

  function WholeInt(s: string): Option<int> {
    var minus := s != "" && s[0] == '-';
    var digits := if minus then s[1..] else s;
    if digits == "" || DigitRun(digits) != |digits| then None
    else
      var n: int := DigitsValue(digits);
      var value := if minus then -n else n;
      if InRange(value) then Some(value) else None
  }

  function WholeNumber(s: string): Option<real> {
    var scanned := ScanNumber(s);
    if s == "" || scanned.used != |s| then None else Some(scanned.value)
  }

  function Typed(text: string, integer: bool): (v: Option<FieldValue>)
    ensures v.Some? ==> IsNumber(v.value)
  {
    var t := Trimmed(text);
    if t == "" then None
    else if integer then (var n := WholeInt(t); if n == None then None else Some(Int(n.value)))
    else (var x := WholeNumber(t); if x == None then None else Some(Num(x.value)))
  }

  method ParseNumber(text: string, integer: bool) returns (v: Option<FieldValue>)
    ensures v == Typed(text, integer)
  {
    var t := Trim(text);
    if t == "" {
      return None;
    }
    if integer {
      var n := WholeInt(t);
      return if n == None then None else Some(Int(n.value));
    }
    var x := WholeNumber(t);
    v := if x == None then None else Some(Num(x.value));
  }

  // One leaf.

  type Turn = (seq<real>, nat, real) -> (real, real, real, real)

  function AsNumber(v: FieldValue): real
    requires IsNumber(v)
  {
    if v.Int? then v.i as real else v.x
  }

  function Quaternion(q: (real, real, real, real)): FieldValue {
    Arr([Num(q.0), Num(q.1), Num(q.2), Num(q.3)])
  }

  predicate IsRotation(leaf: FieldValue, name: string, indexed: bool) {
    !indexed && name == "rotation" && leaf.Arr? && |leaf.items| == 4
  }

  /** The leaf after `text` is typed into it, or nothing when the text is refused. `turn` sets one Euler angle, in
      degrees, of a quaternion. */
  function Assigned(leaf: FieldValue, name: string, indexed: bool, slot: int, text: string, turn: Turn)
    : Option<FieldValue>
  {
    if slot < 0 then
      if leaf.Str? then Some(Str(text)) else Typed(text, leaf.Int?)
    else if !leaf.Arr? || slot >= |leaf.items| then None
    else if IsRotation(leaf, name, indexed) then
      var degrees := Typed(text, false);
      if slot > 2 || !AllNumbers(leaf.items) || degrees == None then None
      else
        var parts := seq(4, i requires 0 <= i < 4 => AsNumber(leaf.items[i]));
        Some(Quaternion(turn(parts, slot, AsNumber(degrees.value))))
    else
      var v := Typed(text, leaf.items[slot].Int?);
      if v == None then None else Some(Arr(leaf.items[slot := v.value]))
  }

  method AssignLeafText(leaf: FieldValue, name: string, indexed: bool, slot: int, text: string, turn: Turn)
    returns (next: Option<FieldValue>)
    ensures next == Assigned(leaf, name, indexed, slot, text, turn)
  {
    if slot < 0 {
      if leaf.Str? {
        return Some(Str(text));
      }
      next := ParseNumber(text, leaf.Int?);
      return;
    }
    if !leaf.Arr? || slot >= |leaf.items| {
      return None;
    }
    var items := leaf.items;
    if !indexed && name == "rotation" && |items| == 4 {
      if slot > 2 {
        return None;
      }
      var parts: seq<real> := [];
      for i := 0 to 4
        invariant |parts| == i && forall k | 0 <= k < i :: IsNumber(items[k]) && parts[k] == AsNumber(items[k])
      {
        if !IsNumber(items[i]) {
          return None;
        }
        parts := parts + [AsNumber(items[i])];
      }
      var degrees := ParseNumber(text, false);
      if degrees == None {
        return None;
      }
      assert parts == seq(4, i requires 0 <= i < 4 => AsNumber(leaf.items[i]));
      return Some(Quaternion(turn(parts, slot, AsNumber(degrees.value))));
    }
    var v := ParseNumber(text, items[slot].Int?);
    if v == None {
      return None;
    }
    next := Some(Arr(items[slot := v.value]));
  }

  // Writing through a path.

  function Set(table: FieldTable, key: string, v: FieldValue): FieldTable
    requires Find(table, key).Some?
  {
    if table[0].key == key then [Field(key, v)] + table[1..] else [table[0]] + Set(table[1..], key, v)
  }

  function SetStep(table: FieldTable, s: PathStep, v: FieldValue): FieldTable
    requires Pick(table, s).Some?
  {
    var was := Find(table, s.key).value;
    Set(table, s.key, if s.index == None then v else Arr(was.items[s.index.value := v]))
  }

  /** The table after a write through the reference that following `steps` gives. */
  function Put(table: FieldTable, steps: seq<PathStep>, v: FieldValue): FieldTable
    requires Resolve(table, steps).Some?
    decreases |steps|
  {
    var s := steps[0];
    SetStep(table, s, if |steps| == 1 then v else Tab(Put(Pick(table, s).value.table, steps[1..], v)))
  }

  function EditedText(table: FieldTable, key: string, slot: int, text: string, turn: Turn): Option<FieldTable> {
    var steps := ParsePath(key);
    if steps == None || Resolve(table, steps.value) == None then None
    else
      var last := steps.value[|steps.value| - 1];
      var next := Assigned(Resolve(table, steps.value).value, last.key, last.index.Some?, slot, text, turn);
      if next == None then None else Some(Put(table, steps.value, next.value))
  }

  function EditedBool(table: FieldTable, key: string, flag: bool): Option<FieldTable> {
    var steps := ParsePath(key);
    if steps == None then None
    else
      var leaf := Resolve(table, steps.value);
      if leaf == None || !leaf.value.Bool? then None else Some(Put(table, steps.value, Bool(flag)))
  }

  /** A component's table while the inspector edits it. */
  class Component {
    var table: FieldTable

    constructor (table: FieldTable)
      ensures this.table == table
    {
      this.table := table;
    }

    method AssignText(key: string, slot: int, text: string, turn: Turn) returns (ok: bool)
      modifies this
      ensures ok <==> EditedText(old(table), key, slot, text, turn).Some?
      ensures table == if ok then EditedText(old(table), key, slot, text, turn).value else old(table)
    {
      var steps := ParseFieldPath(key);
      if steps == None {
        return false;
      }
      var leaf := ResolveField(table, steps.value);
      if leaf == None {
        return false;
      }
      var last := steps.value[|steps.value| - 1];
      var next := AssignLeafText(leaf.value, last.key, last.index.Some?, slot, text, turn);
      if next == None {
        return false;
      }
      table := Put(table, steps.value, next.value);
      ok := true;
    }

    method AssignBool(key: string, flag: bool) returns (ok: bool)
      modifies this
      ensures ok <==> EditedBool(old(table), key, flag).Some?
      ensures table == if ok then EditedBool(old(table), key, flag).value else old(table)
    {
      var steps := ParseFieldPath(key);
      if steps == None {
        return false;
      }
      var leaf := ResolveField(table, steps.value);
      if leaf == None || !leaf.value.Bool? {
        return false;
      }
      table := Put(table, steps.value, Bool(flag));
      ok := true;
    }
  }

  // What a write changes.

  lemma {:induction false} SetFinds(table: FieldTable, key: string, v: FieldValue, other: string)
    requires Find(table, key).Some?
    ensures Find(Set(table, key, v), other) == if other == key then Some(v) else Find(table, other)
    decreases |table|
  {
    assert ([Field(key, v)] + table[1..])[1..] == table[1..];
    if table[0].key != key {
      assert ([table[0]] + Set(table[1..], key, v))[1..] == Set(table[1..], key, v);
      SetFinds(table[1..], key, v, other);
    }
  }

  lemma SetStepPicks(table: FieldTable, s: PathStep, v: FieldValue, t: PathStep)
    requires Pick(table, s).Some?
    ensures Pick(SetStep(table, s, v), s) == Some(v)
    ensures Separate(s, t) ==> Pick(SetStep(table, s, v), t) == Pick(table, t)
  {
    var w := if s.index == None then v else Arr(Find(table, s.key).value.items[s.index.value := v]);
    SetFinds(table, s.key, w, s.key);
    SetFinds(table, s.key, w, t.key);
  }

  /** The path that was written reads back what was written. */
  lemma {:induction false} PutReadsBack(table: FieldTable, p: seq<PathStep>, v: FieldValue)
    requires Resolve(table, p).Some?
    ensures Resolve(Put(table, p, v), p) == Some(v)
    decreases |p|
  {
    var s := p[0];
    if |p| == 1 {
      SetStepPicks(table, s, v, s);
    } else {
      var inner := Put(Pick(table, s).value.table, p[1..], v);
      SetStepPicks(table, s, Tab(inner), s);
      PutReadsBack(Pick(table, s).value.table, p[1..], v);
    }
  }

  /** Every path that parts ways with the written one reads what it read before. */
  lemma {:induction false} PutLeavesTheRest(table: FieldTable, p: seq<PathStep>, v: FieldValue, q: seq<PathStep>)
    requires Resolve(table, p).Some? && Apart(p, q)
    ensures Resolve(Put(table, p, v), q) == Resolve(table, q)
    decreases |p|
  {
    var s := p[0];
    var inner := if |p| == 1 then v else Tab(Put(Pick(table, s).value.table, p[1..], v));
    SetStepPicks(table, s, inner, q[0]);
    if s == q[0] {
      PutLeavesTheRest(Pick(table, s).value.table, p[1..], v, q[1..]);
    }
  }

  /** What typing does, seen from the paths: the named leaf becomes the assigned one, every other path keeps its
      value. */
  lemma TextChangesOneLeaf(table: FieldTable, key: string, slot: int, text: string, turn: Turn, q: seq<PathStep>)
    requires EditedText(table, key, slot, text, turn).Some?
    ensures var p, now := ParsePath(key).value, EditedText(table, key, slot, text, turn).value;
      Assigned(Resolve(table, p).value, p[|p| - 1].key, p[|p| - 1].index.Some?, slot, text, turn) == Resolve(now, p)
      && (Apart(p, q) ==> Resolve(now, q) == Resolve(table, q))
  {
    var p := ParsePath(key).value;
    var last := p[|p| - 1];
    var next := Assigned(Resolve(table, p).value, last.key, last.index.Some?, slot, text, turn);
    PutReadsBack(table, p, next.value);
    if Apart(p, q) {
      PutLeavesTheRest(table, p, next.value, q);
    }
  }

  lemma FlagChangesOneLeaf(table: FieldTable, key: string, flag: bool, q: seq<PathStep>)
    requires EditedBool(table, key, flag).Some?
    ensures var p, now := ParsePath(key).value, EditedBool(table, key, flag).value;
      Resolve(now, p) == Some(Bool(flag)) && (Apart(p, q) ==> Resolve(now, q) == Resolve(table, q))
  {
    var p := ParsePath(key).value;
    PutReadsBack(table, p, Bool(flag));
    if Apart(p, q) {
      PutLeavesTheRest(table, p, Bool(flag), q);
    }
  }

  // Which rows an edit changes.

  /** Two values the inspector lays out alike. */
  ghost predicate SameShape(v: FieldValue, w: FieldValue)
    decreases v, 0
  {
    match v
    case Int(_) => IsNumber(w)
    case Num(_) => IsNumber(w)
    case Bool(_) => w.Bool?
    case Str(_) => w.Str?
    case Arr(items) =>
      w.Arr? && |w.items| == |items| && forall i | 0 <= i < |items| :: SameShape(items[i], w.items[i])
    case Tab(t) => w.Tab? && SameTable(t, w.table)
  }

  ghost predicate SameTable(t: FieldTable, u: FieldTable)
    decreases t, 1
  {
    |t| == |u| && forall i | 0 <= i < |t| :: t[i].key == u[i].key && SameShape(t[i].value, u[i].value)
  }

  lemma {:induction false} ShapeOfItself(v: FieldValue)
    ensures SameShape(v, v)
    decreases v, 0
  {
    if v.Arr? {
      forall i | 0 <= i < |v.items| ensures SameShape(v.items[i], v.items[i]) {
        ShapeOfItself(v.items[i]);
      }
    } else if v.Tab? {
      TableOfItself(v.table);
    }
  }

  lemma {:induction false} TableOfItself(t: FieldTable)
    ensures SameTable(t, t)
    decreases t, 1
  {
    forall i | 0 <= i < |t| ensures SameShape(t[i].value, t[i].value) {
      ShapeOfItself(t[i].value);
    }
  }

  /** An edit a row offers: a whole string or number, or one number of a short vector. */
  predicate Fits(leaf: FieldValue, slot: int) {
    if slot < 0 then leaf.Str? || IsNumber(leaf)
    else leaf.Arr? && slot < |leaf.items| && IsNumber(leaf.items[slot])
  }

  /** An accepted text keeps the shape of the leaf exactly when the edit is one a row offers. Otherwise a flag, an array
      or a table has become a number. */
  lemma FitsKeepsShape(leaf: FieldValue, name: string, indexed: bool, slot: int, text: string, turn: Turn)
    requires Assigned(leaf, name, indexed, slot, text, turn).Some?
    ensures SameShape(leaf, Assigned(leaf, name, indexed, slot, text, turn).value) <==> Fits(leaf, slot)
    ensures !Fits(leaf, slot) && slot < 0 ==> Assigned(leaf, name, indexed, slot, text, turn).value.Num?
  {
    var next := Assigned(leaf, name, indexed, slot, text, turn).value;
    if slot >= 0 && IsRotation(leaf, name, indexed) {
      forall i | 0 <= i < 4 ensures SameShape(leaf.items[i], next.items[i]) {
        assert IsNumber(leaf.items[i]);
      }
    } else if slot >= 0 {
      OneItemShape(leaf.items, slot, next.items[slot]);
    }
  }

  /** Typing 1 into a flag makes it a number. */
  lemma FlagBecomesNumber(name: string, turn: Turn)
    ensures Assigned(Bool(true), name, false, -1, "1", turn) == Some(Num(1.0))
  {
    assert Trimmed("1") == "1";
    assert Digits(1) == "1";
    ScanDecimal(1);
    assert ScanNumber("1") == Scanned(1, 1.0);
  }

  /** Putting a number into an array keeps its shape exactly when a number was there. */
  lemma OneItemShape(items: seq<FieldValue>, slot: nat, v: FieldValue)
    requires slot < |items| && IsNumber(v)
    ensures SameShape(Arr(items), Arr(items[slot := v])) <==> IsNumber(items[slot])
  {
    forall i | 0 <= i < |items| && i != slot ensures SameShape(items[i], items[slot := v][i]) {
      ShapeOfItself(items[i]);
    }
    assert SameShape(items[slot], v) <==> IsNumber(items[slot]);
    if IsNumber(items[slot]) {
      assert forall i | 0 <= i < |items| :: SameShape(items[i], items[slot := v][i]);
    } else {
      assert !SameShape(items[slot], items[slot := v][slot]);
    }
  }

  lemma {:induction false} SetKeepsShape(table: FieldTable, key: string, v: FieldValue)
    requires Find(table, key).Some? && SameShape(Find(table, key).value, v)
    ensures SameTable(table, Set(table, key, v))
    decreases |table|
  {
    TableOfItself(table);
    if table[0].key == key {
      assert forall i | 1 <= i < |table| :: ([Field(key, v)] + table[1..])[i] == table[i];
    } else {
      SetKeepsShape(table[1..], key, v);
      var rest := Set(table[1..], key, v);
      forall i | 1 <= i < |table|
        ensures ([table[0]] + rest)[i].key == table[i].key && SameShape(table[i].value, ([table[0]] + rest)[i].value)
      {
        assert table[i] == table[1..][i - 1] && ([table[0]] + rest)[i] == rest[i - 1];
      }
    }
  }

  lemma SetStepKeepsShape(table: FieldTable, s: PathStep, v: FieldValue)
    requires Pick(table, s).Some? && SameShape(Pick(table, s).value, v)
    ensures SameTable(table, SetStep(table, s, v))
  {
    var was := Find(table, s.key).value;
    if s.index == None {
      SetKeepsShape(table, s.key, v);
    } else {
      ShapeOfItself(was);
      SetKeepsShape(table, s.key, Arr(was.items[s.index.value := v]));
    }
  }

  lemma {:induction false} PutKeepsShape(table: FieldTable, p: seq<PathStep>, v: FieldValue)
    requires Resolve(table, p).Some? && SameShape(Resolve(table, p).value, v)
    ensures SameTable(table, Put(table, p, v))
    decreases |p|
  {
    if |p| == 1 {
      SetStepKeepsShape(table, p[0], v);
    } else {
      var inner := Pick(table, p[0]).value.table;
      PutKeepsShape(inner, p[1..], v);
      SetStepKeepsShape(table, p[0], Tab(Put(inner, p[1..], v)));
    }
  }
}
