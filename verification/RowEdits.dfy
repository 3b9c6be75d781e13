/** An edit made through one row of the inspector changes that row and no other. */
module RowEdits {
  import opened Basics
  import opened Fields
  import opened InspectorPaths
  import opened InspectorRows
  import opened RowTheorems
  import opened InspectorEdit

  /** Two lists of rows that differ in their values only. */
  ghost predicate SameRows(a: seq<Row>, b: seq<Row>) {
    |a| == |b|
    && forall i | 0 <= i < |a| :: a[i].key == b[i].key && a[i].name == b[i].name && a[i].editable == b[i].editable
  }

  lemma SameLayout(a: seq<FieldValue>, b: seq<FieldValue>)
    requires SameShape(Arr(a), Arr(b))
    ensures LayoutOf(a) == LayoutOf(b)
  {
    assert forall i | 0 <= i < |a| :: SameShape(a[i], b[i]);
    assert AllNumbers(a) <==> AllNumbers(b) by {
      assert forall i | 0 <= i < |a| :: IsNumber(a[i]) <==> IsNumber(b[i]);
    }
    assert AllTables(a) <==> AllTables(b) by {
      assert forall i | 0 <= i < |a| :: a[i].Tab? <==> b[i].Tab?;
    }
    assert AllStrings(a) <==> AllStrings(b) by {
      assert forall i | 0 <= i < |a| :: a[i].Str? <==> b[i].Str?;
    }
    assert AllBools(a) <==> AllBools(b) by {
      assert forall i | 0 <= i < |a| :: a[i].Bool? <==> b[i].Bool?;
    }
  }

  lemma FieldAlike(prefix: string, f: Field, g: Field, editable: bool)
    requires f.key == g.key && SameShape(f.value, g.value)
    ensures SameRows(FieldRows(prefix, f, editable), FieldRows(prefix, g, editable))
    ensures Nests(f.value) == Nests(g.value)
  {
    if f.value.Arr? {
      SameLayout(f.value.items, g.value.items);
    }
  }

  lemma JoinAlike(a: seq<Row>, b: seq<Row>, c: seq<Row>, d: seq<Row>)
    requires SameRows(a, b) && SameRows(c, d)
    ensures SameRows(a + c, b + d)
  {
  }

  lemma {:induction false} DirectAlike(prefix: string, t: FieldTable, u: FieldTable, editable: bool)
    requires SameTable(t, u)
    ensures SameRows(DirectRows(prefix, t, editable), DirectRows(prefix, u, editable))
    decreases |t|
  {
    if t != [] {
      FieldAlike(prefix, t[0], u[0], editable);
      TailAlike(t, u);
      DirectAlike(prefix, t[1..], u[1..], editable);
      JoinAlike(FieldRows(prefix, t[0], editable), FieldRows(prefix, u[0], editable),
        DirectRows(prefix, t[1..], editable), DirectRows(prefix, u[1..], editable));
    }
  }

  lemma TailAlike(t: FieldTable, u: FieldTable)
    requires SameTable(t, u) && t != []
    ensures SameTable(t[1..], u[1..])
  {
    forall i | 0 <= i < |t| - 1
      ensures t[1..][i].key == u[1..][i].key && SameShape(t[1..][i].value, u[1..][i].value)
    {
      assert t[1..][i] == t[i + 1] && u[1..][i] == u[i + 1];
    }
  }

  lemma {:induction false} TableAlike(prefix: string, t: FieldTable, u: FieldTable, editable: bool)
    requires SameTable(t, u)
    ensures SameRows(AllRows(Sections(prefix, t, editable)), AllRows(Sections(prefix, u, editable)))
    decreases t, 1
  {
    if t != [] {
      DirectAlike(prefix, t, u, editable);
      NestedAlike(prefix, t, u, editable);
      TableRows(prefix, t, editable);
      TableRows(prefix, u, editable);
      JoinAlike(DirectRows(prefix, t, editable), DirectRows(prefix, u, editable),
        AllRows(NestedSections(prefix, t, editable)), AllRows(NestedSections(prefix, u, editable)));
    }
  }

  lemma {:induction false} NestedAlike(prefix: string, t: FieldTable, u: FieldTable, editable: bool)
    requires SameTable(t, u)
    ensures SameRows(AllRows(NestedSections(prefix, t, editable)), AllRows(NestedSections(prefix, u, editable)))
    decreases t, 0
  {
    if t != [] {
      var path := ChildPath(prefix, t[0].key);
      ValueAlike(path, t[0].value, u[0].value, editable);
      TailAlike(t, u);
      NestedAlike(prefix, t[1..], u[1..], editable);
      NestedRows(prefix, t, editable);
      NestedRows(prefix, u, editable);
      JoinAlike(AllRows(FieldSections(path, t[0].value, editable)), AllRows(FieldSections(path, u[0].value, editable)),
        AllRows(NestedSections(prefix, t[1..], editable)), AllRows(NestedSections(prefix, u[1..], editable)));
    }
  }

  lemma {:induction false} ValueAlike(path: string, v: FieldValue, w: FieldValue, editable: bool)
    requires SameShape(v, w)
    ensures SameRows(AllRows(FieldSections(path, v, editable)), AllRows(FieldSections(path, w, editable)))
    decreases v, 0
  {
    if v.Tab? {
      TableAlike(path, v.table, w.table, editable);
    } else if v.Arr? {
      SameLayout(v.items, w.items);
      if LayoutOf(v.items) == Tables {
        ShapesAreTables(v.items, w.items);
        ElementsAlike(path, v.items, w.items, 0, editable);
      }
    }
  }

  ghost predicate SameTables(a: seq<FieldValue>, b: seq<FieldValue>) {
    |a| == |b| && AllTables(a) && AllTables(b) && forall i | 0 <= i < |a| :: SameTable(a[i].table, b[i].table)
  }

  lemma ShapesAreTables(a: seq<FieldValue>, b: seq<FieldValue>)
    requires SameShape(Arr(a), Arr(b)) && AllTables(a) && AllTables(b)
    ensures SameTables(a, b)
  {
    forall i | 0 <= i < |a| ensures SameTable(a[i].table, b[i].table) {
      assert SameShape(a[i], b[i]);
    }
  }

  lemma OneMoreAlike(path: string, a: seq<FieldValue>, b: seq<FieldValue>, from: nat, editable: bool)
    requires |a| == |b| && AllTables(a) && AllTables(b) && from < |a|
    requires SameRows(
      AllRows(Sections(path + IndexText(Some(from)), a[from].table, editable)),
      AllRows(Sections(path + IndexText(Some(from)), b[from].table, editable)))
    requires SameRows(
      AllRows(ElementSections(path, a, from + 1, editable)), AllRows(ElementSections(path, b, from + 1, editable)))
    ensures SameRows(
      AllRows(ElementSections(path, a, from, editable)), AllRows(ElementSections(path, b, from, editable)))
  {
    hide IndexText;
    ElementRows(path, a, from, editable);
    ElementRows(path, b, from, editable);
    var p := path + IndexText(Some(from));
    JoinAlike(AllRows(Sections(p, a[from].table, editable)), AllRows(Sections(p, b[from].table, editable)),
      AllRows(ElementSections(path, a, from + 1, editable)), AllRows(ElementSections(path, b, from + 1, editable)));
  }

  lemma {:induction false} ElementsAlike(
    path: string, a: seq<FieldValue>, b: seq<FieldValue>, from: nat, editable: bool)
    requires SameTables(a, b) && from <= |a|
    ensures SameRows(
      AllRows(ElementSections(path, a, from, editable)), AllRows(ElementSections(path, b, from, editable)))
    decreases a, |a| - from
  {
    hide IndexText;
    if from < |a| {
      TableAlike(path + IndexText(Some(from)), a[from].table, b[from].table, editable);
      ElementsAlike(path, a, b, from + 1, editable);
      OneMoreAlike(path, a, b, from, editable);
    }
  }

  lemma {:induction false} ShapeKeepsKeys(v: FieldValue, w: FieldValue)
    requires WellKeyedValue(v) && SameShape(v, w)
    ensures WellKeyedValue(w)
    decreases v, 0
  {
    if v.Tab? {
      TableKeepsKeys(v.table, w.table);
    } else if v.Arr? {
      forall i | 0 <= i < |w.items| ensures WellKeyedValue(w.items[i]) {
        ShapeKeepsKeys(v.items[i], w.items[i]);
      }
    }
  }

  lemma {:induction false} TableKeepsKeys(t: FieldTable, u: FieldTable)
    requires WellKeyed(t) && SameTable(t, u)
    ensures WellKeyed(u)
    decreases t, 1
  {
    forall i | 0 <= i < |u| ensures PathKey(u[i].key) && WellKeyedValue(u[i].value) {
      ShapeKeepsKeys(t[i].value, u[i].value);
    }
    forall i, j | 0 <= i < j < |u| ensures u[i].key != u[j].key {
      assert t[i].key != t[j].key;
    }
  }

  /** A write of the same shape through the key of row `i`: the inspector shows the new value there and every other row
      as before. */
  lemma WriteChangesOneRow(root: FieldTable, editable: bool, i: nat, v: FieldValue)
    requires WellKeyed(root) && i < |RowsOf(root, editable)| && SameShape(RowsOf(root, editable)[i].value, v)
    ensures Resolve(root, Steps(RowsOf(root, editable)[i])).Some?
    ensures var now := Put(root, Steps(RowsOf(root, editable)[i]), v);
      WellKeyed(now) && RowsOf(now, editable) == RowsOf(root, editable)[i := RowsOf(root, editable)[i].(value := v)]
  {
    var rows := RowsOf(root, editable);
    KeyLeadsToValue(root, editable, i);
    var p := Steps(rows[i]);
    var now := Put(root, p, v);
    PutKeepsShape(root, p, v);
    TableKeepsKeys(root, now);
    TableAlike("", root, now, editable);
    var next := RowsOf(now, editable);
    forall j | 0 <= j < |rows| ensures next[j] == rows[i := rows[i].(value := v)][j] {
      KeyLeadsToValue(root, editable, j);
      KeyLeadsToValue(now, editable, j);
      if j == i {
        PutReadsBack(root, p, v);
      } else {
        if i < j {
          KeysDiffer(root, editable, i, j);
        } else {
          KeysDiffer(root, editable, j, i);
          ApartBothWays(Steps(rows[j]), p);
        }
        PutLeavesTheRest(root, p, v, Steps(rows[j]));
      }
    }
  }

  lemma {:induction false} ApartBothWays(a: seq<PathStep>, b: seq<PathStep>)
    requires Apart(a, b)
    ensures Apart(b, a)
    decreases |a|
  {
    if a[0] == b[0] {
      ApartBothWays(a[1..], b[1..]);
    }
  }

  /** What a row's value becomes when `text` is typed into it. */
  function TypedInto(row: Row, slot: int, text: string, turn: Turn): Option<FieldValue> {
    var p := Steps(row);
    if p == [] then None
    else Assigned(row.value, p[|p| - 1].key, p[|p| - 1].index.Some?, slot, text, turn)
  }

  lemma EditedThroughRow(root: FieldTable, row: Row, slot: int, text: string, turn: Turn)
    requires ParsePath(row.key) == Some(Steps(row)) && Resolve(root, Steps(row)) == Some(row.value)
    ensures EditedText(root, row.key, slot, text, turn) ==
      if TypedInto(row, slot, text, turn) == None then None
      else Some(Put(root, Steps(row), TypedInto(row, slot, text, turn).value))
  {
  }

  /** Typing into a row that fits it changes exactly that row, and nothing when the text is refused. */
  lemma TypingChangesOneRow(root: FieldTable, editable: bool, i: nat, slot: int, text: string, turn: Turn)
    requires WellKeyed(root) && i < |RowsOf(root, editable)| && Fits(RowsOf(root, editable)[i].value, slot)
    ensures var row := RowsOf(root, editable)[i];
      var next, now := TypedInto(row, slot, text, turn), EditedText(root, row.key, slot, text, turn);
      (now.Some? <==> next.Some?)
      && (now.Some? ==>
            WellKeyed(now.value)
            && RowsOf(now.value, editable) == RowsOf(root, editable)[i := row.(value := next.value)])
  {
    var row := RowsOf(root, editable)[i];
    KeyLeadsToValue(root, editable, i);
    EditedThroughRow(root, row, slot, text, turn);
    var next := TypedInto(row, slot, text, turn);
    if next.Some? {
      var last := Steps(row)[|Steps(row)| - 1];
      FitsKeepsShape(row.value, last.key, last.index.Some?, slot, text, turn);
      WriteChangesOneRow(root, editable, i, next.value);
    }
  }

  /** Switching a flag changes exactly its row. */
  lemma SwitchingChangesOneRow(root: FieldTable, editable: bool, i: nat, flag: bool)
    requires WellKeyed(root) && i < |RowsOf(root, editable)|
    ensures var rows := RowsOf(root, editable);
      var now := EditedBool(root, rows[i].key, flag);
      (now.Some? <==> rows[i].value.Bool?)
      && (now.Some? ==> WellKeyed(now.value) && RowsOf(now.value, editable) == rows[i := rows[i].(value := Bool(flag))])
  {
    KeyLeadsToValue(root, editable, i);
    if RowsOf(root, editable)[i].value.Bool? {
      WriteChangesOneRow(root, editable, i, Bool(flag));
    }
  }

  // Which rows can be edited.

  /** A scalar, or a short vector of numbers. */
  predicate Offered(v: FieldValue) {
    IsScalar(v) || (v.Arr? && LayoutOf(v.items) == ShortNumeric)
  }

  ghost predicate OfferedRows(rows: seq<Row>, editable: bool) {
    forall i | 0 <= i < |rows| :: rows[i].editable <==> editable && Offered(rows[i].value)
  }

  lemma JoinOffers(a: seq<Row>, b: seq<Row>, editable: bool)
    requires OfferedRows(a, editable) && OfferedRows(b, editable)
    ensures OfferedRows(a + b, editable)
  {
  }

  lemma FieldOffers(prefix: string, f: Field, editable: bool)
    ensures OfferedRows(FieldRows(prefix, f, editable), editable)
  {
    if f.value.Arr? && LayoutOf(f.value.items) == ScalarElements {
      assert forall i | 0 <= i < |f.value.items| :: IsScalar(f.value.items[i]);
    }
  }

  lemma {:induction false} DirectOffers(prefix: string, fields: FieldTable, editable: bool)
    ensures OfferedRows(DirectRows(prefix, fields, editable), editable)
    decreases |fields|
  {
    if fields != [] {
      FieldOffers(prefix, fields[0], editable);
      DirectOffers(prefix, fields[1..], editable);
    }
  }

  lemma {:induction false} TableOffers(prefix: string, table: FieldTable, editable: bool)
    ensures OfferedRows(AllRows(Sections(prefix, table, editable)), editable)
    decreases table, 1
  {
    if table != [] {
      DirectOffers(prefix, table, editable);
      NestedOffers(prefix, table, editable);
      TableRows(prefix, table, editable);
      JoinOffers(DirectRows(prefix, table, editable), AllRows(NestedSections(prefix, table, editable)), editable);
    }
  }

  lemma {:induction false} NestedOffers(prefix: string, fields: FieldTable, editable: bool)
    ensures OfferedRows(AllRows(NestedSections(prefix, fields, editable)), editable)
    decreases fields, 0
  {
    if fields != [] {
      var path := ChildPath(prefix, fields[0].key);
      ValueOffers(path, fields[0].value, editable);
      NestedOffers(prefix, fields[1..], editable);
      NestedRows(prefix, fields, editable);
      JoinOffers(AllRows(FieldSections(path, fields[0].value, editable)),
        AllRows(NestedSections(prefix, fields[1..], editable)), editable);
    }
  }

  lemma {:induction false} ValueOffers(path: string, v: FieldValue, editable: bool)
    ensures OfferedRows(AllRows(FieldSections(path, v, editable)), editable)
    decreases v, 0
  {
    if v.Tab? {
      TableOffers(path, v.table, editable);
    } else if v.Arr? && LayoutOf(v.items) == Tables {
      ElementsOffer(path, v.items, 0, editable);
    }
  }

  lemma {:induction false} ElementsOffer(path: string, items: seq<FieldValue>, from: nat, editable: bool)
    requires AllTables(items) && from <= |items|
    ensures OfferedRows(AllRows(ElementSections(path, items, from, editable)), editable)
    decreases items, |items| - from
  {
    hide IndexText;
    if from < |items| {
      var p := path + IndexText(Some(from));
      TableOffers(p, items[from].table, editable);
      ElementsOffer(path, items, from + 1, editable);
      ElementRows(path, items, from, editable);
      JoinOffers(AllRows(Sections(p, items[from].table, editable)),
        AllRows(ElementSections(path, items, from + 1, editable)), editable);
    }
  }

  /** A row can be edited exactly when the component can and the row shows a scalar or a short vector; and then what the
      row offers fits it: a flag is switched, anything else is typed, whole or by its numbers. */
  lemma EditableRowsFit(root: FieldTable, editable: bool, i: nat)
    requires i < |RowsOf(root, editable)|
    ensures var row := RowsOf(root, editable)[i];
      (row.editable <==> editable && Offered(row.value))
      && (row.editable && IsScalar(row.value) && !row.value.Bool? ==> forall slot | slot < 0 :: Fits(row.value, slot))
      && (row.editable && row.value.Arr? ==> forall slot | 0 <= slot < |row.value.items| :: Fits(row.value, slot))
  {
    TableOffers("", root, editable);
    var row := RowsOf(root, editable)[i];
    if row.editable && row.value.Arr? {
      assert AllNumbers(row.value.items);
    }
  }
}
