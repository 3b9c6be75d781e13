/** What rows a field of each form gets, under which names, and in which order. */
module RowForms {
  import opened Basics
  import opened Fields
  import opened JsonText
  import opened InspectorPaths
  import opened InspectorRows
  import opened RowTheorems

  function Bracketed(i: nat): string {
    "[" + Digits(i) + "]"
  }

  /** Fields one after the other have their rows one after the other, whatever their values are. */
  lemma {:induction false} DirectJoin(prefix: string, a: FieldTable, b: FieldTable, editable: bool)
    ensures DirectRows(prefix, a + b, editable) == DirectRows(prefix, a, editable) + DirectRows(prefix, b, editable)
    decreases |a|
  {
    hide FieldRows;
    if a == [] {
      assert a + b == b;
    } else {
      assert (a + b)[0] == a[0] && (a + b)[1..] == a[1..] + b;
      DirectJoin(prefix, a[1..], b, editable);
      Associative(FieldRows(prefix, a[0], editable), DirectRows(prefix, a[1..], editable),
        DirectRows(prefix, b, editable));
    }
  }

  lemma {:induction false} ScalarRows(prefix: string, table: FieldTable, editable: bool)
    requires forall i | 0 <= i < |table| :: table[i].value.Int? || table[i].value.Num? || table[i].value.Bool?
                                             || table[i].value.Str?
    ensures |DirectRows(prefix, table, editable)| == |table|
    ensures forall i | 0 <= i < |table| ::
      DirectRows(prefix, table, editable)[i]
      == Row((if prefix == "" then "" else prefix + ".") + table[i].key, table[i].key, table[i].value, editable)
    ensures AllRows(NestedSections(prefix, table, editable)) == []
    decreases |table|
  {
    if table != [] {
      var more := table[1..];
      assert forall i | 0 <= i < |more| :: more[i] == table[i + 1];
      ScalarRows(prefix, more, editable);
      NestedRows(prefix, table, editable);
      assert "" + table[0].key == table[0].key;
      assert prefix + "." + table[0].key == (prefix + ".") + table[0].key;
    }
  }

  /** A table of scalars: one row for each field, in the order of the fields, under the field's key. */
  lemma ScalarsInOrder(table: FieldTable, editable: bool)
    requires forall i | 0 <= i < |table| :: table[i].value.Int? || table[i].value.Num? || table[i].value.Bool?
                                             || table[i].value.Str?
    ensures |RowsOf(table, editable)| == |table|
    ensures forall i | 0 <= i < |table| ::
      RowsOf(table, editable)[i] == Row(table[i].key, table[i].key, table[i].value, editable)
  {
    ScalarRows("", table, editable);
    if table != [] {
      TableRows("", table, editable);
    } else {
      assert AllRows([NO_FIELDS]) == [] + AllRows([]);
    }
    assert forall i | 0 <= i < |table| :: "" + table[i].key == table[i].key;
  }

  /** A table inside comes after the scalars beside it, whichever is first, with its rows under its key. */
  lemma NestedAfter(k: string, inner: FieldTable, l: string, n: int, editable: bool)
    requires k != "" && inner != []
    requires forall i | 0 <= i < |inner| :: inner[i].value.Int?
    ensures var rows := RowsOf([Field(k, Tab(inner)), Field(l, Int(n))], editable);
      && |rows| == 1 + |inner| && rows[0] == Row(l, l, Int(n), editable)
      && forall i | 0 <= i < |inner| ::
           rows[i + 1] == Row(k + "." + inner[i].key, inner[i].key, inner[i].value, editable)
  {
    var table := [Field(k, Tab(inner)), Field(l, Int(n))];
    var rest := [Field(l, Int(n))];
    assert table[1..] == rest && rest[1..] == [];
    TableRows("", table, editable);
    NestedRows("", table, editable);
    NestedRows("", rest, editable);
    TableRows(k, inner, editable);
    ScalarRows(k, inner, editable);
    assert FieldSections(k, Tab(inner), editable) == Sections(k, inner, editable);
    assert DirectRows("", rest, editable) == [Row(l, l, Int(n), editable)] + [];
    assert DirectRows("", table, editable) == [] + DirectRows("", rest, editable);
  }

  /** A table without fields and an array without items each get a section that says so. */
  lemma EmptySections(prefix: string, editable: bool)
    ensures Sections(prefix, [], editable) == [Section([], ["(no fields)"])]
    ensures FieldSections(prefix, Arr([]), editable) == [Section([], ["(empty)"])]
  {
  }

  predicate Alike(items: seq<FieldValue>) {
    || (forall v | v in items :: v.Int? || v.Num?)
    || (forall v | v in items :: v.Str?)
    || (forall v | v in items :: v.Bool?)
  }

  lemma LayoutIs(items: seq<FieldValue>)
    ensures AllNumbers(items) <==> forall v | v in items :: v.Int? || v.Num?
    ensures AllStrings(items) <==> forall v | v in items :: v.Str?
    ensures AllBools(items) <==> forall v | v in items :: v.Bool?
    ensures AllTables(items) <==> forall v | v in items :: v.Tab?
  {
  }

  /** An array: up to four numbers are one row; more numbers, and strings or flags, are a row each; tables get sections;
      a mixture is one row that cannot be edited. */
  lemma ArrayRows(k: string, items: seq<FieldValue>, editable: bool)
    requires items != []
    ensures var rows := DirectRows("", [Field(k, Arr(items))], editable);
      if |items| <= 4 && forall v | v in items :: v.Int? || v.Num? then rows == [Row(k, k, Arr(items), editable)]
      else if forall v | v in items :: v.Tab? then rows == []
      else if Alike(items) then
        |rows| == |items|
        && forall i | 0 <= i < |items| :: rows[i] == Row(k + Bracketed(i), k + Bracketed(i), items[i], editable)
      else rows == [Row(k, k, Arr(items), false)]
  {
    LayoutIs(items);
    var table := [Field(k, Arr(items))];
    assert table[1..] == [];
    assert DirectRows("", table, editable) == FieldRows("", table[0], editable) + [];
  }

  /** The rows of an array of tables are those of its tables in turn, each under its index. */
  lemma TablesInOrder(k: string, s: FieldTable, t: FieldTable, editable: bool)
    requires k != "" && s != [] && t != []
    requires (forall i | 0 <= i < |s| :: s[i].value.Int?) && (forall i | 0 <= i < |t| :: t[i].value.Int?)
    ensures var rows := AllRows(FieldSections(k, Arr([Tab(s), Tab(t)]), editable));
      && |rows| == |s| + |t|
      && (forall i | 0 <= i < |s| :: rows[i] == Row(k + "[0]" + "." + s[i].key, s[i].key, s[i].value, editable))
      && (forall i | 0 <= i < |t| ::
            rows[|s| + i] == Row(k + "[1]" + "." + t[i].key, t[i].key, t[i].value, editable))
  {
    hide Sections, Digits;
    var items := [Tab(s), Tab(t)];
    IndexTexts();
    OneTable(k + "[0]", s, editable);
    OneTable(k + "[1]", t, editable);
    ElementRows(k, items, 0, editable);
    ElementRows(k, items, 1, editable);
    assert AllRows(ElementSections(k, items, 2, editable)) == [];
    assert LayoutOf(items) == Tables;
  }

  lemma IndexTexts()
    ensures IndexText(Some(0)) == "[0]" && IndexText(Some(1)) == "[1]"
  {
  }

  lemma OneTable(path: string, t: FieldTable, editable: bool)
    requires path != "" && t != [] && forall i | 0 <= i < |t| :: t[i].value.Int?
    ensures var rows := AllRows(Sections(path, t, editable));
      && |rows| == |t|
      && forall i | 0 <= i < |t| :: rows[i] == Row(path + "." + t[i].key, t[i].key, t[i].value, editable)
  {
    TableRows(path, t, editable);
    ScalarRows(path, t, editable);
  }
}
