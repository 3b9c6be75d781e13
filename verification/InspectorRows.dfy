/** The rows the inspector shows for a component: one for each value of a table that is not a table itself, keyed by
    the path that leads back to the value. */
module InspectorRows {
  import opened Basics
  import opened Fields
  import opened InspectorPaths

  // Following a path.

  function Find(table: FieldTable, key: string): Option<FieldValue> {
    if table == [] then None
    else if table[0].key == key then Some(table[0].value)
    else Find(table[1..], key)
  }

  function Pick(table: FieldTable, s: PathStep): Option<FieldValue> {
    var found := Find(table, s.key);
    if found == None || s.index == None then found
    else if found.value.Arr? && s.index.value < |found.value.items| then Some(found.value.items[s.index.value])
    else None
  }

  function Resolve(table: FieldTable, steps: seq<PathStep>): Option<FieldValue>
    decreases |steps|
  {
    if steps == [] then None
    else
      var found := Pick(table, steps[0]);
      if found == None || |steps| == 1 then found
      else if found.value.Tab? then Resolve(found.value.table, steps[1..])
      else None
  }

  method FindField(table: FieldTable, key: string) returns (found: Option<FieldValue>)
    ensures found == Find(table, key)
  {
    var k := 0;
    while k < |table|
      invariant k <= |table| && Find(table, key) == Find(table[k..], key)
    {
      if table[k].key == key {
        return Some(table[k].value);
      }
      assert table[k..][1..] == table[k + 1..];
      k := k + 1;
    }
    found := None;
  }

  method ResolveField(root: FieldTable, steps: seq<PathStep>) returns (value: Option<FieldValue>)
    ensures value == Resolve(root, steps)
  {
    var table := root;
    var i := 0;
    while i < |steps|
      invariant i <= |steps| && Resolve(root, steps) == Resolve(table, steps[i..])
    {
      var found := FindField(table, steps[i].key);
      if found == None {
        return None;
      }
      if steps[i].index.Some? {
        if !found.value.Arr? || steps[i].index.value >= |found.value.items| {
          return None;
        }
        found := Some(found.value.items[steps[i].index.value]);
      }
      if i + 1 == |steps| {
        return found;
      }
      if !found.value.Tab? {
        return None;
      }
      assert steps[i..][1..] == steps[i + 1..];
      table := found.value.table;
      i := i + 1;
    }
    value := None;
  }

  // How an array is laid out.

  datatype Layout = Empty | ShortNumeric | ScalarElements | Tables | Opaque

  predicate IsNumber(v: FieldValue) {
    v.Int? || v.Num?
  }

  predicate IsScalar(v: FieldValue) {
    IsNumber(v) || v.Bool? || v.Str?
  }

  predicate AllNumbers(items: seq<FieldValue>) {
    forall i | 0 <= i < |items| :: IsNumber(items[i])
  }

  predicate AllTables(items: seq<FieldValue>) {
    forall i | 0 <= i < |items| :: items[i].Tab?
  }

  predicate AllStrings(items: seq<FieldValue>) {
    forall i | 0 <= i < |items| :: items[i].Str?
  }

  predicate AllBools(items: seq<FieldValue>) {
    forall i | 0 <= i < |items| :: items[i].Bool?
  }

  function LayoutOf(items: seq<FieldValue>): Layout {
    if items == [] then Empty
    else if |items| <= 4 && AllNumbers(items) then ShortNumeric
    else if AllTables(items) then Tables
    else if AllNumbers(items) || AllStrings(items) || AllBools(items) then ScalarElements
    else Opaque
  }

  method NumericArray(items: seq<FieldValue>) returns (b: bool)
    ensures b <==> 1 <= |items| <= 4 && AllNumbers(items)
  {
    if items == [] || |items| > 4 {
      return false;
    }
    for i := 0 to |items|
      invariant forall k | 0 <= k < i :: IsNumber(items[k])
    {
      if !IsNumber(items[i]) {
        return false;
      }
    }
    b := true;
  }

  method ArrayLayout(items: seq<FieldValue>) returns (layout: Layout)
    ensures layout == LayoutOf(items)
  {
    if items == [] {
      return Empty;
    }
    var short := NumericArray(items);
    if short {
      return ShortNumeric;
    }
    var numbers, strings, bools, tables := true, true, true, true;
    for i := 0 to |items|
      invariant numbers <==> forall k | 0 <= k < i :: IsNumber(items[k])
      invariant strings <==> forall k | 0 <= k < i :: items[k].Str?
      invariant bools <==> forall k | 0 <= k < i :: items[k].Bool?
      invariant tables <==> forall k | 0 <= k < i :: items[k].Tab?
    {
      if !IsNumber(items[i]) {
        numbers := false;
      }
      if !items[i].Str? {
        strings := false;
      }
      if !items[i].Bool? {
        bools := false;
      }
      if !items[i].Tab? {
        tables := false;
      }
    }
    if tables {
      return Tables;
    }
    layout := if numbers || strings || bools then ScalarElements else Opaque;
  }

  // Rows.

  datatype Row = Row(key: string, name: string, value: FieldValue, editable: bool)
  datatype Section = Section(fields: seq<Row>, lines: seq<string>)

  function ChildPath(prefix: string, key: string): string {
    if prefix == "" then key else prefix + "." + key
  }

  /** A value that gets sections of its own instead of a row. */
  predicate Nests(v: FieldValue) {
    v.Tab? || (v.Arr? && (LayoutOf(v.items) == Empty || LayoutOf(v.items) == Tables))
  }

  function ElementRow(path: string, key: string, items: seq<FieldValue>, editable: bool, i: nat): Row
    requires i < |items|
  {
    Row(path + IndexText(Some(i)), key + IndexText(Some(i)), items[i], editable)
  }

  function FieldRows(prefix: string, f: Field, editable: bool): seq<Row> {
    var path := ChildPath(prefix, f.key);
    if Nests(f.value) then []
    else if f.value.Arr? && LayoutOf(f.value.items) == ScalarElements then
      seq(|f.value.items|, i requires 0 <= i < |f.value.items| => ElementRow(path, f.key, f.value.items, editable, i))
    else [Row(path, f.key, f.value, editable && !(f.value.Arr? && LayoutOf(f.value.items) == Opaque))]
  }

  function DirectRows(prefix: string, fields: FieldTable, editable: bool): seq<Row> {
    if fields == [] then []
    else FieldRows(prefix, fields[0], editable) + DirectRows(prefix, fields[1..], editable)
  }

  const NO_FIELDS := Section([], ["(no fields)"])
  const NO_ITEMS := Section([], ["(empty)"])

  function Sections(prefix: string, table: FieldTable, editable: bool): seq<Section>
    decreases table, 1
  {
    if table == [] then [NO_FIELDS]
    else [Section(DirectRows(prefix, table, editable), [])] + NestedSections(prefix, table, editable)
  }

  function NestedSections(prefix: string, fields: FieldTable, editable: bool): seq<Section>
    decreases fields, 0
  {
    if fields == [] then []
    else
      FieldSections(ChildPath(prefix, fields[0].key), fields[0].value, editable)
      + NestedSections(prefix, fields[1..], editable)
  }

  function FieldSections(path: string, v: FieldValue, editable: bool): seq<Section>
    decreases v, 0
  {
    match v
    case Tab(t) => Sections(path, t, editable)
    case Arr(items) =>
      (match LayoutOf(items)
       case Empty => [NO_ITEMS]
       case Tables => ElementSections(path, items, 0, editable)
       case _ => [])
    case _ => []
  }

  function ElementSections(path: string, items: seq<FieldValue>, from: nat, editable: bool): seq<Section>
    requires from <= |items| && AllTables(items)
    decreases items, |items| - from
  {
    if from == |items| then []
    else
      Sections(path + IndexText(Some(from)), items[from].table, editable)
      + ElementSections(path, items, from + 1, editable)
  }

  function AllRows(sections: seq<Section>): seq<Row> {
    if sections == [] then [] else sections[0].fields + AllRows(sections[1..])
  }

  lemma {:induction false} AllRowsAppend(a: seq<Section>, b: seq<Section>)
    ensures AllRows(a + b) == AllRows(a) + AllRows(b)
  {
    if a == [] {
      assert a + b == b;
    } else {
      assert (a + b)[1..] == a[1..] + b && (a + b)[0] == a[0];
      AllRowsAppend(a[1..], b);
      Associative(a[0].fields, AllRows(a[1..]), AllRows(b));
    }
  }

  lemma TableRows(prefix: string, t: FieldTable, editable: bool)
    requires t != []
    ensures AllRows(Sections(prefix, t, editable))
      == DirectRows(prefix, t, editable) + AllRows(NestedSections(prefix, t, editable))
  {
    var head := Section(DirectRows(prefix, t, editable), []);
    assert ([head] + NestedSections(prefix, t, editable))[1..] == NestedSections(prefix, t, editable);
  }

  /** One more element: its sections, then those after it. */
  lemma ElementRows(path: string, items: seq<FieldValue>, from: nat, editable: bool)
    requires AllTables(items) && from < |items|
    ensures AllRows(ElementSections(path, items, from, editable))
      == AllRows(Sections(path + IndexText(Some(from)), items[from].table, editable))
         + AllRows(ElementSections(path, items, from + 1, editable))
  {
    AllRowsAppend(Sections(path + IndexText(Some(from)), items[from].table, editable),
      ElementSections(path, items, from + 1, editable));
  }

  /** One more field: its sections, then those of the fields after it. */
  lemma NestedRows(prefix: string, fields: FieldTable, editable: bool)
    requires fields != []
    ensures AllRows(NestedSections(prefix, fields, editable))
      == AllRows(FieldSections(ChildPath(prefix, fields[0].key), fields[0].value, editable))
         + AllRows(NestedSections(prefix, fields[1..], editable))
  {
    AllRowsAppend(FieldSections(ChildPath(prefix, fields[0].key), fields[0].value, editable),
      NestedSections(prefix, fields[1..], editable));
  }

  lemma Associative<T>(a: seq<T>, b: seq<T>, c: seq<T>)
    ensures a + b + c == a + (b + c)
  {
  }

  // The methods.

  method AppendField(rows: seq<Row>, prefix: string, f: Field, editable: bool) returns (out: seq<Row>)
    ensures out == rows + FieldRows(prefix, f, editable)
  {
    out := rows;
    var path := ChildPath(prefix, f.key);
    if f.value.Tab? {
      return;
    }
    if f.value.Arr? {
      var items := f.value.items;
      var layout := ArrayLayout(items);
      if layout == Empty || layout == Tables {
        return;
      }
      if layout == ScalarElements {
        ghost var all := FieldRows(prefix, f, editable);
        var i := 0;
        while i < |items|
          invariant i <= |items| == |all| && out == rows + all[..i]
        {
          GrowBy(rows, all, i);
          out := out + [ElementRow(path, f.key, items, editable, i)];
          i := i + 1;
        }
        assert all[..i] == all;
        return;
      }
      if layout == Opaque {
        out := out + [Row(path, f.key, f.value, false)];
        return;
      }
    }
    out := out + [Row(path, f.key, f.value, editable)];
  }

  lemma GrowBy<T>(done: seq<T>, all: seq<T>, i: nat)
    requires i < |all|
    ensures done + all[..i] + [all[i]] == done + all[..i + 1]
  {
  }

  lemma DirectFrom(prefix: string, table: FieldTable, editable: bool, k: nat, rows: seq<Row>)
    requires k < |table|
    ensures rows + DirectRows(prefix, table[k..], editable)
      == rows + FieldRows(prefix, table[k], editable) + DirectRows(prefix, table[k + 1..], editable)
  {
    assert table[k..][1..] == table[k + 1..];
    Associative(rows, FieldRows(prefix, table[k], editable), DirectRows(prefix, table[k + 1..], editable));
  }

  lemma NestedFrom(prefix: string, table: FieldTable, editable: bool, k: nat, out: seq<Section>)
    requires k < |table|
    ensures out + NestedSections(prefix, table[k..], editable)
      == out + FieldSections(ChildPath(prefix, table[k].key), table[k].value, editable)
         + NestedSections(prefix, table[k + 1..], editable)
  {
    assert table[k..][1..] == table[k + 1..];
    Associative(out, FieldSections(ChildPath(prefix, table[k].key), table[k].value, editable),
      NestedSections(prefix, table[k + 1..], editable));
  }

  lemma ElementsFrom(path: string, items: seq<FieldValue>, editable: bool, k: nat, out: seq<Section>)
    requires k < |items| && AllTables(items)
    ensures out + ElementSections(path, items, k, editable)
      == out + Sections(path + IndexText(Some(k)), items[k].table, editable)
         + ElementSections(path, items, k + 1, editable)
  {
    Associative(out, Sections(path + IndexText(Some(k)), items[k].table, editable),
      ElementSections(path, items, k + 1, editable));
  }

  method CollectDirect(prefix: string, table: FieldTable, editable: bool) returns (rows: seq<Row>)
    ensures rows == DirectRows(prefix, table, editable)
  {
    rows := [];
    var k := 0;
    assert table[0..] == table;
    while k < |table|
      invariant k <= |table|
      invariant rows + DirectRows(prefix, table[k..], editable) == DirectRows(prefix, table, editable)
    {
      DirectFrom(prefix, table, editable, k, rows);
      rows := AppendField(rows, prefix, table[k], editable);
      k := k + 1;
    }
    assert DirectRows(prefix, table[k..], editable) == [];
  }

  method AppendTable(sections: seq<Section>, prefix: string, table: FieldTable, editable: bool)
    returns (out: seq<Section>)
    ensures out == sections + Sections(prefix, table, editable)
    decreases table, 2
  {
    if table == [] {
      return sections + [NO_FIELDS];
    }
    var rows := CollectDirect(prefix, table, editable);
    out := AppendEachNested(sections + [Section(rows, [])], prefix, table, editable);
    Associative(sections, [Section(rows, [])], NestedSections(prefix, table, editable));
  }

  method AppendEachNested(sections: seq<Section>, prefix: string, table: FieldTable, editable: bool)
    returns (out: seq<Section>)
    ensures out == sections + NestedSections(prefix, table, editable)
    decreases table, 1
  {
    out := sections;
    var k := 0;
    assert table[0..] == table;
    while k < |table|
      invariant k <= |table|
      invariant out + NestedSections(prefix, table[k..], editable) == sections + NestedSections(prefix, table, editable)
    {
      NestedFrom(prefix, table, editable, k, out);
      out := AppendNested(out, ChildPath(prefix, table[k].key), table[k].value, editable);
      k := k + 1;
    }
    assert NestedSections(prefix, table[k..], editable) == [];
  }

  method AppendNested(sections: seq<Section>, path: string, v: FieldValue, editable: bool)
    returns (out: seq<Section>)
    ensures out == sections + FieldSections(path, v, editable)
    decreases v, 0
  {
    out := sections;
    if v.Tab? {
      out := AppendTable(out, path, v.table, editable);
      return;
    }
    if v.Arr? {
      var layout := ArrayLayout(v.items);
      if layout == Empty {
        out := out + [NO_ITEMS];
      } else if layout == Tables {
        var i := 0;
        while i < |v.items|
          invariant i <= |v.items|
          invariant out + ElementSections(path, v.items, i, editable)
            == sections + ElementSections(path, v.items, 0, editable)
        {
          ElementsFrom(path, v.items, editable, i, out);
          out := AppendTable(out, path + IndexText(Some(i)), v.items[i].table, editable);
          i := i + 1;
        }
      }
    }
  }
}
