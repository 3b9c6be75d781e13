/** What the inspector's rows are worth: every key leads back to its value, no two rows share a part of the table, and
    every scalar has its row. */
module RowTheorems {
  import opened Basics
  import opened Fields
  import opened JsonText
  import opened InspectorPaths
  import opened InspectorRows

  ghost predicate DistinctKeys(table: FieldTable) {
    forall i, j | 0 <= i < j < |table| :: table[i].key != table[j].key
  }

  /** Keys that can stand in a path, everywhere in the table, and arrays no longer than an index can reach. */
  ghost predicate WellKeyed(table: FieldTable)
    decreases table
  {
    DistinctKeys(table)
    && forall i | 0 <= i < |table| :: PathKey(table[i].key) && WellKeyedValue(table[i].value)
  }

  ghost predicate WellKeyedValue(v: FieldValue)
    decreases v
  {
    match v
    case Tab(t) => WellKeyed(t)
    case Arr(items) => |items| <= SIZES && forall i | 0 <= i < |items| :: WellKeyedValue(items[i])
    case _ => true
  }

  ghost predicate GoodPlace(at: seq<PathStep>) {
    forall s | s in at :: GoodStep(s)
  }

  // Paths to different parts of a table.

  /** Two steps from one table that reach different values. */
  predicate Separate(s: PathStep, t: PathStep) {
    s.key != t.key || (s.index.Some? && t.index.Some? && s.index != t.index)
  }

  /** Two paths that part ways: neither names something inside what the other names. */
  predicate Apart(a: seq<PathStep>, b: seq<PathStep>)
    decreases |a|
  {
    a != [] && b != [] && if a[0] == b[0] then Apart(a[1..], b[1..]) else Separate(a[0], b[0])
  }

  /** What `a` names holds what `b` names. */
  predicate Covers(a: seq<PathStep>, b: seq<PathStep>)
    decreases |a|
  {
    a == [] || (b != [] &&
      if a[0] == b[0] then Covers(a[1..], b[1..]) else |a| == 1 && a[0].key == b[0].key && a[0].index == None)
  }

  lemma {:induction false} ApartFrom(at: seq<PathStep>, a: seq<PathStep>, b: seq<PathStep>)
    requires |at| < |a| && |at| < |b| && a[..|at|] == at == b[..|at|] && Separate(a[|at|], b[|at|])
    ensures Apart(a, b) && Apart(b, a)
    decreases |at|
  {
    if at != [] {
      assert a[0] == at[0] == b[0] && a[1..][..|at| - 1] == at[1..] == b[1..][..|at| - 1];
      ApartFrom(at[1..], a[1..], b[1..]);
    }
  }

  lemma {:induction false} ApartCoverDifferently(a: seq<PathStep>, b: seq<PathStep>, p: seq<PathStep>)
    requires Apart(a, b)
    ensures !(Covers(a, p) && Covers(b, p))
    decreases |a|
  {
    if Covers(a, p) && Covers(b, p) && a[0] == b[0] && a[0] == p[0] {
      ApartCoverDifferently(a[1..], b[1..], p[1..]);
    }
  }

  lemma {:induction false} ApartDiffer(a: seq<PathStep>)
    ensures !Apart(a, a)
    decreases |a|
  {
    if a != [] {
      ApartDiffer(a[1..]);
    }
  }

  // Rows and the places their keys name.

  function Steps(r: Row): seq<PathStep> {
    var p := ParsePath(r.key);
    if p == None then [] else p.value
  }

  ghost predicate Inside(r: Row, at: seq<PathStep>) {
    |at| < |Steps(r)| && Steps(r)[..|at|] == at
  }

  /** The row's key, read from the table at `at`, leads to the row's value. */
  ghost predicate Leads(r: Row, at: seq<PathStep>, table: FieldTable) {
    ParsePath(r.key).Some? && Inside(r, at) && Resolve(table, Steps(r)[|at|..]) == Some(r.value)
  }

  ghost predicate Pairwise(rows: seq<Row>) {
    forall i, j | 0 <= i < j < |rows| :: Apart(Steps(rows[i]), Steps(rows[j]))
  }

  ghost predicate Sound(rows: seq<Row>, at: seq<PathStep>, table: FieldTable) {
    (forall i | 0 <= i < |rows| :: Leads(rows[i], at, table)) && Pairwise(rows)
  }

  /** The row lies under one of `fields`, whose value has sections of its own or not. */
  ghost predicate KeyIn(r: Row, at: seq<PathStep>, fields: FieldTable, nests: bool) {
    |at| < |Steps(r)| &&
    var f := Find(fields, Steps(r)[|at|].key);
    f.Some? && Nests(f.value) == nests
  }

  ghost predicate Keyed(rows: seq<Row>, at: seq<PathStep>, fields: FieldTable, nests: bool) {
    forall i | 0 <= i < |rows| :: KeyIn(rows[i], at, fields, nests)
  }

  ghost predicate UnderKey(rows: seq<Row>, at: seq<PathStep>, key: string) {
    forall i | 0 <= i < |rows| :: |at| < |Steps(rows[i])| && Steps(rows[i])[|at|].key == key
  }

  ghost predicate UnderIndex(rows: seq<Row>, at: seq<PathStep>, from: nat) {
    forall i | 0 <= i < |rows| :: |at| < |Steps(rows[i])| &&
      Steps(rows[i])[|at|].index.Some? && Steps(rows[i])[|at|].index.value >= from
  }

  lemma JoinSound(a: seq<Row>, b: seq<Row>, at: seq<PathStep>, table: FieldTable)
    requires Sound(a, at, table) && Sound(b, at, table)
    requires forall i, j | 0 <= i < |a| && 0 <= j < |b| :: Separate(Steps(a[i])[|at|], Steps(b[j])[|at|])
    ensures Sound(a + b, at, table)
  {
    forall i, j | 0 <= i < j < |a + b| ensures Apart(Steps((a + b)[i]), Steps((a + b)[j])) {
      if i < |a| <= j {
        var x, y := a[i], b[j - |a|];
        assert Leads(x, at, table) && Leads(y, at, table);
        ApartFrom(at, Steps(x), Steps(y));
      }
    }
  }

  lemma Extended(at: seq<PathStep>, s: PathStep)
    requires GoodPlace(at) && GoodStep(s)
    ensures GoodSteps(at + [s]) && GoodPlace(at + [s])
  {
  }

  /** The text of a longer path, as the rows build it. */
  lemma ChildPathIs(at: seq<PathStep>, key: string, index: Option<nat>)
    requires GoodPlace(at) && PathKey(key)
    ensures ChildPath(PathText(at), key) + IndexText(index) == PathText(at + [PathStep(key, index)])
  {
    var s := PathStep(key, index);
    if at == [] {
      assert at + [s] == [s];
    } else {
      ParsePathBack(at);
      PathTextAppend(at, s);
      Regrouped(PathText(at), key, IndexText(index));
    }
  }

  lemma Regrouped(path: string, key: string, index: string)
    ensures path + "." + (key + index) == path + "." + key + index
  {
  }

  lemma RowLeads(r: Row, at: seq<PathStep>, s: PathStep, table: FieldTable)
    requires GoodPlace(at) && GoodStep(s)
    requires r.key == PathText(at + [s]) && Pick(table, s) == Some(r.value)
    ensures Leads(r, at, table) && Steps(r) == at + [s]
  {
    Extended(at, s);
    ParsePathBack(at + [s]);
    assert (at + [s])[|at|..] == [s];
  }

  /** A row that leads from a nested table leads from the table around it. */
  lemma LeadsUp(r: Row, at: seq<PathStep>, s: PathStep, t: FieldTable, table: FieldTable)
    requires Leads(r, at + [s], t) && Pick(table, s) == Some(Tab(t))
    ensures Leads(r, at, table) && Steps(r)[|at|] == s
  {
    var p := Steps(r);
    assert p[..|at|] == p[..|at| + 1][..|at|];
    assert p[|at|] == p[..|at| + 1][|at|];
    assert p[|at|..][1..] == p[|at + [s]|..];
  }

  lemma SoundUp(rows: seq<Row>, at: seq<PathStep>, s: PathStep, t: FieldTable, table: FieldTable)
    requires Sound(rows, at + [s], t) && Pick(table, s) == Some(Tab(t))
    ensures Sound(rows, at, table)
    ensures forall i | 0 <= i < |rows| :: |at| < |Steps(rows[i])| && Steps(rows[i])[|at|] == s
  {
    forall i | 0 <= i < |rows| ensures Leads(rows[i], at, table) && Steps(rows[i])[|at|] == s {
      LeadsUp(rows[i], at, s, t, table);
    }
  }

  lemma {:induction false} FindAt(table: FieldTable, k: nat)
    requires k < |table| && DistinctKeys(table)
    ensures Find(table, table[k].key) == Some(table[k].value)
    decreases |table|
  {
    if k > 0 {
      assert table[0].key != table[k].key;
      FindAt(table[1..], k - 1);
    }
  }

  lemma {:induction false} FoundInside(table: FieldTable, key: string) returns (k: nat)
    requires Find(table, key).Some?
    ensures k < |table| && table[k] == Field(key, Find(table, key).value)
    decreases |table|
  {
    if table[0].key == key {
      k := 0;
    } else {
      k := FoundInside(table[1..], key);
      k := k + 1;
    }
  }

  lemma FieldSound(at: seq<PathStep>, table: FieldTable, editable: bool, k: nat)
    requires GoodPlace(at) && WellKeyed(table) && k < |table|
    ensures Sound(FieldRows(PathText(at), table[k], editable), at, table)
    ensures UnderKey(FieldRows(PathText(at), table[k], editable), at, table[k].key)
  {
    var f := table[k];
    FindAt(table, k);
    if !Nests(f.value) {
      if f.value.Arr? && LayoutOf(f.value.items) == ScalarElements {
        ScalarRowsSound(at, table, editable, k);
      } else {
        var s := PathStep(f.key, None);
        ChildPathIs(at, f.key, None);
        var rows := FieldRows(PathText(at), f, editable);
        assert ChildPath(PathText(at), f.key) + "" == ChildPath(PathText(at), f.key);
        assert |rows| == 1;
        RowLeads(rows[0], at, s, table);
      }
    }
  }

  lemma ScalarRowsSound(at: seq<PathStep>, table: FieldTable, editable: bool, k: nat)
    requires GoodPlace(at) && WellKeyed(table) && k < |table| && Find(table, table[k].key) == Some(table[k].value)
    requires table[k].value.Arr? && LayoutOf(table[k].value.items) == ScalarElements
    ensures Sound(FieldRows(PathText(at), table[k], editable), at, table)
    ensures UnderKey(FieldRows(PathText(at), table[k], editable), at, table[k].key)
  {
    hide Digits;
    var f := table[k];
    var rows := FieldRows(PathText(at), f, editable);
    assert WellKeyedValue(f.value);
    forall i | 0 <= i < |rows|
      ensures Leads(rows[i], at, table) && Steps(rows[i]) == at + [PathStep(f.key, Some(i))]
    {
      ChildPathIs(at, f.key, Some(i));
      RowLeads(rows[i], at, PathStep(f.key, Some(i)), table);
    }
    forall i, j | 0 <= i < j < |rows| ensures Apart(Steps(rows[i]), Steps(rows[j])) {
      ApartFrom(at, Steps(rows[i]), Steps(rows[j]));
    }
  }

  lemma {:induction false} NotLater(table: FieldTable, k: nat, from: nat)
    requires k < from <= |table| && DistinctKeys(table)
    ensures Find(table[from..], table[k].key) == None
    decreases |table| - from
  {
    if from < |table| {
      assert table[from..][1..] == table[from + 1..] && table[k].key != table[from].key;
      NotLater(table, k, from + 1);
    }
  }

  /** Rows under field `k` and rows under the fields after it. */
  lemma JoinField(a: seq<Row>, b: seq<Row>, at: seq<PathStep>, table: FieldTable, k: nat, nests: bool)
    requires k < |table| && DistinctKeys(table) && Sound(a, at, table) && Sound(b, at, table)
    requires UnderKey(a, at, table[k].key) && (a != [] ==> Nests(table[k].value) == nests)
    requires Keyed(b, at, table[k + 1..], nests)
    ensures Sound(a + b, at, table) && Keyed(a + b, at, table[k..], nests)
  {
    assert table[k..][1..] == table[k + 1..];
    NotLater(table, k, k + 1);
    forall j | 0 <= j < |b|
      ensures Steps(b[j])[|at|].key != table[k].key && KeyIn(b[j], at, table[k..], nests)
    {
      assert KeyIn(b[j], at, table[k + 1..], nests);
    }
    forall i | 0 <= i < |a| ensures KeyIn(a[i], at, table[k..], nests) {
      assert Steps(a[i])[|at|].key == table[k].key;
    }
    JoinSound(a, b, at, table);
  }

  lemma {:induction false} DirectSound(at: seq<PathStep>, table: FieldTable, editable: bool, k: nat)
    requires GoodPlace(at) && WellKeyed(table) && k <= |table|
    ensures Sound(DirectRows(PathText(at), table[k..], editable), at, table)
    ensures Keyed(DirectRows(PathText(at), table[k..], editable), at, table[k..], false)
    decreases |table| - k
  {
    if k < |table| {
      assert table[k..][1..] == table[k + 1..];
      FieldSound(at, table, editable, k);
      DirectSound(at, table, editable, k + 1);
      JoinField(FieldRows(PathText(at), table[k], editable), DirectRows(PathText(at), table[k + 1..], editable),
        at, table, k, false);
    }
  }

  lemma {:induction false} TableSound(at: seq<PathStep>, table: FieldTable, editable: bool)
    requires GoodPlace(at) && WellKeyed(table)
    ensures Sound(AllRows(Sections(PathText(at), table, editable)), at, table)
    decreases table, 1
  {
    if table != [] {
      var direct := DirectRows(PathText(at), table, editable);
      var nested := NestedSections(PathText(at), table, editable);
      assert table[0..] == table;
      DirectSound(at, table, editable, 0);
      NestedSound(at, table, editable, 0);
      forall i, j | 0 <= i < |direct| && 0 <= j < |AllRows(nested)|
        ensures Separate(Steps(direct[i])[|at|], Steps(AllRows(nested)[j])[|at|])
      {
        assert KeyIn(direct[i], at, table, false) && KeyIn(AllRows(nested)[j], at, table, true);
      }
      JoinSound(direct, AllRows(nested), at, table);
      TableRows(PathText(at), table, editable);
    }
  }

  lemma {:induction false} NestedSound(at: seq<PathStep>, table: FieldTable, editable: bool, k: nat)
    requires GoodPlace(at) && WellKeyed(table) && k <= |table|
    ensures Sound(AllRows(NestedSections(PathText(at), table[k..], editable)), at, table)
    ensures Keyed(AllRows(NestedSections(PathText(at), table[k..], editable)), at, table[k..], true)
    decreases table, 0, |table| - k
  {
    if k < |table| {
      var path := ChildPath(PathText(at), table[k].key);
      var first := FieldSections(path, table[k].value, editable);
      var rest := NestedSections(PathText(at), table[k + 1..], editable);
      assert table[k..][1..] == table[k + 1..];
      FindAt(table, k);
      ValueSound(at, table[k].key, table[k].value, table, editable);
      NestedSound(at, table, editable, k + 1);
      AllRowsAppend(first, rest);
      JoinField(AllRows(first), AllRows(rest), at, table, k, true);
    }
  }

  lemma {:induction false} ValueSound(at: seq<PathStep>, key: string, v: FieldValue, table: FieldTable, editable: bool)
    requires GoodPlace(at) && PathKey(key) && WellKeyedValue(v) && Find(table, key) == Some(v)
    ensures Sound(AllRows(FieldSections(ChildPath(PathText(at), key), v, editable)), at, table)
    ensures UnderKey(AllRows(FieldSections(ChildPath(PathText(at), key), v, editable)), at, key)
    ensures AllRows(FieldSections(ChildPath(PathText(at), key), v, editable)) != [] ==> Nests(v)
    decreases v, 0
  {
    hide Sections, ElementSections, Digits, ParsePath;
    var path := ChildPath(PathText(at), key);
    if v.Tab? {
      var s := PathStep(key, None);
      ChildPathIs(at, key, None);
      assert path + "" == path;
      Extended(at, s);
      TableSound(at + [s], v.table, editable);
      SoundUp(AllRows(Sections(path, v.table, editable)), at, s, v.table, table);
    } else if v.Arr? && LayoutOf(v.items) == Tables {
      ElementsAreKeyed(v.items);
      ElementsSound(at, key, v.items, 0, table, editable);
    } else if v.Arr? && LayoutOf(v.items) == Empty {
      assert AllRows([NO_ITEMS]) == [];
    }
  }

  ghost predicate ElementRowsSound(rows: seq<Row>, at: seq<PathStep>, key: string, from: nat, table: FieldTable) {
    Sound(rows, at, table) && UnderKey(rows, at, key) && UnderIndex(rows, at, from)
  }

  ghost predicate AllAt(rows: seq<Row>, at: seq<PathStep>, s: PathStep) {
    forall i | 0 <= i < |rows| :: |at| < |Steps(rows[i])| && Steps(rows[i])[|at|] == s
  }

  ghost predicate ElementsKeyed(items: seq<FieldValue>) {
    AllTables(items) && |items| <= SIZES && forall i | 0 <= i < |items| :: WellKeyed(items[i].table)
  }

  lemma ElementsAreKeyed(items: seq<FieldValue>)
    requires WellKeyedValue(Arr(items)) && AllTables(items)
    ensures ElementsKeyed(items)
  {
    forall i | 0 <= i < |items|
      ensures WellKeyed(items[i].table)
    {
      assert WellKeyedValue(items[i]);
    }
  }

  lemma {:induction false} ElementsSound(at: seq<PathStep>, key: string, items: seq<FieldValue>, from: nat,
                                         table: FieldTable, editable: bool)
    requires GoodPlace(at) && PathKey(key) && ElementsKeyed(items) && Find(table, key) == Some(Arr(items))
    requires from <= |items|
    ensures ElementRowsSound(
      AllRows(ElementSections(ChildPath(PathText(at), key), items, from, editable)), at, key, from, table)
    decreases items, |items| - from
  {
    hide AllRows, ElementSections, Sections, IndexText, ElementRowsSound, Sound, AllAt;
    var path := ChildPath(PathText(at), key);
    if from == |items| {
      NoElementsSound(path, at, key, items, table, editable);
    } else {
      OneElementSound(at, key, items, from, table, editable);
      ElementsSound(at, key, items, from + 1, table, editable);
      OneMoreSound(path, at, key, items, from, table, editable);
    }
  }

  lemma NoElementsSound(path: string, at: seq<PathStep>, key: string, items: seq<FieldValue>, table: FieldTable,
                        editable: bool)
    requires AllTables(items)
    ensures ElementRowsSound(AllRows(ElementSections(path, items, |items|, editable)), at, key, |items|, table)
  {
    assert AllRows(ElementSections(path, items, |items|, editable)) == [];
  }

  lemma OneMoreSound(path: string, at: seq<PathStep>, key: string, items: seq<FieldValue>, from: nat,
                     table: FieldTable, editable: bool)
    requires AllTables(items) && from < |items|
    requires var rows := AllRows(Sections(path + IndexText(Some(from)), items[from].table, editable));
      Sound(rows, at, table) && AllAt(rows, at, PathStep(key, Some(from)))
    requires ElementRowsSound(AllRows(ElementSections(path, items, from + 1, editable)), at, key, from + 1, table)
    ensures ElementRowsSound(AllRows(ElementSections(path, items, from, editable)), at, key, from, table)
  {
    hide ElementSections, Sections, IndexText, ParsePath;
    JoinElement(AllRows(Sections(path + IndexText(Some(from)), items[from].table, editable)),
      AllRows(ElementSections(path, items, from + 1, editable)), at, table, PathStep(key, Some(from)));
    ElementRows(path, items, from, editable);
  }

  lemma {:induction false} OneElementSound(at: seq<PathStep>, key: string, items: seq<FieldValue>, from: nat,
                                           table: FieldTable, editable: bool)
    requires GoodPlace(at) && PathKey(key) && ElementsKeyed(items) && Find(table, key) == Some(Arr(items))
    requires from < |items|
    ensures var rows := AllRows(
        Sections(ChildPath(PathText(at), key) + IndexText(Some(from)), items[from].table, editable));
      Sound(rows, at, table) && AllAt(rows, at, PathStep(key, Some(from)))
    decreases items, |items| - from, 0
  {
    hide Digits;
    var s := PathStep(key, Some(from));
    ChildPathIs(at, key, Some(from));
    Extended(at, s);
    TableSound(at + [s], items[from].table, editable);
    SoundUp(AllRows(Sections(ChildPath(PathText(at), key) + IndexText(Some(from)), items[from].table, editable)),
      at, s, items[from].table, table);
  }

  lemma JoinElement(a: seq<Row>, b: seq<Row>, at: seq<PathStep>, table: FieldTable, s: PathStep)
    requires Sound(a, at, table) && Sound(b, at, table) && s.index.Some?
    requires AllAt(a, at, s) && UnderKey(b, at, s.key) && UnderIndex(b, at, s.index.value + 1)
    ensures ElementRowsSound(a + b, at, s.key, s.index.value, table)
  {
    JoinSound(a, b, at, table);
  }

  // Every scalar has a row.

  lemma {:induction false} InDirect(prefix: string, table: FieldTable, editable: bool, k: nat, r: Row)
    requires k < |table| && r in FieldRows(prefix, table[k], editable)
    ensures r in DirectRows(prefix, table, editable)
    decreases |table|
  {
    if k > 0 {
      InDirect(prefix, table[1..], editable, k - 1, r);
    }
  }

  lemma {:induction false} InNested(prefix: string, table: FieldTable, editable: bool, k: nat, r: Row)
    requires k < |table|
    requires r in AllRows(FieldSections(ChildPath(prefix, table[k].key), table[k].value, editable))
    ensures r in AllRows(NestedSections(prefix, table, editable))
    decreases |table|
  {
    hide AllRows, FieldSections, NestedSections, Sections, ChildPath;
    NestedRows(prefix, table, editable);
    if k > 0 {
      InNested(prefix, table[1..], editable, k - 1, r);
    }
  }

  lemma {:induction false} InElements(path: string, items: seq<FieldValue>, from: nat, editable: bool, k: nat, r: Row)
    requires from <= k < |items| && AllTables(items)
    requires r in AllRows(Sections(path + IndexText(Some(k)), items[k].table, editable))
    ensures r in AllRows(ElementSections(path, items, from, editable))
    decreases |items| - from
  {
    hide AllRows, ElementSections, Sections, IndexText;
    if from < k {
      InElements(path, items, from + 1, editable, k, r);
    }
    ElementRows(path, items, from, editable);
  }

  lemma InTable(prefix: string, table: FieldTable, editable: bool, r: Row)
    requires table != []
    ensures r in AllRows(Sections(prefix, table, editable)) <==>
      r in DirectRows(prefix, table, editable) || r in AllRows(NestedSections(prefix, table, editable))
  {
    TableRows(prefix, table, editable);
  }

  ghost predicate HasScalar(table: FieldTable, p: seq<PathStep>) {
    Resolve(table, p).Some? && IsScalar(Resolve(table, p).value)
  }

  /** The row of a scalar that no nested table holds: its own, its element's, or the row of the array around it. */
  lemma DirectCover(at: seq<PathStep>, table: FieldTable, editable: bool, k: nat, p: seq<PathStep>) returns (r: Row)
    requires GoodPlace(at) && WellKeyed(table) && HasScalar(table, p)
    requires k < |table| && table[k] == Field(p[0].key, Find(table, p[0].key).value) && !Nests(table[k].value)
    ensures r in FieldRows(PathText(at), table[k], editable)
    ensures Inside(r, at) && Covers(Steps(r)[|at|..], p)
  {
    hide Digits;
    var f := table[k];
    var rows := FieldRows(PathText(at), f, editable);
    if f.value.Arr? && LayoutOf(f.value.items) == ScalarElements {
      assert p[0].index.Some? && WellKeyedValue(f.value);
      var i := p[0].index.value;
      r := rows[i];
      ChildPathIs(at, f.key, Some(i));
      RowLeads(r, at, PathStep(f.key, Some(i)), table);
      assert (at + [p[0]])[|at|..] == [p[0]];
    } else {
      var s := PathStep(f.key, None);
      r := rows[0];
      ChildPathIs(at, f.key, None);
      assert ChildPath(PathText(at), f.key) + "" == ChildPath(PathText(at), f.key);
      RowLeads(r, at, s, table);
      assert (at + [s])[|at|..] == [s];
    }
  }

  lemma CoverUp(r: Row, at: seq<PathStep>, s: PathStep, p: seq<PathStep>)
    requires p != [] && p[0] == s && Inside(r, at + [s]) && Covers(Steps(r)[|at + [s]|..], p[1..])
    ensures Inside(r, at) && Covers(Steps(r)[|at|..], p)
  {
    var q := Steps(r);
    assert q[..|at|] == q[..|at| + 1][..|at|];
    assert q[|at|] == q[..|at| + 1][|at|];
    assert q[|at|..][1..] == q[|at + [s]|..];
  }

  lemma {:induction false} Covered(at: seq<PathStep>, table: FieldTable, editable: bool, p: seq<PathStep>)
    returns (r: Row)
    requires GoodPlace(at) && WellKeyed(table) && HasScalar(table, p)
    ensures r in AllRows(Sections(PathText(at), table, editable))
    ensures Inside(r, at) && Covers(Steps(r)[|at|..], p)
    decreases |p|, 2
  {
    var k := FoundInside(table, p[0].key);
    if Nests(table[k].value) {
      r := CoveredNested(at, table, editable, k, p);
      InNested(PathText(at), table, editable, k, r);
    } else {
      r := DirectCover(at, table, editable, k, p);
      InDirect(PathText(at), table, editable, k, r);
    }
    InTable(PathText(at), table, editable, r);
  }

  lemma {:induction false} CoveredNested(at: seq<PathStep>, table: FieldTable, editable: bool, k: nat, p: seq<PathStep>)
    returns (r: Row)
    requires GoodPlace(at) && WellKeyed(table) && HasScalar(table, p)
    requires k < |table| && table[k] == Field(p[0].key, Find(table, p[0].key).value) && Nests(table[k].value)
    ensures r in AllRows(FieldSections(ChildPath(PathText(at), table[k].key), table[k].value, editable))
    ensures Inside(r, at) && Covers(Steps(r)[|at|..], p)
    decreases |p|, 1
  {
    hide AllRows, ElementSections, Sections, Digits, ParsePath;
    var s, v := p[0], table[k].value;
    if v.Tab? {
      ChildPathIs(at, s.key, None);
      assert ChildPath(PathText(at), s.key) + "" == ChildPath(PathText(at), s.key);
      Extended(at, s);
      r := Covered(at + [s], v.table, editable, p[1..]);
    } else {
      assert LayoutOf(v.items) == Tables && s.index.Some? && WellKeyedValue(v);
      r := CoveredElement(at, v.items, editable, p);
    }
    CoverUp(r, at, s, p);
  }

  lemma {:induction false} CoveredElement(at: seq<PathStep>, items: seq<FieldValue>, editable: bool, p: seq<PathStep>)
    returns (r: Row)
    requires GoodPlace(at) && WellKeyedValue(Arr(items)) && AllTables(items)
    requires p != [] && PathKey(p[0].key) && p[0].index.Some? && p[0].index.value < |items|
    requires HasScalar(items[p[0].index.value].table, p[1..])
    ensures r in AllRows(ElementSections(ChildPath(PathText(at), p[0].key), items, 0, editable))
    ensures Inside(r, at + [p[0]]) && Covers(Steps(r)[|at + [p[0]]|..], p[1..])
    decreases |p|, 0
  {
    hide Digits;
    var s := p[0];
    var i := s.index.value;
    assert WellKeyedValue(items[i]);
    ChildPathIs(at, s.key, Some(i));
    Extended(at, s);
    r := Covered(at + [s], items[i].table, editable, p[1..]);
    InElements(ChildPath(PathText(at), s.key), items, 0, editable, i, r);
  }

  // The rows of a whole component.

  function RowsOf(root: FieldTable, editable: bool): seq<Row> {
    AllRows(Sections("", root, editable))
  }

  lemma RootSound(root: FieldTable, editable: bool)
    requires WellKeyed(root)
    ensures Sound(RowsOf(root, editable), [], root)
  {
    assert PathText([]) == "";
    TableSound([], root, editable);
  }

  /** A row's key, parsed and followed from the root, gives back exactly the value the row shows. */
  lemma KeyLeadsToValue(root: FieldTable, editable: bool, i: nat)
    requires WellKeyed(root) && i < |RowsOf(root, editable)|
    ensures var r := RowsOf(root, editable)[i];
      ParsePath(r.key) == Some(Steps(r)) && Resolve(root, Steps(r)) == Some(r.value)
  {
    RootSound(root, editable);
    var r := RowsOf(root, editable)[i];
    assert Leads(r, [], root);
    assert Steps(r)[0..] == Steps(r);
  }

  /** Different rows have different keys, and none shows a part of what another shows. */
  lemma KeysDiffer(root: FieldTable, editable: bool, i: nat, j: nat)
    requires WellKeyed(root) && i < j < |RowsOf(root, editable)|
    ensures RowsOf(root, editable)[i].key != RowsOf(root, editable)[j].key
    ensures Apart(Steps(RowsOf(root, editable)[i]), Steps(RowsOf(root, editable)[j]))
  {
    RootSound(root, editable);
    ApartDiffer(Steps(RowsOf(root, editable)[i]));
  }

  /** Every scalar that a path reaches is shown by exactly one row. */
  lemma OneRowForEachScalar(root: FieldTable, editable: bool, p: seq<PathStep>) returns (i: nat)
    requires WellKeyed(root) && HasScalar(root, p)
    ensures i < |RowsOf(root, editable)|
    ensures forall j | 0 <= j < |RowsOf(root, editable)| :: Covers(Steps(RowsOf(root, editable)[j]), p) <==> j == i
  {
    var rows := RowsOf(root, editable);
    assert PathText([]) == "";
    var r := Covered([], root, editable, p);
    i :| i < |rows| && rows[i] == r;
    assert Steps(r)[0..] == Steps(r);
    RootSound(root, editable);
    forall j | 0 <= j < |rows| && j != i ensures !Covers(Steps(rows[j]), p) {
      if i < j {
        ApartCoverDifferently(Steps(rows[i]), Steps(rows[j]), p);
      } else {
        ApartCoverDifferently(Steps(rows[j]), Steps(rows[i]), p);
      }
    }
  }

  lemma FirstKey(path: string)
    requires ParsePath(path).Some?
    ensures ParsePath(path).value != [] && PathKey(ParsePath(path).value[0].key)
  {
    var t := if path[0] == '.' then path[1..] else path;
    var k := KeyRun(t);
    assert forall c | c in t[..k] :: KeyChar(c);
  }

  /** The requirement on keys is exact: a lone scalar's row leads back to it just when its key can stand in a path. */
  lemma KeyMustBePlain(key: string, v: FieldValue, editable: bool)
    requires IsScalar(v)
    ensures RowsOf([Field(key, v)], editable) == [Row(key, key, v, editable)]
    ensures (ParsePath(key).Some? && Resolve([Field(key, v)], ParsePath(key).value) == Some(v)) <==> PathKey(key)
  {
    var root := [Field(key, v)];
    var row := Row(key, key, v, editable);
    assert DirectRows("", root, editable) == [row] + [] == [row];
    assert FieldSections(key, v, editable) == [] && root[1..] == [];
    assert NestedSections("", root, editable) == [];
    assert Sections("", root, editable) == [Section([row], [])] + [] == [Section([row], [])];
    assert AllRows(Sections("", root, editable)) == [row] + [] == [row];
    if PathKey(key) {
      KeyLeadsToValue(root, editable, 0);
    } else if ParsePath(key).Some? {
      FirstKey(key);
      assert Find(root, ParsePath(key).value[0].key) == None;
    }
  }
}
