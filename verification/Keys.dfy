/** Tree keys as the editor writes them, `assets/ui/menu.xml`, against the name sequences the rest of the model uses. */
module Keys {
  import opened FileTree
  import opened ProjectEdit
  import opened EditSteps

  /** Names that can stand in a key. */
  predicate CleanName(name: Name) {
    name != "" && '/' !in name
  }

  predicate Clean(p: Path) {
    p != [] && forall name | name in p :: CleanName(name)
  }

  /** `project_join_key` over a whole path. */
  function Join(p: Path): string
    requires p != []
  {
    if |p| == 1 then p[0] else Join(p[..|p| - 1]) + "/" + p[|p| - 1]
  }

  function FirstSlash(s: string): (i: nat)
    ensures i <= |s| && '/' !in s[..i] && (i < |s| ==> s[i] == '/')
  {
    if s == "" || s[0] == '/' then 0
    else
      var k := FirstSlash(s[1..]);
      assert s[..1 + k] == [s[0]] + s[1..][..k];
      1 + k
  }

  function LastSlash(s: string): (i: int)
    ensures -1 <= i < |s| && (forall j | i < j < |s| :: s[j] != '/') && (i >= 0 ==> s[i] == '/')
  {
    if s == "" then -1
    else if s[|s| - 1] == '/' then |s| - 1
    else LastSlash(s[..|s| - 1])
  }

  function Split(s: string): Path
    decreases |s|
  {
    var i := FirstSlash(s);
    if i == |s| then [s] else [s[..i]] + Split(s[i + 1..])
  }

  /** `inside_key` on the text of two keys. */
  predicate InsideKeyText(path: string, directory: string) {
    && directory != ""
    && (path == directory || (|path| > |directory| && directory <= path && path[|directory|] == '/'))
  }

  function ParentKeyText(key: string): string {
    var i := LastSlash(key);
    if i == -1 then "" else key[..i]
  }

  function LeafText(key: string): string {
    key[LastSlash(key) + 1..]
  }

  lemma {:induction false} FirstSlashIs(a: string, b: string)
    requires '/' !in a
    ensures FirstSlash(a + "/" + b) == |a| && FirstSlash(a) == |a|
  {
    var s := a + "/" + b;
    if a != "" {
      assert s[0] == a[0] && a[0] in a;
      assert s[1..] == a[1..] + "/" + b;
      FirstSlashIs(a[1..], b);
    }
  }

  lemma {:induction false} LastSlashIs(a: string, b: string)
    requires '/' !in b
    ensures LastSlash(a + "/" + b) == |a| && LastSlash(b) == -1
  {
    var s := a + "/" + b;
    if b != "" {
      var c := b[..|b| - 1];
      assert s[|s| - 1] == b[|b| - 1] && b[|b| - 1] in b;
      assert s[..|s| - 1] == a + "/" + c;
      LastSlashIs(a, c);
    }
  }

  /** A text with a slash, cut at its first one. */
  lemma CutAtFirst(s: string) returns (x: string, y: string)
    requires FirstSlash(s) < |s|
    ensures s == x + "/" + y && '/' !in x && Split(s) == [x] + Split(y) && |y| < |s|
  {
    var i := FirstSlash(s);
    x, y := s[..i], s[i + 1..];
  }

  lemma SplitOnce(x: string, y: string)
    requires '/' !in x
    ensures Split(x + "/" + y) == [x] + Split(y) && Split(x) == [x]
  {
    FirstSlashIs(x, y);
    assert (x + "/" + y)[..|x|] == x && (x + "/" + y)[|x| + 1..] == y;
  }

  lemma {:induction false} SplitAppend(a: string, b: string)
    ensures Split(a + "/" + b) == Split(a) + Split(b)
    decreases |a|
  {
    if FirstSlash(a) == |a| {
      SplitOnce(a, b);
    } else {
      var x, y := CutAtFirst(a);
      Regroup(x, y, b);
      SplitOnce(x, y + "/" + b);
      SplitAppend(y, b);
      Associates([x], Split(y), Split(b));
    }
  }

  lemma Regroup(x: string, y: string, b: string)
    ensures x + "/" + y + "/" + b == x + "/" + (y + "/" + b)
  {
  }

  lemma Associates(a: Path, b: Path, c: Path)
    ensures a + (b + c) == (a + b) + c
  {
  }

  /** Splitting a key gives back its names. */
  lemma {:induction false} SplitJoin(p: Path)
    requires Clean(p)
    ensures Split(Join(p)) == p && Join(p) != ""
  {
    var last := p[|p| - 1];
    assert last in p;
    FirstSlashIs(last, "");
    if |p| > 1 {
      var rest := p[..|p| - 1];
      SplitJoin(rest);
      SplitAppend(Join(rest), last);
      assert rest + [last] == p;
    } else {
      assert p == [last];
    }
  }

  lemma {:induction false} JoinAppend(p: Path, q: Path)
    requires p != [] && q != []
    ensures Join(p + q) == Join(p) + "/" + Join(q)
    decreases |q|
  {
    var n := |p + q|;
    assert (p + q)[n - 1] == q[|q| - 1];
    if |q| == 1 {
      assert (p + q)[..n - 1] == p;
    } else {
      var r := q[..|q| - 1];
      assert (p + q)[..n - 1] == p + r;
      JoinAppend(p, r);
      Regroup(Join(p), Join(r), q[|q| - 1]);
    }
  }

  lemma InsideKeyGrows(p: Path, d: Path)
    requires Clean(p) && Clean(d) && Inside(p, d) && p != d
    ensures InsideKeyText(Join(p), Join(d))
  {
    SplitJoin(d);
    assert p == d + p[|d|..];
    JoinAppend(d, p[|d|..]);
    assert Join(p)[..|Join(d)|] == Join(d);
  }

  lemma InsideKeySplits(p: Path, d: Path)
    requires Clean(p) && Clean(d) && InsideKeyText(Join(p), Join(d)) && Join(p) != Join(d)
    ensures Inside(p, d)
  {
    var a, b := Join(p), Join(d);
    var rest := a[|b| + 1..];
    assert a == b + "/" + rest;
    SplitAppend(b, rest);
    SplitJoin(p);
    SplitJoin(d);
  }

  /** The text test holds exactly for a path at or below the directory. */
  lemma InsideKeyIsInside(p: Path, d: Path)
    requires Clean(p) && Clean(d)
    ensures InsideKeyText(Join(p), Join(d)) <==> InsideKey(p, d)
  {
    SplitJoin(p);
    SplitJoin(d);
    if Inside(p, d) && p != d {
      InsideKeyGrows(p, d);
    } else if InsideKeyText(Join(p), Join(d)) && Join(p) != Join(d) {
      InsideKeySplits(p, d);
    }
  }

  lemma AroundSlash(a: string, b: string, s: string)
    requires s == a + "/" + b
    ensures s[|a| + 1..] == b && s[..|a|] == a
  {
  }

  lemma CutAtLast(a: string, b: string, s: string)
    requires '/' !in b && s == a + "/" + b
    ensures LeafText(s) == b && ParentKeyText(s) == a
  {
    LastSlashIs(a, b);
    AroundSlash(a, b, s);
  }

  lemma NoSlashToCut(s: string)
    requires '/' !in s
    ensures LeafText(s) == s && ParentKeyText(s) == ""
  {
    LastSlashIs("", s);
    assert s[0..] == s;
  }

  /** `project_parent_key` and `project_leaf_name` take off the last name. */
  lemma ParentAndLeaf(p: Path, key: string)
    requires Clean(p) && key == Join(p)
    ensures LeafText(key) == Leaf(p)
    ensures ParentKeyText(key) == if |p| == 1 then "" else Join(Parent(p))
  {
    var leaf := Leaf(p);
    assert leaf in p;
    if |p| == 1 {
      NoSlashToCut(key);
    } else {
      CutAtLast(Join(Parent(p)), leaf, key);
    }
  }

  lemma JoinStarts(p: Path)
    requires Clean(p)
    ensures FirstSlash(Join(p)) == |p[0]| && p[0] <= Join(p)
    ensures |p| == 1 <==> Join(p) == p[0]
  {
    assert p[0] in p;
    if |p| > 1 {
      assert p == [p[0]] + p[1..];
      JoinAppend([p[0]], p[1..]);
      FirstSlashIs(p[0], Join(p[1..]));
    } else {
      FirstSlashIs(p[0], "");
    }
  }

  lemma CleanParent(p: Path)
    requires Clean(p) && |p| > 1
    ensures Clean(Parent(p)) && Parent(p)[0] == p[0]
  {
    forall name | name in Parent(p)
      ensures CleanName(name)
    {
      assert name in p;
    }
  }

  lemma StartsWithName(key: string, name: string)
    requires '/' !in name
    ensures name + "/" <= key <==> FirstSlash(key) == |name| && |name| < |key| && name <= key
    ensures name <= key ==> FirstSlash(key) >= |name|
  {
    var i := FirstSlash(key);
    if name <= key {
      assert forall k | 0 <= k < |name| :: key[k] == name[k] && name[k] in name;
    }
    if |name| < i {
      assert key[..i][|name|] == key[|name|] && key[|name|] in key[..i];
    }
    if name + "/" <= key {
      assert key[|name|] == '/';
    }
    if i == |name| && |name| < |key| && name <= key {
      assert key[..|name| + 1] == name + "/";
    }
  }

  lemma PrefixesNest(a: string, b: string, s: string)
    requires a <= s && b <= s
    ensures |a| <= |b| ==> a <= b
    ensures |a| == |b| ==> a == b
  {
    assert a == s[..|a|] && b == s[..|b|];
    assert |a| <= |b| ==> s[..|b|][..|a|] == s[..|a|];
  }

  lemma PrefixOf(a: string, b: string, s: string)
    requires a <= b && b <= s
    ensures a <= s
  {
    assert a == b[..|a|] && b == s[..|b|];
    assert s[..|b|][..|a|] == s[..|a|];
  }

  lemma FirstNameIs(p: Path, key: string, name: string)
    requires Clean(p) && key == Join(p) && CleanName(name)
    ensures name + "/" <= key <==> p[0] == name && |p| > 1
    ensures key == name <==> p == [name]
    ensures name <= key && !(name + "/" <= key) && key != name ==> p[0] != name
    ensures name <= p[0] <==> name <= key
  {
    JoinStarts(p);
    StartsWithName(key, name);
    if name <= key {
      PrefixesNest(name, p[0], key);
    }
    if name <= p[0] {
      PrefixOf(name, p[0], key);
    }
    if key == name {
      FirstSlashIs(name, "");
    }
  }

  /** The test for "under `assets`" that follows a create, on the text of the key. */
  lemma CreateSyncTest(p: Path, key: string)
    requires Clean(p) && key == Join(p)
    ensures SyncsAfterCreate(p) <==> "assets/" <= key || key == "assets"
  {
    FirstNameIs(p, key, "assets");
    assert "assets" + "/" == "assets/";
  }

  /** The test that follows a copy.  It lets `assets2/x` through as well. */
  lemma CopySyncTest(p: Path, key: string)
    requires Clean(p) && key == Join(p)
    ensures SyncsAfterCopy(p) <==> "assets/" <= key || "assets" <= ParentKeyText(key)
  {
    FirstNameIs(p, key, "assets");
    assert "assets" + "/" == "assets/";
    ParentAndLeaf(p, key);
    if |p| > 1 {
      CleanParent(p);
      FirstNameIs(Parent(p), Join(Parent(p)), "assets");
    }
  }
}
