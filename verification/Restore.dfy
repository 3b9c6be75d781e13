/** What undoing a deletion writes back, into the tree the deletion left or into any later one. */
module Restore {
  import opened FileTree
  import opened Sidecars
  import opened ProjectEdit

  /** A sidecar below `root` that has text. */
  predicate MetaWithText(t: Tree, root: Path, m: Path) {
    IsFile(t, m) && Inside(m, root) && m != root && IsMetaName(Leaf(m)) && t[m].bytes != ""
  }

  /** What a deletion of `root` can bring back at `p`: everything outside, everything `capture_tree` reaches, every
      sidecar with text, and the folders on the way to one.  An empty sidecar is not written back. */
  ghost predicate Recoverable(t: Tree, root: Path, p: Path)
    requires root != [] && p in t
  {
    if p == SiblingMeta(root) then t[p] != File("")
    else Inside(p, root) ==> Reached(root, p) || exists m :: m in t && Inside(m, p) && MetaWithText(t, root, m)
  }

  /** Some path of `paths` is at or below `p`. */
  ghost predicate LeadsTo(p: Path, paths: set<Path>) {
    exists q :: q in paths && Inside(q, p)
  }

  function FilePaths(asset: Path, files: seq<StoredFile>): set<Path> {
    set f | f in files :: asset + f.relative
  }

  /** The recorded sidecars that a restore writes: an empty text is skipped. */
  function TextPaths(asset: Path, metas: seq<MetaExpect>): set<Path>
    requires asset != []
  {
    set m | m in metas && m.text != "" :: MetaFile(asset, m)
  }

  predicate Fits(t: Tree, p: Path, f: StoredFile) {
    p in t && f.directory == t[p].Dir? && (t[p].File? ==> f.bytes == t[p].bytes)
  }

  /** Everything of `a` is in `b`, at most with other bytes in a file. */
  ghost predicate Shaped(a: Tree, b: Tree) {
    forall p | p in a :: p in b && (a[p] == b[p] || (a[p].File? && b[p].File?))
  }

  /** `u` is `cur` with the pieces of `t` at `paths` written over it, and the folders on the way to them. */
  ghost predicate Overlaid(cur: Tree, t: Tree, paths: set<Path>, u: Tree) {
    Shaped(u, t) && forall p | p in t ::
      && (p in u <==> p in cur || LeadsTo(p, paths))
      && (p in u ==> u[p] == if p in cur && p !in paths then cur[p] else t[p])
  }

  lemma LeadsToJoins(paths: set<Path>, more: set<Path>, p: Path)
    ensures LeadsTo(p, paths + more) <==> LeadsTo(p, paths) || LeadsTo(p, more)
  {
    if q :| q in paths && Inside(q, p) {
      assert q in paths + more;
    } else if q :| q in more && Inside(q, p) {
      assert q in paths + more;
    }
  }

  lemma LeadsToOne(q: Path, p: Path)
    ensures LeadsTo(p, {q}) <==> Inside(q, p)
  {
    assert q in {q};
  }

  lemma OverlaidJoins(cur: Tree, t: Tree, paths: set<Path>, u: Tree, more: set<Path>, w: Tree)
    requires Overlaid(cur, t, paths, u) && Overlaid(u, t, more, w)
    ensures Overlaid(cur, t, paths + more, w)
  {
    forall p | p in t
      ensures p in w <==> p in cur || LeadsTo(p, paths + more)
      ensures p in w ==> w[p] == if p in cur && p !in paths + more then cur[p] else t[p]
    {
      LeadsToJoins(paths, more, p);
    }
  }

  lemma {:induction false} RestoreFilesAt(cur: Tree, t: Tree, asset: Path, files: seq<StoredFile>)
    requires Closed(t) && asset != [] && Shaped(cur, t)
    requires forall f | f in files :: Fits(t, asset + f.relative, f)
    ensures var r := RestoreFiles(cur, asset, files); r.ok && Overlaid(cur, t, FilePaths(asset, files), r.tree)
    decreases |files|
  {
    hide Closed, Shaped, Overlaid, Fits;
    if files == [] {
      NothingOverlaid(cur, t);
      assert FilePaths(asset, files) == {};
    } else {
      var first, rest := files[0], files[1..];
      assert files == [first] + rest;
      var next := RestoreFile(cur, asset, first).tree;
      RestoreFileAt(cur, t, asset, first);
      RestoreFilesAt(next, t, asset, rest);
      assert FilePaths(asset, files) == {asset + first.relative} + FilePaths(asset, rest);
      var end := RestoreFiles(next, asset, rest).tree;
      OverlaidJoins(cur, t, {asset + first.relative}, next, FilePaths(asset, rest), end);
    }
  }

  lemma NothingOverlaid(cur: Tree, t: Tree)
    requires Shaped(cur, t)
    ensures Overlaid(cur, t, {}, cur)
  {
  }

  lemma RestoreFileAt(cur: Tree, t: Tree, asset: Path, f: StoredFile)
    requires Closed(t) && asset != [] && Shaped(cur, t) && Fits(t, asset + f.relative, f)
    ensures var r := RestoreFile(cur, asset, f);
            r.ok && Shaped(r.tree, t) && Overlaid(cur, t, {asset + f.relative}, r.tree)
  {
    var dest := asset + f.relative;
    if f.directory {
      MkDirsIn(cur, t, dest);
    } else {
      WriteIn(cur, t, dest);
    }
  }

  lemma MkDirsIn(cur: Tree, t: Tree, d: Path)
    requires Closed(t) && Shaped(cur, t) && IsDir(t, d)
    ensures var r := MkDirs(cur, d); r.ok && Overlaid(cur, t, {d}, r.tree)
  {
    forall q | q in Prefixes(d)
      ensures !IsFile(cur, q)
    {
      PrefixesAt(d, q);
    }
    var u := MkDirs(cur, d).tree;
    forall q
      ensures q in u <==> q in cur || LeadsTo(q, {d})
      ensures q in u ==> q in t && u[q] == if q in cur && q != d then cur[q] else t[q]
    {
      MkDirsAt(cur, d, q);
      LeadsToOne(d, q);
    }
  }

  /** Writing a file of `t` after making its folder. */
  lemma WriteIn(cur: Tree, t: Tree, dest: Path)
    requires Closed(t) && Shaped(cur, t) && dest != [] && IsFile(t, dest)
    ensures var made := MkDirs(cur, Parent(dest));
            && made.ok && CanWrite(made.tree, dest)
            && Overlaid(cur, t, {dest}, WriteText(made.tree, dest, t[dest].bytes).tree)
  {
    ParentIsDir(t, dest);
    MkDirsIn(cur, t, Parent(dest));
    var made := MkDirs(cur, Parent(dest)).tree;
    var u := WriteText(made, dest, t[dest].bytes).tree;
    LeadsToOne(Parent(dest), Parent(dest));
    forall p | p in t
      ensures p in u <==> p in cur || LeadsTo(p, {dest})
      ensures p in u ==> u[p] == if p in cur && p != dest then cur[p] else t[p]
    {
      LeadsToOne(Parent(dest), p);
      LeadsToOne(dest, p);
      InsideParent(dest, p);
    }
  }

  lemma {:induction false} RestoreMetasAt(cur: Tree, t: Tree, asset: Path, metas: seq<MetaExpect>)
    requires Closed(t) && asset != [] && Shaped(cur, t)
    requires forall m | m in metas && m.text != "" ::
      IsFile(t, MetaFile(asset, m)) && m.text == t[MetaFile(asset, m)].bytes
    ensures var r := RestoreMetas(cur, asset, metas); r.ok && Overlaid(cur, t, TextPaths(asset, metas), r.tree)
    decreases |metas|
  {
    hide Closed, Shaped, Overlaid;
    if metas == [] {
      NothingOverlaid(cur, t);
      assert TextPaths(asset, metas) == {};
    } else {
      var first, rest := metas[0], metas[1..];
      assert metas == [first] + rest;
      var q := MetaFile(asset, first);
      var next := RestoreMeta(cur, asset, first).tree;
      if first.text != "" {
        WriteIn(cur, t, q);
        OverlaidShaped(cur, t, {q}, next);
        RestoreMetasAt(next, t, asset, rest);
        assert TextPaths(asset, metas) == {q} + TextPaths(asset, rest);
        OverlaidJoins(cur, t, {q}, next, TextPaths(asset, rest), RestoreMetas(next, asset, rest).tree);
      } else {
        RestoreMetasAt(next, t, asset, rest);
        assert TextPaths(asset, metas) == TextPaths(asset, rest);
      }
    }
  }

  lemma OverlaidShaped(cur: Tree, t: Tree, paths: set<Path>, u: Tree)
    requires Overlaid(cur, t, paths, u)
    ensures Shaped(u, t)
  {
  }

  lemma ReachedPrefix(root: Path, p: Path, d: Path)
    requires Reached(root, p) && Inside(p, d) && Inside(d, root)
    ensures Reached(root, d)
  {
    forall i | |root| <= i < |d|
      ensures !IsMetaName(d[i])
    {
      assert d[i] == p[i];
    }
  }

  lemma CapturedReach(s: Tree, root: Path, files: seq<StoredFile>, p: Path)
    requires Closed(s) && IsDir(s, root) && Captured(s, root, files)
    ensures LeadsTo(p, FilePaths(root, files)) <==> Inside(root, p) || (p in s && Reached(root, p))
  {
    if p in s && Reached(root, p) {
      CapturedAt(s, root, files, p);
    } else if Inside(root, p) {
      assert Reached(root, root);
      CapturedAt(s, root, files, root);
    }
    if q :| q in FilePaths(root, files) && Inside(q, p) {
      var f :| f in files && root + f.relative == q;
      assert RecordsFile(s, root, root, f);
      InsideBoth(q, p, root);
      if Inside(p, root) {
        ReachedPrefix(root, q, p);
      }
    }
  }

  lemma CapturedAt(s: Tree, root: Path, files: seq<StoredFile>, q: Path)
    requires Captured(s, root, files) && q in s && Reached(root, q)
    ensures forall p | Inside(q, p) :: LeadsTo(p, FilePaths(root, files))
  {
    var i :| 0 <= i < |files| && root + files[i].relative == q;
    assert files[i] in files && q in FilePaths(root, files);
  }

  /** What a restore has to work with: `e` is a deletion recorded on `s`. */
  ghost predicate Records(e: Edit, s: Tree, guidOf: GuidReader) {
    e.kind == Delete && WellMade(e) && Closed(s) && Recorded(e, s, Deleted(s, e.from), guidOf)
  }

  /** The files part of a restore never fails in a tree that has the folder, or can have it, and brings back exactly
      what `capture_tree` reaches and the folders above it. */
  lemma FilesRebuild(e: Edit, s: Tree, t: Tree, whole: Tree, guidOf: GuidReader)
    requires Records(e, s, guidOf) && Closed(t) && e.from !in t && Closed(whole) && Shaped(t, whole)
    requires forall p | p in s && Inside(p, e.from) :: p in whole && whole[p] == s[p]
    requires e.files == [] ==> IsDir(t, Parent(e.from))
    ensures var r := if e.files == [] then WriteText(t, e.from, e.bytes) else RestoreFiles(t, e.from, e.files);
            && r.ok && Shaped(r.tree, whole)
            && forall p | p in whole ::
              && (p in r.tree <==> p in t || Inside(e.from, p) || (p in s && Reached(e.from, p)))
              && (p in r.tree ==> r.tree[p] == if p in t then t[p] else whole[p])
  {
    var root := e.from;
    if s[root].Dir? {
      assert Reached(root, root);
      assert e.files != [];
      forall f | f in e.files
        ensures Fits(whole, root + f.relative, f)
      {
        assert RecordsFile(s, root, root, f);
      }
      RestoreFilesAt(t, whole, root, e.files);
      forall p | p in whole
        ensures LeadsTo(p, FilePaths(root, e.files)) <==> Inside(root, p) || (p in s && Reached(root, p))
        ensures p in t ==> p !in FilePaths(root, e.files)
      {
        CapturedReach(s, root, e.files, p);
        NotThere(t, root, p);
      }
    } else {
      forall p
        ensures Inside(root, p) <==> p == root || Inside(Parent(root), p)
        ensures p in s && Reached(root, p) ==> p == root
      {
        InsideParent(root, p);
      }
    }
  }

  lemma NotThere(t: Tree, root: Path, p: Path)
    requires Closed(t) && root !in t
    ensures Inside(p, root) ==> p !in t
  {
  }

  /** A sidecar a restore writes has only folders above the entry above it, and recoverable ones. */
  lemma TextMetasReach(s: Tree, root: Path, metas: seq<MetaExpect>, guidOf: GuidReader, p: Path)
    requires Closed(s) && root != [] && root in s && Collected(s, root, metas, guidOf)
    requires LeadsTo(p, TextPaths(root, metas))
    ensures Inside(Parent(root), p) || p in Recovered(s, root)
  {
    hide Closed;
    var q :| q in TextPaths(root, metas) && Inside(q, p);
    var m :| m in metas && m.text != "" && MetaFile(root, m) == q;
    assert RecordsMeta(s, root, m, guidOf);
    SiblingMetaApart(root, root);
    if q == SiblingMeta(root) {
      SiblingMetaApart(root, p);
    } else {
      assert MetaWithText(s, root, q);
      WayToMeta(s, root, q, p);
    }
  }

  lemma WayToMeta(s: Tree, root: Path, q: Path, p: Path)
    requires Closed(s) && root != [] && MetaWithText(s, root, q) && Inside(q, p)
    ensures Inside(Parent(root), p) || p in Recovered(s, root)
  {
    SiblingMetaApart(root, root);
    InsideBoth(q, p, root);
    if Inside(p, root) {
      assert p in s && p != SiblingMeta(root);
    } else {
      InsideParent(root, p);
    }
  }

  lemma RecoverableReach(s: Tree, root: Path, metas: seq<MetaExpect>, guidOf: GuidReader, p: Path)
    requires root != [] && Collected(s, root, metas, guidOf) && p in Recovered(s, root)
    ensures Reached(root, p) || LeadsTo(p, TextPaths(root, metas))
    ensures !Inside(p, root) ==> p == SiblingMeta(root) && p in TextPaths(root, metas)
  {
    var sib := SiblingMeta(root);
    SiblingMetaApart(root, root);
    if p == sib {
      TextPathOf(s, root, metas, guidOf, p, p);
    } else if !Reached(root, p) {
      var q :| q in s && Inside(q, p) && MetaWithText(s, root, q);
      TextPathOf(s, root, metas, guidOf, q, p);
    }
  }

  lemma TextPathOf(s: Tree, root: Path, metas: seq<MetaExpect>, guidOf: GuidReader, q: Path, p: Path)
    requires root != [] && Collected(s, root, metas, guidOf)
    requires q in s && IsSidecarOf(s, root, q) && s[q].bytes != "" && Inside(q, p)
    ensures q in TextPaths(root, metas) && LeadsTo(p, TextPaths(root, metas))
  {
    var i :| 0 <= i < |metas| && MetaFile(root, metas[i]) == q;
    assert RecordsMeta(s, root, metas[i], guidOf) && metas[i] in metas;
  }

  // A restore into any tree.

  /** What the deletion of `root` took away and can bring back. */
  ghost function Recovered(s: Tree, root: Path): Tree
    requires root != []
  {
    map p | p in s && p !in Deleted(s, root) && Recoverable(s, root, p) :: s[p]
  }

  /** What the deletion of `root` took away, except for an empty sidecar beside it. */
  function TakenAway(s: Tree, root: Path): Tree
    requires root != []
  {
    map p | p in s && p !in Deleted(s, root) && (p == SiblingMeta(root) ==> s[p] != File("")) :: s[p]
  }

  /** `t` with the folders above `root`, and `part` written over it. */
  function Onto(t: Tree, root: Path, part: Tree): Tree
    requires root != []
  {
    t + (map d | d in Prefixes(Parent(root)) :: Dir) + part
  }

  lemma OntoAt(t: Tree, root: Path, part: Tree, p: Path)
    requires root != []
    ensures p in Onto(t, root, part) <==> p in t || Inside(Parent(root), p) || p in part
    ensures p in part ==> Onto(t, root, part)[p] == part[p]
    ensures p !in part && Inside(Parent(root), p) ==> Onto(t, root, part)[p] == Dir
    ensures p in t && p !in part && !Inside(Parent(root), p) ==> Onto(t, root, part)[p] == t[p]
  {
    PrefixesAt(Parent(root), p);
  }

  /** The step has a text to write beside the entry. */
  predicate WritesSidecar(e: Edit) {
    exists i | 0 <= i < |e.metas| :: e.metas[i].sibling && e.metas[i].text != ""
  }

  /** Nothing in `t` stops a restore: a file needs its folder to be there, a folder needs that it can be made, and no
      folder has the name of a sidecar that was recorded with text. */
  predicate Restorable(e: Edit, t: Tree)
    requires e.from != []
  {
    && (if e.files == [] then IsDir(t, Parent(e.from)) else CanMkDirs(t, Parent(e.from)))
    && !(WritesSidecar(e) && IsDir(t, SiblingMeta(e.from)))
  }

  lemma WritesTaken(e: Edit, s: Tree, guidOf: GuidReader)
    requires Records(e, s, guidOf)
    ensures WritesSidecar(e) <==> SiblingMeta(e.from) in TakenAway(s, e.from)
  {
    var sib := SiblingMeta(e.from);
    SiblingMetaApart(e.from, e.from);
    if i :| 0 <= i < |e.metas| && e.metas[i].sibling && e.metas[i].text != "" {
      assert RecordsMeta(s, e.from, e.metas[i], guidOf);
    }
    if sib in TakenAway(s, e.from) {
      var i :| 0 <= i < |e.metas| && MetaFile(e.from, e.metas[i]) == sib;
      assert RecordsMeta(s, e.from, e.metas[i], guidOf);
    }
  }

  lemma FoldersFree(e: Edit, t: Tree)
    requires e.from != [] && Closed(t) && Restorable(e, t)
    ensures forall d | Inside(Parent(e.from), d) :: !IsFile(t, d)
  {
    forall d | Inside(Parent(e.from), d)
      ensures !IsFile(t, d)
    {
      PrefixesAt(Parent(e.from), d);
    }
  }

  lemma WholeShaped(e: Edit, s: Tree, t: Tree, guidOf: GuidReader)
    requires Records(e, s, guidOf) && Closed(t) && e.from !in t && Restorable(e, t)
    ensures Shaped(t, Onto(t, e.from, TakenAway(s, e.from)))
    ensures forall p | p in s && Inside(p, e.from) ::
      p in Onto(t, e.from, TakenAway(s, e.from)) && Onto(t, e.from, TakenAway(s, e.from))[p] == s[p]
  {
    var root := e.from;
    SiblingMetaApart(root, root);
    WritesTaken(e, s, guidOf);
    FoldersFree(e, t);
    forall p
      ensures p in t ==> !Inside(p, root)
      ensures p in t && Inside(Parent(root), p) ==> t[p] == Dir
    {
      NotThere(t, root, p);
    }
    forall p
      ensures p in t ==> var w := Onto(t, root, TakenAway(s, root));
        p in w && (t[p] == w[p] || (t[p].File? && w[p].File?))
    {
      OntoAt(t, root, TakenAway(s, root), p);
    }
  }

  lemma WholeClosed(e: Edit, s: Tree, t: Tree, guidOf: GuidReader)
    requires Records(e, s, guidOf) && Closed(t) && e.from !in t && Restorable(e, t)
    ensures Closed(Onto(t, e.from, TakenAway(s, e.from)))
  {
    var root, part := e.from, TakenAway(s, e.from);
    var w := Onto(t, root, part);
    SiblingMetaApart(root, root);
    OntoAt(t, root, part, []);
    WholeShaped(e, s, t, guidOf);
    forall p, d | p in w && Inside(p, d) && d != p
      ensures d in w && w[d] == Dir
    {
      OntoAt(t, root, part, p);
      OntoAt(t, root, part, d);
      if p in part {
        if Inside(p, root) {
          InsideBoth(p, d, root);
          if !Inside(d, root) {
            InsideParent(root, d);
          }
        } else {
          SiblingMetaApart(root, d);
        }
      }
    }
  }

  /** A recorded deletion comes back into every tree that does not stop it, as far as it is recoverable, and nothing
      else of that tree changes. */
  lemma RestoreSucceeds(e: Edit, s: Tree, t: Tree, guidOf: GuidReader)
    requires Records(e, s, guidOf) && Closed(t) && e.from !in t && Restorable(e, t)
    ensures RestoreDeleted(t, e.from, e) == Ran(true, Onto(t, e.from, Recovered(s, e.from)))
  {
    hide WritesSidecar, Shaped, Closed;
    var root := e.from;
    var whole := Onto(t, root, TakenAway(s, root));
    WholeShaped(e, s, t, guidOf);
    WholeClosed(e, s, t, guidOf);
    FilesRebuild(e, s, t, whole, guidOf);
    var r1 := if e.files == [] then WriteText(t, root, e.bytes) else RestoreFiles(t, root, e.files);
    TextsInWhole(e, s, t, guidOf);
    RestoreMetasAt(r1.tree, whole, root, e.metas);
    RestoredIs(e, s, t, guidOf, r1.tree, RestoreMetas(r1.tree, root, e.metas).tree);
  }

  lemma TextsInWhole(e: Edit, s: Tree, t: Tree, guidOf: GuidReader)
    requires Records(e, s, guidOf)
    ensures var whole := Onto(t, e.from, TakenAway(s, e.from));
      forall m | m in e.metas && m.text != "" ::
        IsFile(whole, MetaFile(e.from, m)) && m.text == whole[MetaFile(e.from, m)].bytes
  {
    forall m | m in e.metas && m.text != ""
      ensures var whole := Onto(t, e.from, TakenAway(s, e.from));
        IsFile(whole, MetaFile(e.from, m)) && m.text == whole[MetaFile(e.from, m)].bytes
    {
      assert RecordsMeta(s, e.from, m, guidOf);
      SiblingMetaApart(e.from, e.from);
      OntoAt(t, e.from, TakenAway(s, e.from), MetaFile(e.from, m));
    }
  }

  lemma RestoredIs(e: Edit, s: Tree, t: Tree, guidOf: GuidReader, mid: Tree, end: Tree)
    requires Records(e, s, guidOf) && Closed(t) && e.from !in t && Restorable(e, t)
    requires var whole := Onto(t, e.from, TakenAway(s, e.from));
      && Shaped(t, whole) && Shaped(mid, whole) && Overlaid(mid, whole, TextPaths(e.from, e.metas), end)
      && forall p | p in whole ::
        && (p in mid <==> p in t || Inside(e.from, p) || (p in s && Reached(e.from, p)))
        && (p in mid ==> mid[p] == if p in t then t[p] else whole[p])
    ensures end == Onto(t, e.from, Recovered(s, e.from))
  {
    var whole, u := Onto(t, e.from, TakenAway(s, e.from)), Onto(t, e.from, Recovered(s, e.from));
    forall p
      ensures SameAt(end, u, p)
    {
      RestoredAt(e, s, t, guidOf, mid, end, p);
    }
    SameEverywhere(end, u);
  }

  lemma RestoredAt(e: Edit, s: Tree, t: Tree, guidOf: GuidReader, mid: Tree, end: Tree, p: Path)
    requires Records(e, s, guidOf) && Closed(t) && e.from !in t && Restorable(e, t)
    requires var whole := Onto(t, e.from, TakenAway(s, e.from));
      && Shaped(t, whole) && Shaped(mid, whole) && Overlaid(mid, whole, TextPaths(e.from, e.metas), end)
      && forall p | p in whole ::
        && (p in mid <==> p in t || Inside(e.from, p) || (p in s && Reached(e.from, p)))
        && (p in mid ==> mid[p] == if p in t then t[p] else whole[p])
    ensures SameAt(end, Onto(t, e.from, Recovered(s, e.from)), p)
  {
    var root := e.from;
    OntoAt(t, root, TakenAway(s, root), p);
    OntoAt(t, root, Recovered(s, root), p);
    SiblingMetaApart(root, root);
    InsideParent(root, p);
    FoldersFree(e, t);
    NotThere(t, root, p);
    if LeadsTo(p, TextPaths(root, e.metas)) {
      TextMetasReach(s, root, e.metas, guidOf, p);
    }
    if p in Recovered(s, root) {
      RecoverableReach(s, root, e.metas, guidOf, p);
    }
  }

  // When it cannot.

  lemma ParentOf(asset: Path, relative: Path)
    requires asset != []
    ensures Inside(asset + relative, asset)
    ensures Inside(Parent(asset + relative), asset) || Parent(asset + relative) == Parent(asset)
    ensures relative == [] ==> Parent(asset + relative) == Parent(asset)
  {
    if relative == [] {
      assert asset + relative == asset;
    } else {
      InsideParent(asset + relative, asset);
    }
  }

  lemma {:induction false} FilesKeepDir(cur: Tree, asset: Path, files: seq<StoredFile>, d: Path)
    requires asset != [] && IsDir(cur, d)
    ensures IsDir(RestoreFiles(cur, asset, files).tree, d)
    decreases |files|
  {
    if files != [] {
      var r := RestoreFile(cur, asset, files[0]);
      FileKeepsDir(cur, asset, files[0], d);
      if r.ok {
        FilesKeepDir(r.tree, asset, files[1..], d);
      }
    }
  }

  lemma FileKeepsDir(cur: Tree, asset: Path, file: StoredFile, d: Path)
    requires asset != [] && IsDir(cur, d)
    ensures IsDir(RestoreFile(cur, asset, file).tree, d)
  {
    var dest := asset + file.relative;
    MkDirsAt(cur, dest, d);
    MkDirsAt(cur, Parent(dest), d);
  }

  lemma {:induction false} MetasKeepDir(cur: Tree, asset: Path, metas: seq<MetaExpect>, d: Path)
    requires asset != [] && IsDir(cur, d)
    ensures IsDir(RestoreMetas(cur, asset, metas).tree, d)
    decreases |metas|
  {
    if metas != [] {
      var r := RestoreMeta(cur, asset, metas[0]);
      MkDirsAt(cur, Parent(MetaFile(asset, metas[0])), d);
      if r.ok {
        MetasKeepDir(r.tree, asset, metas[1..], d);
      }
    }
  }

  lemma FoldersForFile(t: Tree, asset: Path, file: StoredFile)
    requires asset != [] && Closed(t) && asset !in t && !IsDir(t, Parent(asset))
    ensures var r := RestoreFile(t, asset, file);
      if CanMkDirs(t, Parent(asset)) then IsDir(r.tree, Parent(asset)) else r == Ran(false, t)
  {
    var dest := asset + file.relative;
    var d := if file.directory then dest else Parent(dest);
    ParentOf(asset, file.relative);
    InsideParent(asset, asset);
    FoldersDown(t, asset, d);
    if CanMkDirs(t, Parent(asset)) {
      MkDirsAt(t, d, Parent(asset));
      if !file.directory {
        assert Parent(asset) != dest;
      }
    }
  }

  /** Below a name that is free, only the folders above it can stop `create_directories`. */
  lemma FoldersDown(t: Tree, asset: Path, d: Path)
    requires asset != [] && Closed(t) && asset !in t && (Inside(d, asset) || d == Parent(asset))
    ensures CanMkDirs(t, d) <==> CanMkDirs(t, Parent(asset))
    ensures Inside(d, Parent(asset))
  {
    InsideParent(asset, asset);
    if Inside(d, asset) {
      InsideTransitive(d, asset, Parent(asset));
    }
    forall q
      ensures IsFile(t, q) && q in Prefixes(d) <==> IsFile(t, q) && q in Prefixes(Parent(asset))
    {
      PrefixesAt(d, q);
      PrefixesAt(Parent(asset), q);
      if IsFile(t, q) && Inside(d, q) && !Inside(Parent(asset), q) {
        InsideBoth(d, q, Parent(asset));
        assert Inside(q, asset);
        assert false;
      }
      if Inside(Parent(asset), q) {
        InsideTransitive(d, Parent(asset), q);
      }
    }
  }

  /** A folder with the name of a sidecar that has a text to be written stops any restore. */
  lemma {:induction false} FolderStopsMetas(t: Tree, asset: Path, metas: seq<MetaExpect>, i: nat)
    requires asset != [] && i < |metas| && metas[i].sibling && metas[i].text != "" && IsDir(t, SiblingMeta(asset))
    ensures !RestoreMetas(t, asset, metas).ok
    decreases |metas|
  {
    var first := RestoreMeta(t, asset, metas[0]);
    MkDirsAt(t, Parent(MetaFile(asset, metas[0])), SiblingMeta(asset));
    if i > 0 && first.ok {
      FolderStopsMetas(first.tree, asset, metas[1..], i - 1);
    }
  }

  lemma RestoreFails(e: Edit, t: Tree)
    requires e.from != [] && Closed(t) && e.from !in t && !Restorable(e, t)
    ensures !RestoreDeleted(t, e.from, e).ok
    ensures !IsDir(t, Parent(e.from)) ==> RestoreDeleted(t, e.from, e) == Ran(false, t)
  {
    var root, sib := e.from, SiblingMeta(e.from);
    if !IsDir(t, Parent(root)) {
      if sib in t {
        ParentIsDir(t, sib);
      }
      if e.files != [] {
        FoldersForFile(t, root, e.files[0]);
      }
    } else {
      FolderThere(t, Parent(root));
      var i :| 0 <= i < |e.metas| && e.metas[i].sibling && e.metas[i].text != "";
      SiblingMetaApart(root, root);
      if e.files != [] {
        FilesKeepDir(t, root, e.files, sib);
      }
      var files := if e.files == [] then WriteText(t, root, e.bytes) else RestoreFiles(t, root, e.files);
      if files.ok {
        FolderStopsMetas(files.tree, root, e.metas, i);
      }
    }
  }

  lemma FolderThere(t: Tree, d: Path)
    requires Closed(t) && IsDir(t, d)
    ensures MkDirs(t, d) == Ran(true, t)
  {
    forall q | q in Prefixes(d)
      ensures IsDir(t, q)
    {
      PrefixesAt(d, q);
    }
    assert t == t + map q | q in Prefixes(d) :: Dir;
  }

  /** A recorded deletion can be restored in a later tree, whatever else has changed there, if and only if nothing
      stops it; then it comes back as far as it is recoverable, and nothing besides changes. */
  lemma DeletionComesBack(e: Edit, s: Tree, t: Tree, guidOf: GuidReader)
    requires Records(e, s, guidOf) && Closed(t) && e.from !in t
    ensures RestoreDeleted(t, e.from, e).ok <==> Restorable(e, t)
    ensures Restorable(e, t) ==> RestoreDeleted(t, e.from, e).tree == Onto(t, e.from, Recovered(s, e.from))
  {
    if Restorable(e, t) {
      RestoreSucceeds(e, s, t, guidOf);
    } else {
      RestoreFails(e, t);
    }
  }
}
