/** What a step that fails leaves behind: exactly when it has changed nothing. */
module FailedSteps {
  import opened FileTree
  import opened Sidecars
  import opened ProjectEdit
  import opened Restore
  import opened EditRoundTrip

  // Forwards.

  /** Nothing is in the way of a step that fails: a copy takes away what has the new name, and a move that succeeds but
      for the sidecar has overwritten it. */
  predicate ApplySpares(e: Edit, t: Tree) {
    match e.kind
    case Copy => e.from !in t || e.to !in t
    case Relocate => !CanRename(t, e.from, e.to) || e.to !in t
    case _ => true
  }

  /** A move that fails after it has started puts the entry back, but what had the new name is gone. */
  lemma FailedPair(t: Tree, from: Path, to: Path)
    requires Closed(t) && from != [] && to != [] && from != to && !RelocatePair(t, from, to).ok
    ensures RelocatePair(t, from, to).tree == if CanRename(t, from, to) then Without(t, to) else t
  {
    if CanRename(t, from, to) {
      RenamedAway(t, from, to);
      MovedOver(t, from, to);
    }
  }

  lemma MovedOver(t: Tree, from: Path, to: Path)
    requires Closed(t) && from != [] && CanRename(t, from, to) && from != to
    ensures Rename(Moved(t, from, to), to, from) == Ran(true, Without(t, to))
  {
    var m, w := Moved(t, from, to), Without(t, to);
    RenamedAway(t, from, to);
    ParentIsDir(t, from);
    InsideParent(from, from);
    if Inside(Parent(from), to) {
      InsideTransitive(from, Parent(from), to);
    }
    MovedAt(t, from, to, Parent(from));
    var r := Moved(m, to, from);
    forall q
      ensures SameAt(r, w, q)
    {
      MovedAt(m, to, from, q);
      if Inside(q, from) {
        MovedAt(t, from, to, Rebase(q, from, to));
        RebaseInverse(q, from, to);
        ApartInside(q, from, to);
      } else {
        MovedAt(t, from, to, q);
      }
    }
    SameEverywhere(r, w);
  }

  /** The step has begun to write at the new name. */
  predicate Starts(e: Edit, t: Tree) {
    (e.kind == Copy && e.from in t) || (e.kind == Relocate && CanRename(t, e.from, e.to))
  }

  /** What an `apply` that fails leaves: a copy or a move that has started takes away what had the new name, and nothing
      else ever changes. */
  lemma FailedApplyLeaves(e: Edit, t: Tree, g: Path -> Guid)
    requires Closed(t) && WellMade(e) && !Apply(e, t, g).ok
    ensures Apply(e, t, g).tree == if Starts(e, t) then Without(t, e.to) else t
  {
    if e.kind == Relocate && e.from in t {
      FailedPair(t, e.from, e.to);
    }
  }

  /** An `apply` that fails leaves the tree as it was exactly when nothing was in its way, for all five kinds. */
  lemma FailedApplyChangesNothing(e: Edit, t: Tree, g: Path -> Guid)
    requires Closed(t) && WellMade(e) && !Apply(e, t, g).ok
    ensures Apply(e, t, g).tree == t <==> ApplySpares(e, t)
  {
    FailedApplyLeaves(e, t, g);
    WithoutSame(t, e.to);
  }

  lemma WithoutSame(t: Tree, p: Path)
    requires Closed(t)
    ensures Without(t, p) == t <==> p !in t
  {
    assert Inside(p, p);
    if p !in t {
      forall q | q in t
        ensures !Inside(q, p)
      {
        NotThere(t, p, q);
      }
    }
  }

  // Backwards.

  /** Whether the restore of a deletion makes the folders the entry was in. */
  predicate MakesFolders(e: Edit, t: Tree)
    requires e.from != []
  {
    !IsDir(t, Parent(e.from)) && e.files != [] && CanMkDirs(t, Parent(e.from))
  }

  /** A file, or an empty folder. */
  predicate Removable(t: Tree, p: Path) {
    p in t && (t[p].File? || forall q | q in t :: Inside(q, p) ==> q == p)
  }

  predicate NamesSibling(metas: seq<MetaExpect>) {
    exists i | 0 <= i < |metas| :: metas[i].sibling
  }

  /** What a failing `revert` spares: the restore of a deletion made no folder and dropped nothing that had the name of
      the sidecar, and a move back overwrote nothing. */
  predicate RevertSpares(e: Edit, t: Tree)
    requires WellMade(e)
  {
    match e.kind
    case Delete =>
      e.from in t || (!MakesFolders(e, t) && !(NamesSibling(e.metas) && Removable(t, SiblingMeta(e.from))))
    case Relocate => !CanRename(t, e.to, e.from) || e.from !in t
    case _ => true
  }

  /** What a restore into the folder of `asset` may have done outside `asset`: if it has a sidecar to restore, written
      that file where no folder was. */
  ghost predicate OnlySibling(t: Tree, u: Tree, asset: Path, side: bool)
    requires asset != []
  {
    forall q | !Inside(q, asset) ::
      SameAt(t, u, q) || (side && q == SiblingMeta(asset) && !IsDir(t, q) && IsFile(u, q))
  }

  lemma MkDirsBelow(t: Tree, cur: Tree, asset: Path, d: Path, side: bool)
    requires asset != [] && Closed(t) && IsDir(t, Parent(asset)) && OnlySibling(t, cur, asset, side)
    requires Inside(d, asset) || d == Parent(asset)
    ensures OnlySibling(t, MkDirs(cur, d).tree, asset, side)
  {
    var u := MkDirs(cur, d).tree;
    SiblingMetaApart(asset, asset);
    forall q | !Inside(q, asset)
      ensures SameAt(t, u, q) || (side && q == SiblingMeta(asset) && !IsDir(t, q) && IsFile(u, q))
    {
      if MkDirs(cur, d).ok {
        MkDirsAt(cur, d, q);
        if Inside(d, q) {
          if Inside(d, asset) {
            InsideBoth(d, q, asset);
          }
          InsideParent(asset, q);
          assert IsDir(t, q);
        }
      }
    }
  }

  lemma WriteBelow(t: Tree, cur: Tree, asset: Path, p: Path, text: string, side: bool)
    requires asset != [] && OnlySibling(t, cur, asset, side)
    requires Inside(p, asset) || (side && p == SiblingMeta(asset))
    ensures OnlySibling(t, WriteText(cur, p, text).tree, asset, side)
  {
  }

  lemma {:induction false} RestoreFilesBelow(t: Tree, cur: Tree, asset: Path, files: seq<StoredFile>, side: bool)
    requires asset != [] && Closed(t) && IsDir(t, Parent(asset)) && OnlySibling(t, cur, asset, side)
    ensures OnlySibling(t, RestoreFiles(cur, asset, files).tree, asset, side)
    decreases |files|
  {
    if files != [] {
      RestoreFileBelow(t, cur, asset, files[0], side);
      var r := RestoreFile(cur, asset, files[0]);
      if r.ok {
        RestoreFilesBelow(t, r.tree, asset, files[1..], side);
      }
    }
  }

  lemma RestoreFileBelow(t: Tree, cur: Tree, asset: Path, file: StoredFile, side: bool)
    requires asset != [] && Closed(t) && IsDir(t, Parent(asset)) && OnlySibling(t, cur, asset, side)
    ensures OnlySibling(t, RestoreFile(cur, asset, file).tree, asset, side)
  {
    var dest := asset + file.relative;
    ParentOf(asset, file.relative);
    if file.directory {
      MkDirsBelow(t, cur, asset, dest, side);
    } else {
      MkDirsBelow(t, cur, asset, Parent(dest), side);
      WriteBelow(t, MkDirs(cur, Parent(dest)).tree, asset, dest, file.bytes, side);
    }
  }

  lemma RestoreMetaBelow(t: Tree, cur: Tree, asset: Path, meta: MetaExpect, side: bool)
    requires asset != [] && Closed(t) && IsDir(t, Parent(asset)) && OnlySibling(t, cur, asset, side)
    requires meta.sibling ==> side
    ensures OnlySibling(t, RestoreMeta(cur, asset, meta).tree, asset, side)
  {
    var dest := MetaFile(asset, meta);
    if meta.sibling {
      SiblingMetaApart(asset, Parent(asset));
    } else {
      ParentOf(asset, meta.relative);
    }
    MkDirsBelow(t, cur, asset, Parent(dest), side);
    WriteBelow(t, MkDirs(cur, Parent(dest)).tree, asset, dest, meta.text, side);
  }

  lemma {:induction false} RestoreMetasBelow(t: Tree, cur: Tree, asset: Path, metas: seq<MetaExpect>, side: bool)
    requires asset != [] && Closed(t) && IsDir(t, Parent(asset)) && OnlySibling(t, cur, asset, side)
    requires forall i | 0 <= i < |metas| :: metas[i].sibling ==> side
    ensures OnlySibling(t, RestoreMetas(cur, asset, metas).tree, asset, side)
    decreases |metas|
  {
    if metas != [] {
      RestoreMetaBelow(t, cur, asset, metas[0], side);
      var r := RestoreMeta(cur, asset, metas[0]);
      if r.ok {
        RestoreMetasBelow(t, r.tree, asset, metas[1..], side);
      }
    }
  }

  lemma RestoreBelow(t: Tree, e: Edit)
    requires e.from != [] && Closed(t) && IsDir(t, Parent(e.from))
    ensures OnlySibling(t, RestoreDeleted(t, e.from, e).tree, e.from, NamesSibling(e.metas))
  {
    var side := NamesSibling(e.metas);
    var files := if e.files == [] then WriteText(t, e.from, e.bytes) else RestoreFiles(t, e.from, e.files);
    if e.files == [] {
      WriteBelow(t, t, e.from, e.from, e.bytes, side);
    } else {
      RestoreFilesBelow(t, t, e.from, e.files, side);
    }
    if files.ok {
      RestoreMetasBelow(t, files.tree, e.from, e.metas, side);
    }
  }

  /** Dropping the sibling: gone if it could be removed, and everything else as it was. */
  lemma {:induction false} DropSibling(t: Tree, asset: Path, metas: seq<MetaExpect>)
    requires asset != []
    ensures DropMetas(t, asset, metas, true) ==
      if NamesSibling(metas) then RemoveOne(t, SiblingMeta(asset)) else t
    decreases |metas|
  {
    if metas != [] {
      var rest := if !metas[0].sibling then t else RemoveOne(t, SiblingMeta(asset));
      DropSibling(rest, asset, metas[1..]);
      assert NamesSibling(metas) <==> metas[0].sibling || NamesSibling(metas[1..]) by {
        assert forall i | 1 <= i < |metas| :: metas[i] == metas[1..][i - 1];
      }
    }
  }

  /** The clean-up after a failed restore, when the entry's folder was there. */
  lemma CleanedUp(t: Tree, u: Tree, asset: Path, metas: seq<MetaExpect>)
    requires asset != [] && Closed(t) && asset !in t && OnlySibling(t, u, asset, NamesSibling(metas))
    ensures DropMetas(Without(u, asset), asset, metas, true) == t
      <==> !(NamesSibling(metas) && Removable(t, SiblingMeta(asset)))
  {
    var sib := SiblingMeta(asset);
    var w := Without(u, asset);
    var end := DropMetas(w, asset, metas, true);
    DropSibling(w, asset, metas);
    SiblingMetaApart(asset, asset);
    forall q | q != sib
      ensures SameAt(t, w, q)
    {
      if Inside(q, asset) && q in t {
        assert false;
      }
    }
    SiblingCleared(t, w, sib, NamesSibling(metas), end);
  }

  lemma SiblingCleared(t: Tree, w: Tree, sib: Path, drops: bool, end: Tree)
    requires forall q | q != sib :: SameAt(t, w, q)
    requires SameAt(t, w, sib) || (drops && !IsDir(t, sib) && IsFile(w, sib))
    requires end == if drops then RemoveOne(w, sib) else w
    ensures end == t <==> !(drops && Removable(t, sib))
  {
    if !(drops && Removable(t, sib)) {
      forall q
        ensures SameAt(end, t, q)
      {
        if sib in t && drops {
          var r :| r in t && Inside(r, sib) && r != sib;
          assert SameAt(t, w, r);
        }
        assert q != sib ==> SameAt(t, w, q);
      }
      SameEverywhere(end, t);
    }
  }

  // A restore that makes folders.

  lemma NoFolder(t: Tree, e: Edit)
    requires e.from != [] && Closed(t) && e.from !in t && !IsDir(t, Parent(e.from))
    requires !RestoreDeleted(t, e.from, e).ok
    ensures DropMetas(Without(RestoreDeleted(t, e.from, e).tree, e.from), e.from, e.metas, true) == t
      <==> !MakesFolders(e, t)
    ensures SiblingMeta(e.from) !in t
  {
    var from, sib, up := e.from, SiblingMeta(e.from), Parent(e.from);
    var r := RestoreDeleted(t, from, e);
    var w := Without(r.tree, from);
    DropSibling(w, from, e.metas);
    SiblingMetaApart(from, from);
    if sib in t {
      ParentIsDir(t, sib);
    }
    if MakesFolders(e, t) {
      FoldersForFile(t, from, e.files[0]);
      var first := RestoreFile(t, from, e.files[0]);
      if first.ok {
        FilesKeepDir(first.tree, from, e.files[1..], up);
      }
      var files := RestoreFiles(t, from, e.files);
      if files.ok {
        MetasKeepDir(files.tree, from, e.metas, up);
      }
      assert IsDir(r.tree, up) && !Inside(up, from);
      assert |sib| != |up|;
    } else {
      if e.files != [] {
        FoldersForFile(t, from, e.files[0]);
      }
      assert r == Ran(false, t);
      forall q | q in t
        ensures !Inside(q, from)
      {
        if Inside(q, from) {
          assert false;
        }
      }
      assert Without(t, from) == t;
    }
  }

  /** A `revert` that fails leaves the tree as it was exactly when it spared everything, for every edit of any kind,
      whether a step recorded it or not. */
  lemma FailedRevertChangesNothing(e: Edit, t: Tree, guidOf: GuidReader)
    requires Closed(t) && WellMade(e) && !Revert(e, t, guidOf).ok
    ensures Revert(e, t, guidOf).tree == t <==> RevertSpares(e, t)
  {
    if e.kind == Delete && e.from !in t {
      if IsDir(t, Parent(e.from)) {
        RestoreBelow(t, e);
        CleanedUp(t, RestoreDeleted(t, e.from, e).tree, e.from, e.metas);
      } else {
        NoFolder(t, e);
      }
    } else if e.kind == Relocate {
      FailedPair(t, e.to, e.from);
      WithoutSame(t, e.from);
    }
  }

  // Backwards, for a step that `apply` recorded.

  /** Undoing any deletion where a folder has taken the name of a sidecar it would write: the undo fails, and the folder
      is gone if it was empty. */
  lemma FailedUndoDropsAFolder(e: Edit, t: Tree, guidOf: GuidReader)
    requires Closed(t) && WellMade(e) && e.kind == Delete && e.from !in t
    requires WritesSidecar(e) && IsDir(t, SiblingMeta(e.from))
    ensures Revert(e, t, guidOf) == Ran(false, RemoveOne(t, SiblingMeta(e.from)))
  {
    var from := e.from;
    var u := RestoreDeleted(t, from, e).tree;
    ParentIsDir(t, SiblingMeta(from));
    RestoreFails(e, t);
    RestoreBelow(t, e);
    forall q
      ensures SameAt(Without(u, from), t, q)
    {
      NotThere(t, from, q);
    }
    SameEverywhere(Without(u, from), t);
    DropSibling(t, from, e.metas);
    assert NamesSibling(e.metas);
  }

  /** All that undoing a recorded deletion can do in a later tree: refuse, bring back what is recoverable and change
      nothing besides, or fail and drop at most an empty folder that has the sidecar's name. */
  lemma UndoOfDeletion(e: Edit, s: Tree, t: Tree, guidOf: GuidReader)
    requires Records(e, s, guidOf) && Closed(t)
    ensures Revert(e, t, guidOf) ==
      if e.from in t then Ran(false, t)
      else if Restorable(e, t) then Ran(true, Onto(t, e.from, Recovered(s, e.from)))
      else Ran(false, if WritesSidecar(e) then RemoveOne(t, SiblingMeta(e.from)) else t)
  {
    if e.from !in t {
      DeletionComesBack(e, s, t, guidOf);
      if !Restorable(e, t) {
        if IsDir(t, Parent(e.from)) {
          FolderThere(t, Parent(e.from));
          FailedUndoDropsAFolder(e, t, guidOf);
        } else {
          FailedUndoNoFolder(e, t, guidOf);
        }
      }
    }
  }

  lemma FailedUndoNoFolder(e: Edit, t: Tree, guidOf: GuidReader)
    requires Closed(t) && WellMade(e) && e.kind == Delete && e.from !in t
    requires !Restorable(e, t) && !IsDir(t, Parent(e.from))
    ensures Revert(e, t, guidOf) == Ran(false, t) && RemoveOne(t, SiblingMeta(e.from)) == t
  {
    RestoreFails(e, t);
    WithoutSame(t, e.from);
    DropSibling(t, e.from, e.metas);
    if SiblingMeta(e.from) in t {
      ParentIsDir(t, SiblingMeta(e.from));
    }
  }

  predicate IsEmptyDir(t: Tree, p: Path) {
    IsDir(t, p) && forall q | q in t :: Inside(q, p) ==> q == p
  }

  /** Nothing is in the way of an undo that fails: no empty folder has the name of a sidecar to be written, and a move
      back has overwritten nothing. */
  predicate UndoSpares(e: Edit, t: Tree)
    requires WellMade(e)
  {
    match e.kind
    case Delete => e.from in t || !(WritesSidecar(e) && IsEmptyDir(t, SiblingMeta(e.from)))
    case Relocate => !CanRename(t, e.to, e.from) || e.from !in t
    case _ => true
  }

  /** An undo that fails leaves the tree as it was exactly when nothing was in its way, for a recorded step of any of
      the five kinds. */
  lemma FailedUndoChangesNothing(e: Edit, s: Tree, u: Tree, t: Tree, guidOf: GuidReader)
    requires Closed(s) && Closed(t) && WellMade(e) && Recorded(e, s, u, guidOf) && !Revert(e, t, guidOf).ok
    ensures Revert(e, t, guidOf).tree == t <==> UndoSpares(e, t)
  {
    hide Restorable, WritesSidecar, Onto, Recovered, RemoveOne;
    if e.kind == Delete {
      UndoOfDeletion(e, s, t, guidOf);
      if e.from !in t {
        NotRestorable(e, t);
        RemovedSame(t, SiblingMeta(e.from));
      }
    } else {
      FailedRevertChangesNothing(e, t, guidOf);
    }
  }

  /** Where a restore is stopped, no file has the name of the sidecar. */
  lemma NotRestorable(e: Edit, t: Tree)
    requires e.from != [] && Closed(t) && !Restorable(e, t)
    ensures !IsFile(t, SiblingMeta(e.from))
  {
    if SiblingMeta(e.from) in t {
      ParentIsDir(t, SiblingMeta(e.from));
      FolderThere(t, Parent(e.from));
    }
  }

  lemma RemovedSame(t: Tree, p: Path)
    requires !IsFile(t, p)
    ensures RemoveOne(t, p) == t <==> !IsEmptyDir(t, p)
  {
  }

  /** A deletion that is valid can be undone if and only if the folder is there, or can be made for a folder. */
  lemma ValidDeletionUndone(e: Edit, s: Tree, t: Tree, guidOf: GuidReader)
    requires Records(e, s, guidOf) && Closed(t) && Matches(e, t, guidOf)
    ensures Revert(e, t, guidOf).ok <==>
      if e.files == [] then IsDir(t, Parent(e.from)) else CanMkDirs(t, Parent(e.from))
    ensures !Revert(e, t, guidOf).ok ==> Revert(e, t, guidOf).tree == t
  {
    UndoOfDeletion(e, s, t, guidOf);
    if WritesSidecar(e) {
      var i :| 0 <= i < |e.metas| && e.metas[i].sibling && e.metas[i].text != "";
      assert MetaFile(e.from, e.metas[i]) == SiblingMeta(e.from);
    }
  }

  // Inputs.

  /** A copy done again after another file took its name: a file `a` is copied to `b`, the copy is undone, then somebody
      makes a file `b`.  Copying again fails, and that file is gone. */
  lemma FailedRedoLosesAFile(a: Name, b: Name, x: string, mine: string, g: Path -> Guid, guidOf: GuidReader)
    returns (e: Edit, s: Tree)
    requires a != b && SiblingMeta([b]) != [a]
    ensures s == map[[] := Dir, [a] := File(x)] && Closed(s)
    ensures e.kind == Copy && WellMade(e) && var r := Apply(e, s, g);
      r.ok && Recorded(e, s, r.tree, guidOf) && Revert(e, r.tree, guidOf) == Ran(true, s)
    ensures var t := s[[b] := File(mine)]; Closed(t) && Apply(e, t, g) == Ran(false, t - {[b]})
  {
    hide SiblingMeta, Apply, Revert, Recorded, Closed;
    var p: Path, q: Path := [a], [b];
    s := map[[] := Dir, p := File(x)];
    e := Edit(Copy, p, q, "", [], [], true);
    FirstCopy(e, s, p, q, x, g, guidOf);
    SecondCopy(e, s, p, q, x, mine, g);
  }

  lemma FirstCopy(e: Edit, s: Tree, p: Path, q: Path, x: string, g: Path -> Guid, guidOf: GuidReader)
    requires |p| == |q| == 1 && p != q && SiblingMeta(q) != p && s == map[[] := Dir, p := File(x)]
    requires e == Edit(Copy, p, q, "", [], [], true)
    ensures WellMade(e) && Apply(e, s, g) == Ran(true, s[q := File(x)]) && Closed(s)
    ensures Recorded(e, s, s[q := File(x)], guidOf) && Revert(e, s[q := File(x)], guidOf) == Ran(true, s)
  {
    hide SiblingMeta, CopiedTree, Without, IsMetaName;
    assert Parent(p) == Parent(q) == [];
    ClosedByParents(s);
    RootFileCopied(s, p, q);
    var u := s[q := File(x)];
    assert u == s + map[q := File(x)];
    SiblingMetaApart(q, q);
    assert |SiblingMeta(q)| == 1;
    forall r | r in u
      ensures !IsSidecarOf(u, q, r)
    {
    }
    WithoutLeaf(u, q);
    assert u - {q} == s;
  }

  lemma SecondCopy(e: Edit, s: Tree, p: Path, q: Path, x: string, mine: string, g: Path -> Guid)
    requires |p| == |q| == 1 && p != q && s == map[[] := Dir, p := File(x)]
    requires e == Edit(Copy, p, q, "", [], [], true) && WellMade(e)
    ensures var t := s[q := File(mine)]; Closed(t) && Apply(e, t, g) == Ran(false, t - {q})
  {
    hide CopiedTree, Without, Closed, WithMetas;
    var t := s[q := File(mine)];
    assert Parent(p) == Parent(q) == [];
    ClosedByParents(t);
    RootFileCopied(t, p, q);
    assert q in CopiedTree(t, p, q) && q in t && t[q].File?;
    assert !CanCopy(t, p, q);
    WithoutLeaf(t, q);
  }

  lemma RootFileCopied(t: Tree, p: Path, q: Path)
    requires |p| == |q| == 1 && p != q && IsFile(t, p) && forall r | r in t :: |r| <= 1
    ensures CopiedTree(t, p, q) == map[q := t[p]]
  {
    var l, r := CopiedTree(t, p, q), map[q := t[p]];
    assert Rebase(q, q, p) == p;
    forall n
      ensures SameAt(l, r, n)
    {
      GraftedAt(t, p, q, n);
      if Inside(n, q) && n != q {
        assert |Rebase(n, q, p)| > 1;
      }
    }
    SameEverywhere(l, r);
  }

  /** Such an input: the deletion of a file with its sidecar, for any name and texts, then a folder with the sidecar's
      name.  The undo fails, and the folder is gone. */
  lemma FailedUndoLosesAFolder(name: Name, x: string, m: string, g: Path -> Guid, guidOf: GuidReader)
    returns (e: Edit, s: Tree)
    requires m != ""
    ensures var a, sib := [name], SiblingMeta([name]);
      s == map[[] := Dir, a := File(x), sib := File(m)] && Closed(s)
      && e.kind == Delete && WellMade(e) && Apply(e, s, g).ok && Recorded(e, s, Apply(e, s, g).tree, guidOf)
      && var t := Apply(e, s, g).tree[sib := Dir];
         Closed(t) && Revert(e, t, guidOf) == Ran(false, t - {sib})
  {
    hide SiblingMeta, Revert, RemoveOne, IsMetaName;
    var a: Path := [name];
    var sib := SiblingMeta(a);
    s := map[[] := Dir, a := File(x), sib := File(m)];
    e := Edit(Delete, a, [], x, [], [MetaExpect(true, [], guidOf(m), m)], true);
    assert Parent(a) == [] && Parent(sib) == [] && |sib| == 1;
    SiblingMetaApart(a, a);
    ClosedByParents(s);
    OneAsset(s, a, sib, e.metas, guidOf);
    assert Deleted(s, a) == map[[] := Dir];
    var t := Deleted(s, a)[sib := Dir];
    OneFolder(t, sib);
    assert e.metas[0].sibling;
    FailedUndoDropsAFolder(e, t, guidOf);
  }

  lemma OneAsset(s: Tree, a: Path, sib: Path, metas: seq<MetaExpect>, guidOf: GuidReader)
    requires |a| == |sib| == 1 && a != sib && sib == SiblingMeta(a) && [] in s && s.Keys == {[], a, sib}
    requires IsFile(s, sib) && metas == [MetaExpect(true, [], guidOf(s[sib].bytes), s[sib].bytes)]
    ensures Collected(s, a, metas, guidOf)
  {
    hide SiblingMeta, IsMetaName;
    assert MetaFile(a, metas[0]) == sib;
    forall p | p in s && IsSidecarOf(s, a, p)
      ensures exists i :: 0 <= i < |metas| && MetaFile(a, metas[i]) == p
    {
      assert p == sib;
    }
  }

  lemma OneFolder(t: Tree, p: Path)
    requires |p| == 1 && t == map[[] := Dir, p := Dir]
    ensures Closed(t) && RemoveOne(t, p) == t - {p} && forall q | q in t :: q == [] || q == p
  {
    assert Parent(p) == [];
    ClosedByParents(t);
  }

  /** A file with its sidecar, and one with the new name where a folder has the name of the sidecar. */
  function Crowded(s: Tree, b: Path, mine: string): Tree
    requires b != []
  {
    s[b := File(mine)][SiblingMeta(b) := Dir]
  }

  /** A move done again after another file took its name: a file `a` is moved to `b` and back, then somebody makes a
      file `b` and a folder with the name of its sidecar.  Moving again fails, and that file is gone. */
  lemma FailedRedoOverwritesAFile(a: Name, b: Name, x: string, m: string, mine: string, g: Path -> Guid,
                                  guidOf: GuidReader) returns (e: Edit, s: Tree)
    requires a != b && SiblingMeta([a]) != [b] && SiblingMeta([b]) != [a]
    ensures s == map[[] := Dir, [a] := File(x), SiblingMeta([a]) := File(m)] && Closed(s)
    ensures e.kind == Relocate && WellMade(e) && var r := Apply(e, s, g);
      r.ok && Recorded(e, s, r.tree, guidOf) && Revert(e, r.tree, guidOf) == Ran(true, s)
    ensures var t := Crowded(s, [b], mine); Closed(t) && Apply(e, t, g) == Ran(false, t - {[b]})
  {
    hide SiblingMeta, IsMetaName, RelocatePair, Crowded;
    var p: Path, q: Path := [a], [b];
    s := map[[] := Dir, p := File(x), SiblingMeta(p) := File(m)];
    e := Edit(Relocate, p, q, "", [], [MetaExpect(true, [], guidOf(m), m)], true);
    assert Parent(p) == Parent(q) == [] && |SiblingMeta(p)| == |SiblingMeta(q)| == 1;
    SiblingMetaApart(p, p);
    SiblingMetaApart(q, q);
    if SiblingMeta(p) == SiblingMeta(q) {
      SiblingMetaInjective(p, q);
    }
    ClosedByParents(s);
    FirstMove(s, p, q, x, m);
    OneAsset(RelocatePair(s, p, q).tree, q, SiblingMeta(q), e.metas, guidOf);
    RelocateRoundTrip(s, p, q);
    SecondMove(s, p, q, x, m, mine);
  }

  /** Four different names beside each other. */
  predicate FourNames(p: Path, q: Path) {
    |p| == |q| == 1 && var pm, qm := SiblingMeta(p), SiblingMeta(q);
    |pm| == |qm| == 1 && p != q && p != pm && p != qm && q != pm && q != qm && pm != qm
  }

  lemma RootFileMoved(t: Tree, p: Path, q: Path)
    requires |p| == |q| == 1 && p != q && IsFile(t, p) && IsDir(t, []) && !IsDir(t, q)
    requires forall r | r in t :: |r| <= 1
    ensures Rename(t, p, q) == Ran(true, (t - {p})[q := t[p]])
  {
    var l, r := Moved(t, p, q), (t - {p})[q := t[p]];
    assert Parent(q) == [] && Rebase(q, q, p) == p;
    forall n
      ensures SameAt(l, r, n)
    {
      MovedAt(t, p, q, n);
      if Inside(n, q) && n != q {
        assert |Rebase(n, q, p)| > 1;
      } else if n in t && Inside(n, p) {
        assert n == p;
      }
    }
    SameEverywhere(l, r);
  }

  lemma FirstMove(s: Tree, p: Path, q: Path, x: string, m: string)
    requires FourNames(p, q) && s == map[[] := Dir, p := File(x), SiblingMeta(p) := File(m)]
    ensures RelocatePair(s, p, q) == Ran(true, map[[] := Dir, q := File(x), SiblingMeta(q) := File(m)])
  {
    hide SiblingMeta, Rename;
    var pm, qm := SiblingMeta(p), SiblingMeta(q);
    RootFileMoved(s, p, q);
    var main := Rename(s, p, q).tree;
    assert main == map[[] := Dir, pm := File(m), q := File(x)];
    RootFileMoved(main, pm, qm);
    assert Rename(main, pm, qm).tree == map[[] := Dir, q := File(x), qm := File(m)];
  }

  lemma SecondMove(s: Tree, p: Path, q: Path, x: string, m: string, mine: string)
    requires FourNames(p, q) && s == map[[] := Dir, p := File(x), SiblingMeta(p) := File(m)]
    ensures var t := Crowded(s, q, mine); p in t && Closed(t) && RelocatePair(t, p, q) == Ran(false, t - {q})
  {
    hide SiblingMeta, Moved;
    var pm, qm, t := SiblingMeta(p), SiblingMeta(q), Crowded(s, q, mine);
    assert Parent(p) == Parent(q) == Parent(pm) == Parent(qm) == [];
    assert t == map[[] := Dir, p := File(x), pm := File(m), q := File(mine), qm := Dir];
    ClosedByParents(t);
    RootFileMoved(t, p, q);
    var main := Rename(t, p, q).tree;
    assert IsFile(main, pm) && IsDir(main, qm);
    assert !Rename(main, pm, qm).ok;
    FailedPair(t, p, q);
    WithoutLeaf(t, q);
  }

  lemma WithoutLeaf(t: Tree, q: Path)
    requires |q| == 1 && forall r | r in t :: |r| <= 1
    ensures Without(t, q) == t - {q}
  {
    forall r | r in t
      ensures Inside(r, q) <==> r == q
    {
      if Inside(r, q) {
        assert r == q;
      }
    }
  }
}
