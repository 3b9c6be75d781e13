/** The project edits as the editor runs them, on a disk that changes in place.

    A directory listing comes in no particular order, so the loops over one take any entry that is left. */
module ProjectStep {
  import opened Basics
  import opened FileTree
  import opened Sidecars
  import opened ProjectEdit

  /** The project directory on disk. */
  class Disk {
    var tree: Tree

    constructor (t: Tree)
      ensures tree == t
    {
      tree := t;
    }

    method RenamePath(from: Path, to: Path) returns (ok: bool)
      modifies this
      ensures Ran(ok, tree) == Rename(old(tree), from, to)
    {
      ok := CanRename(tree, from, to);
      if ok {
        tree := Moved(tree, from, to);
      }
    }

    method CreateDirectories(p: Path) returns (ok: bool)
      modifies this
      ensures Ran(ok, tree) == MkDirs(old(tree), p)
    {
      ok := CanMkDirs(tree, p);
      if ok {
        tree := tree + map d | d in Prefixes(p) :: Dir;
      }
    }

    method WriteFile(p: Path, text: string) returns (ok: bool)
      modifies this
      ensures Ran(ok, tree) == WriteText(old(tree), p, text)
    {
      ok := CanWrite(tree, p);
      if ok {
        tree := tree[p := File(text)];
      }
    }

    method RemoveAll(p: Path)
      modifies this
      ensures tree == Without(old(tree), p)
    {
      tree := Without(tree, p);
    }

    method Remove(p: Path)
      modifies this
      ensures tree == RemoveOne(old(tree), p)
    {
      tree := RemoveOne(tree, p);
    }
  }

  /** What `write_missing_metas` has written once it has looked at the paths of `done`. */
  function PartlyWithMetas(t: Tree, done: set<Path>, g: Path -> Guid): Tree {
    t + map m | m in MetasOf(t, done) :: NewMeta(m, g)
  }

  function MetasOf(t: Tree, done: set<Path>): set<Path> {
    set p | p in done && p in Missing(t) :: SiblingMeta(p)
  }

  lemma MetasOfMore(t: Tree, done: set<Path>, p: Path)
    requires p != [] && p !in done && p in t
    ensures SiblingMeta(p) !in MetasOf(t, done)
    ensures MetasOf(t, done + {p}) == MetasOf(t, done) + if p in Missing(t) then {SiblingMeta(p)} else {}
  {
    if SiblingMeta(p) in MetasOf(t, done) {
      var q :| q in done && q in Missing(t) && SiblingMeta(q) == SiblingMeta(p);
      SiblingMetaInjective(p, q);
    }
    var one := if p in Missing(t) then {SiblingMeta(p)} else {};
    forall m ensures m in MetasOf(t, done + {p}) <==> m in MetasOf(t, done) + one {
      if m in MetasOf(t, done + {p}) {
        var q :| q in done + {p} && q in Missing(t) && SiblingMeta(q) == m;
      }
    }
  }

  lemma OneMoreMeta(t: Tree, metas: set<Path>, m: Path, g: Path -> Guid)
    ensures t + (map x | x in metas + {m} :: NewMeta(x, g))
      == (t + map x | x in metas :: NewMeta(x, g))[m := NewMeta(m, g)]
  {
  }

  lemma NextMeta(t: Tree, done: set<Path>, p: Path, g: Path -> Guid)
    requires p != [] && p !in done && p in t
    ensures SiblingMeta(p) !in MetasOf(t, done)
    ensures p in Missing(t) ==>
      && SiblingMeta(p) !in PartlyWithMetas(t, done, g)
      && PartlyWithMetas(t, done + {p}, g)
         == PartlyWithMetas(t, done, g)[SiblingMeta(p) := File(MetaText(g(p), Leaf(p)))]
    ensures p !in Missing(t) ==> PartlyWithMetas(t, done + {p}, g) == PartlyWithMetas(t, done, g)
  {
    MetasOfMore(t, done, p);
    if p in Missing(t) {
      SourceOfSibling(p);
      OneMoreMeta(t, MetasOf(t, done), SiblingMeta(p), g);
    } else {
      assert MetasOf(t, done) + {} == MetasOf(t, done);
    }
  }

  /** The test the loop makes, on the tree as it is by then, picks out the files that had no sidecar at the start. */
  lemma LooksMissing(t: Tree, done: set<Path>, p: Path, g: Path -> Guid)
    requires IsDir(t, ASSETS) && p in Below(t, ASSETS) && p !in done
    ensures IsFile(PartlyWithMetas(t, done, g), p) && !IsMetaName(Leaf(p)) && !Skippable(Leaf(p))
            && SiblingMeta(p) !in PartlyWithMetas(t, done, g)
            <==> p in Missing(t)
    ensures Missing(t) * (done + {p}) == Missing(t) * done + if p in Missing(t) then {p} else {}
  {
    NextMeta(t, done, p, g);
  }

  /** Everything below `d`, in whatever order a recursive listing yields it. */
  function Below(t: Tree, d: Path): set<Path> {
    set p | p in t && Inside(p, d) && p != d
  }

  lemma FirstAndLast(t: Tree, g: Path -> Guid)
    ensures PartlyWithMetas(t, {}, g) == t && Missing(t) * {} == {}
    ensures PartlyWithMetas(t, Below(t, ASSETS), g) == WithMetas(t, g)
    ensures Missing(t) * Below(t, ASSETS) == Missing(t)
    ensures !IsDir(t, ASSETS) ==> WithMetas(t, g) == t && Missing(t) == {}
  {
    assert MetasOf(t, {}) == {};
    assert MetasOf(t, Below(t, ASSETS)) == MissingMetas(t);
    if !IsDir(t, ASSETS) {
      assert Missing(t) == {};
      assert MissingMetas(t) == {};
    }
  }

  /** One entry of the walk below. */
  method WriteMetaOf(disk: Disk, ghost start: Tree, ghost done: set<Path>, p: Path, g: Path -> Guid)
      returns (wrote: bool)
    requires disk.tree == PartlyWithMetas(start, done, g)
    requires IsDir(start, ASSETS) && p in Below(start, ASSETS) && p !in done
    modifies disk
    ensures disk.tree == PartlyWithMetas(start, done + {p}, g)
    ensures |Missing(start) * (done + {p})| == |Missing(start) * done| + if wrote then 1 else 0
  {
    NextMeta(start, done, p, g);
    LooksMissing(start, done, p, g);
    wrote := IsFile(disk.tree, p) && !IsMetaName(Leaf(p)) && !Skippable(Leaf(p)) && SiblingMeta(p) !in disk.tree;
    if wrote {
      disk.tree := disk.tree[SiblingMeta(p) := File(MetaText(g(p), Leaf(p)))];
    }
  }

  /** Writes the sidecar of every asset file that has none. */
  method WriteMissingMetas(disk: Disk, g: Path -> Guid) returns (written: nat)
    modifies disk
    ensures disk.tree == WithMetas(old(disk.tree), g)
    ensures written == |Missing(old(disk.tree))|
  {
    written := 0;
    var start := disk.tree;
    FirstAndLast(start, g);
    if !IsDir(start, ASSETS) {
      return;
    }
    var todo := Below(start, ASSETS);
    ghost var done: set<Path> := {};
    while todo != {}
      invariant todo + done == Below(start, ASSETS) && todo !! done
      invariant disk.tree == PartlyWithMetas(start, done, g)
      invariant written == |Missing(start) * done|
      decreases |todo|
    {
      var p :| p in todo;
      TakeOne(Below(start, ASSETS), todo, done, p);
      var wrote := WriteMetaOf(disk, start, done, p, g);
      if wrote {
        written := written + 1;
      }
      todo, done := todo - {p}, done + {p};
    }
    assert done == Below(start, ASSETS);
  }

  method CollectOrphans(t: Tree) returns (orphans: seq<Path>)
    ensures forall p :: p in orphans <==> p in Orphans(t)
    ensures forall i, j | 0 <= i < j < |orphans| :: orphans[i] != orphans[j]
  {
    orphans := [];
    if !IsDir(t, ASSETS) {
      return;
    }
    var todo := Below(t, ASSETS);
    ghost var seen: set<Path> := {};
    while todo != {}
      invariant todo + seen == Below(t, ASSETS) && todo !! seen
      invariant forall p :: p in orphans <==> p in seen && IsOrphan(t, p)
      invariant forall i, j | 0 <= i < j < |orphans| :: orphans[i] != orphans[j]
      decreases |todo|
    {
      var p :| p in todo;
      if IsFile(t, p) && IsMetaName(Leaf(p)) && SourceOf(p) !in t {
        orphans := orphans + [p];
      }
      todo, seen := todo - {p}, seen + {p};
    }
    forall p
      ensures p in orphans <==> p in Orphans(t)
    {
      if p in Orphans(t) {
        assert p in Below(t, ASSETS);
      }
    }
  }

  function Listed(paths: seq<Path>): set<Path> {
    set p | p in paths
  }

  lemma {:induction false} ListedSize(paths: seq<Path>)
    requires forall i, j | 0 <= i < j < |paths| :: paths[i] != paths[j]
    ensures |Listed(paths)| == |paths|
  {
    if paths != [] {
      var n := |paths| - 1;
      ListedSize(paths[..n]);
      assert Listed(paths) == Listed(paths[..n]) + {paths[n]};
    }
  }

  /** Deletes every sidecar under `assets` whose source is gone.  The list is made before the first deletion. */
  method RemoveOrphanMetas(disk: Disk) returns (removed: nat)
    modifies disk
    ensures disk.tree == old(disk.tree) - Orphans(old(disk.tree))
    ensures removed == |Orphans(old(disk.tree))|
  {
    var start := disk.tree;
    var orphans := CollectOrphans(start);
    removed := 0;
    for i := 0 to |orphans|
      invariant disk.tree == start - Listed(orphans[..i])
      invariant removed == i
    {
      var p := orphans[i];
      assert p in orphans && p !in orphans[..i] && IsFile(start, p);
      assert Listed(orphans[..i + 1]) == Listed(orphans[..i]) + {p};
      disk.Remove(p);
      removed := removed + 1;
    }
    assert orphans[..|orphans|] == orphans;
    ListedSize(orphans);
    assert Listed(orphans) == Orphans(start);
  }

  method SyncAssets(disk: Disk, g: Path -> Guid) returns (written: nat, removed: nat)
    modifies disk
    ensures disk.tree == Synced(old(disk.tree), g)
    ensures written == |Missing(old(disk.tree))|
    ensures removed == |Orphans(WithMetas(old(disk.tree), g))|
  {
    written := WriteMissingMetas(disk, g);
    removed := RemoveOrphanMetas(disk);
  }

  // What a step records.

  /** What `collect_metas` has recorded once its walk has seen the paths of `seen`. */
  ghost predicate PartCollected(t: Tree, asset: Path, seen: set<Path>, metas: seq<MetaExpect>, guidOf: GuidReader)
    requires asset != []
  {
    && (forall i | 0 <= i < |metas| ::
          RecordsMeta(t, asset, metas[i], guidOf) && InWalk(asset, seen, MetaFile(asset, metas[i])))
    && (forall p | p in t && IsSidecarOf(t, asset, p) && InWalk(asset, seen, p) ::
          exists i :: 0 <= i < |metas| && MetaFile(asset, metas[i]) == p)
    && (forall i, j | 0 <= i < j < |metas| :: MetaFile(asset, metas[i]) != MetaFile(asset, metas[j]))
  }

  predicate InWalk(asset: Path, seen: set<Path>, p: Path)
    requires asset != []
  {
    p == SiblingMeta(asset) || p in seen
  }

  lemma FirstMeta(t: Tree, asset: Path, metas: seq<MetaExpect>, guidOf: GuidReader)
    requires asset != []
    requires var sibling := SiblingMeta(asset);
             metas ==
               if IsFile(t, sibling) then [MetaExpect(true, [], guidOf(t[sibling].bytes), t[sibling].bytes)] else []
    ensures PartCollected(t, asset, {}, metas, guidOf)
  {
    if IsFile(t, SiblingMeta(asset)) {
      assert MetaFile(asset, metas[0]) == SiblingMeta(asset);
    }
  }

  lemma PushMeta(t: Tree, asset: Path, seen: set<Path>, metas: seq<MetaExpect>, guidOf: GuidReader, p: Path,
                 meta: MetaExpect)
    requires asset != [] && PartCollected(t, asset, seen, metas, guidOf)
    requires p in Below(t, asset) && p !in seen && IsFile(t, p) && IsMetaName(Leaf(p))
    requires meta == MetaExpect(false, p[|asset|..], guidOf(t[p].bytes), t[p].bytes)
    ensures PartCollected(t, asset, seen + {p}, metas + [meta], guidOf)
  {
    var all := metas + [meta];
    SiblingMetaApart(asset, asset);
    assert MetaFile(asset, meta) == p;
    forall i | 0 <= i < |all|
      ensures RecordsMeta(t, asset, all[i], guidOf) && InWalk(asset, seen + {p}, MetaFile(asset, all[i]))
      ensures i < |metas| ==> MetaFile(asset, all[i]) != p
    {
      if i < |metas| {
        assert all[i] == metas[i] && InWalk(asset, seen, MetaFile(asset, metas[i]));
      }
    }
    forall q | q in t && IsSidecarOf(t, asset, q) && InWalk(asset, seen + {p}, q)
      ensures exists i :: 0 <= i < |all| && MetaFile(asset, all[i]) == q
    {
      if q == p {
        assert all[|metas|] == meta;
      } else {
        assert InWalk(asset, seen, q);
        var i :| 0 <= i < |metas| && MetaFile(asset, metas[i]) == q;
        assert all[i] == metas[i];
      }
    }
  }

  lemma PassMeta(t: Tree, asset: Path, seen: set<Path>, metas: seq<MetaExpect>, guidOf: GuidReader, p: Path)
    requires asset != [] && PartCollected(t, asset, seen, metas, guidOf)
    requires p in Below(t, asset) && !(IsFile(t, p) && IsMetaName(Leaf(p)))
    ensures PartCollected(t, asset, seen + {p}, metas, guidOf)
  {
    SiblingMetaApart(asset, asset);
    forall i | 0 <= i < |metas|
      ensures InWalk(asset, seen + {p}, MetaFile(asset, metas[i]))
    {
      assert InWalk(asset, seen, MetaFile(asset, metas[i]));
    }
    forall q | q in t && IsSidecarOf(t, asset, q) && InWalk(asset, seen + {p}, q)
      ensures InWalk(asset, seen, q)
    {
    }
  }

  lemma AllMetas(t: Tree, asset: Path, seen: set<Path>, metas: seq<MetaExpect>, guidOf: GuidReader)
    requires Closed(t) && asset != [] && PartCollected(t, asset, seen, metas, guidOf)
    requires if IsDir(t, asset) then seen == Below(t, asset) else seen == {}
    ensures Collected(t, asset, metas, guidOf)
  {
    forall p | p in t && IsSidecarOf(t, asset, p)
      ensures InWalk(asset, seen, p)
    {
    }
  }

  /** `collect_metas`: the sidecar beside an asset and, for a folder, every sidecar below it. */
  method CollectMetas(t: Tree, asset: Path, directory: bool, guidOf: GuidReader) returns (metas: seq<MetaExpect>)
    requires Closed(t) && asset != [] && directory == IsDir(t, asset)
    ensures Collected(t, asset, metas, guidOf)
  {
    metas := [];
    var sibling := SiblingMeta(asset);
    if IsFile(t, sibling) {
      metas := [MetaExpect(true, [], guidOf(t[sibling].bytes), t[sibling].bytes)];
    }
    FirstMeta(t, asset, metas, guidOf);
    if !directory {
      AllMetas(t, asset, {}, metas, guidOf);
      return;
    }
    var todo := Below(t, asset);
    ghost var seen: set<Path> := {};
    while todo != {}
      invariant todo + seen == Below(t, asset) && todo !! seen
      invariant PartCollected(t, asset, seen, metas, guidOf)
      decreases |todo|
    {
      var p :| p in todo;
      TakeOne(Below(t, asset), todo, seen, p);
      if IsMetaName(Leaf(p)) && IsFile(t, p) {
        var text := t[p].bytes;
        var meta := MetaExpect(false, p[|asset|..], guidOf(text), text);
        PushMeta(t, asset, seen, metas, guidOf, p, meta);
        metas := metas + [meta];
      } else {
        PassMeta(t, asset, seen, metas, guidOf, p);
      }
      todo, seen := todo - {p}, seen + {p};
    }
    AllMetas(t, asset, seen, metas, guidOf);
  }

  /** The entries of a directory. */
  function Children(t: Tree, d: Path): set<Path> {
    set p | p in t && |p| == |d| + 1 && Inside(p, d)
  }

  function ChildOn(d: Path, p: Path): Path
    requires Inside(p, d) && p != d
  {
    p[..|d| + 1]
  }

  lemma ReachedChild(d: Path, p: Path)
    requires Inside(p, d) && p != d
    ensures Inside(ChildOn(d, p), d) && Inside(p, ChildOn(d, p)) && |ChildOn(d, p)| == |d| + 1
    ensures Leaf(ChildOn(d, p)) == p[|d|]
    ensures Reached(d, p) <==> !IsMetaName(Leaf(ChildOn(d, p))) && Reached(ChildOn(d, p), p)
  {
    var c := ChildOn(d, p);
    if Reached(c, p) && !IsMetaName(p[|d|]) {
      forall i | |d| <= i < |p|
        ensures !IsMetaName(p[i])
      {
      }
    }
  }

  /** The entries captured so far: `top` itself and everything reached through the children of `done`. */
  predicate InPart(top: Path, done: set<Path>, p: Path) {
    Reached(top, p) && (p == top || ChildOn(top, p) in done)
  }

  ghost predicate PartCaptured(t: Tree, root: Path, top: Path, done: set<Path>, files: seq<StoredFile>) {
    && (forall i | 0 <= i < |files| ::
          RecordsFile(t, root, top, files[i]) && InPart(top, done, root + files[i].relative))
    && (forall p | p in t && InPart(top, done, p) :: exists i :: 0 <= i < |files| && root + files[i].relative == p)
    && (forall i, j | 0 <= i < j < |files| :: !Inside(files[i].relative, files[j].relative))
  }

  lemma SkippedChild(t: Tree, root: Path, top: Path, done: set<Path>, files: seq<StoredFile>, c: Path)
    requires PartCaptured(t, root, top, done, files) && c in Children(t, top) && IsMetaName(Leaf(c))
    ensures PartCaptured(t, root, top, done + {c}, files)
  {
    forall p
      ensures InPart(top, done + {c}, p) <==> InPart(top, done, p)
    {
      if Reached(top, p) && p != top {
        ReachedChild(top, p);
      }
    }
  }

  lemma InsideRoot(root: Path, a: Path, b: Path)
    ensures Inside(root + a, root + b) <==> Inside(a, b)
  {
    if Inside(root + a, root + b) {
      assert a == (root + a)[|root|..] && b == (root + b)[|root|..];
      assert (root + a)[..|root + b|] == root + b;
      assert a[..|b|] == b;
    }
  }

  lemma CapturedChild(t: Tree, root: Path, top: Path, done: set<Path>, files: seq<StoredFile>, c: Path,
                      more: seq<StoredFile>)
    requires PartCaptured(t, root, top, done, files)
    requires c in Children(t, top) && c !in done && !IsMetaName(Leaf(c))
    requires CapturedFrom(t, root, c, more)
    ensures PartCaptured(t, root, top, done + {c}, files + more)
  {
    forall i | 0 <= i < |files + more|
      ensures RecordsFile(t, root, top, (files + more)[i])
      ensures InPart(top, done + {c}, root + (files + more)[i].relative)
    {
      EachCaptured(t, root, top, done, files, c, more, i);
    }
    forall p | p in t && InPart(top, done + {c}, p)
      ensures exists i :: 0 <= i < |files + more| && root + (files + more)[i].relative == p
    {
      AllCaptured(t, root, top, done, files, c, more, p);
    }
    forall i, j | 0 <= i < j < |files + more|
      ensures !Inside((files + more)[i].relative, (files + more)[j].relative)
    {
      FoldersFirst(t, root, top, done, files, c, more, i, j);
    }
  }

  lemma EachCaptured(t: Tree, root: Path, top: Path, done: set<Path>, files: seq<StoredFile>, c: Path,
                     more: seq<StoredFile>, i: nat)
    requires PartCaptured(t, root, top, done, files)
    requires c in Children(t, top) && !IsMetaName(Leaf(c)) && CapturedFrom(t, root, c, more)
    requires i < |files + more|
    ensures RecordsFile(t, root, top, (files + more)[i])
    ensures InPart(top, done + {c}, root + (files + more)[i].relative)
  {
    if i < |files| {
      assert RecordsFile(t, root, top, files[i]) && InPart(top, done, root + files[i].relative);
    } else {
      var f := more[i - |files|];
      assert RecordsFile(t, root, c, f);
      ChildOf(top, c, root + f.relative);
    }
  }

  lemma AllCaptured(t: Tree, root: Path, top: Path, done: set<Path>, files: seq<StoredFile>, c: Path,
                    more: seq<StoredFile>, p: Path)
    requires PartCaptured(t, root, top, done, files) && CapturedFrom(t, root, c, more)
    requires p in t && InPart(top, done + {c}, p)
    ensures exists i :: 0 <= i < |files + more| && root + (files + more)[i].relative == p
  {
    var all := files + more;
    if InPart(top, done, p) {
      var i :| 0 <= i < |files| && root + files[i].relative == p;
      assert all[i] == files[i];
    } else {
      ReachedChild(top, p);
      var i :| 0 <= i < |more| && root + more[i].relative == p;
      assert all[|files| + i] == more[i];
    }
  }

  lemma FoldersFirst(t: Tree, root: Path, top: Path, done: set<Path>, files: seq<StoredFile>, c: Path,
                     more: seq<StoredFile>, i: nat, j: nat)
    requires PartCaptured(t, root, top, done, files)
    requires c in Children(t, top) && c !in done && CapturedFrom(t, root, c, more)
    requires i < j < |files + more|
    ensures !Inside((files + more)[i].relative, (files + more)[j].relative)
  {
    if i < |files| <= j {
      var f, m := files[i], more[j - |files|];
      var p, q := root + f.relative, root + m.relative;
      assert InPart(top, done, p) && RecordsFile(t, root, c, m);
      InsideRoot(root, f.relative, m.relative);
      if Inside(p, q) {
        InsideTransitive(p, q, c);
        ChildOf(top, c, p);
        assert false;
      }
    }
  }

  lemma ChildOf(top: Path, c: Path, p: Path)
    requires |c| == |top| + 1 && Inside(c, top) && Inside(p, c)
    ensures Inside(p, top) && p != top && ChildOn(top, p) == c
    ensures Reached(c, p) && !IsMetaName(Leaf(c)) ==> Reached(top, p)
  {
    InsideTransitive(p, c, top);
    ReachedChild(top, p);
  }

  lemma FewerBelow(t: Tree, top: Path, c: Path)
    requires top in t && |c| == |top| + 1 && Inside(c, top)
    ensures |set p | p in t && Inside(p, c)| < |set p | p in t && Inside(p, top)|
  {
    var a, b := set p | p in t && Inside(p, c), set p | p in t && Inside(p, top);
    forall p | p in a
      ensures p in b
    {
      InsideTransitive(p, c, top);
    }
    assert top in b && top !in a;
    assert a <= b - {top};
    SubsetSize(a, b - {top});
  }

  lemma SubsetSize<T>(a: set<T>, b: set<T>)
    requires a <= b
    ensures |a| <= |b|
  {
    assert b == a + (b - a);
  }

  lemma ChildPath(root: Path, path: Path, relative: Path, child: Path)
    requires path == root + relative && |child| == |path| + 1 && Inside(child, path)
    ensures child == root + (relative + [Leaf(child)])
  {
    assert child == path + [Leaf(child)];
  }

  lemma TopCaptured(t: Tree, root: Path, path: Path, relative: Path)
    requires IsDir(t, path) && path == root + relative
    ensures PartCaptured(t, root, path, {}, [StoredFile(relative, true, "")])
  {
    var files := [StoredFile(relative, true, "")];
    assert Reached(path, path) && root + files[0].relative == path;
  }

  /** `capture_tree`: lists what is at and below `path`, folders before what is in them. */
  method CaptureTree(t: Tree, path: Path, relative: Path, ghost root: Path) returns (files: seq<StoredFile>)
    requires Closed(t) && path in t && path == root + relative
    ensures CapturedFrom(t, root, path, files)
    decreases |set p | p in t && Inside(p, path)|
  {
    if t[path].Dir? {
      files := [StoredFile(relative, true, "")];
      TopCaptured(t, root, path, relative);
      var todo := Children(t, path);
      ghost var done: set<Path> := {};
      while todo != {}
        invariant todo + done == Children(t, path) && todo !! done
        invariant PartCaptured(t, root, path, done, files)
        decreases |todo|
      {
        var child :| child in todo;
        TakeOne(Children(t, path), todo, done, child);
        if IsMetaName(Leaf(child)) {
          SkippedChild(t, root, path, done, files, child);
        } else {
          FewerBelow(t, path, child);
          ChildPath(root, path, relative, child);
          var more := CaptureTree(t, child, relative + [Leaf(child)], root);
          CapturedChild(t, root, path, done, files, child, more);
          files := files + more;
        }
        todo, done := todo - {child}, done + {child};
      }
      AllPartsCaptured(t, root, path, done, files);
    } else {
      files := [StoredFile(relative, false, t[path].bytes)];
      FileAlone(t, root, path, relative);
    }
  }

  lemma AllPartsCaptured(t: Tree, root: Path, top: Path, done: set<Path>, files: seq<StoredFile>)
    requires Closed(t) && PartCaptured(t, root, top, done, files) && done == Children(t, top)
    ensures CapturedFrom(t, root, top, files)
  {
    forall p | p in t && Reached(top, p)
      ensures InPart(top, done, p)
    {
      if p != top {
        ReachedChild(top, p);
        var c := ChildOn(top, p);
        assert c == p || c in t;
      }
    }
  }

  lemma FileAlone(t: Tree, root: Path, path: Path, relative: Path)
    requires Closed(t) && IsFile(t, path) && path == root + relative
    ensures CapturedFrom(t, root, path, [StoredFile(relative, false, t[path].bytes)])
  {
    var files := [StoredFile(relative, false, t[path].bytes)];
    assert Reached(path, path);
    forall p | p in t && Reached(path, p)
      ensures root + files[0].relative == p
    {
      if p != path {
        assert false;
      }
    }
  }
}
