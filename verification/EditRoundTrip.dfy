/** For each of the five kinds of edit: exactly when `revert` after `apply` gives back the starting tree, and that
    the step is valid in both trees. */
module EditRoundTrip {
  import opened Basics
  import opened FileTree
  import opened Sidecars
  import opened ProjectEdit
  import opened Restore

  // Small facts about the recorded sidecars.

  function MetaPaths(asset: Path, metas: seq<MetaExpect>): set<Path>
    requires asset != []
  {
    set m | m in metas :: MetaFile(asset, m)
  }

  lemma MetaPathsAt(t: Tree, asset: Path, metas: seq<MetaExpect>, guidOf: GuidReader, p: Path)
    requires asset != [] && Collected(t, asset, metas, guidOf)
    ensures p in MetaPaths(asset, metas) <==> p in t && IsSidecarOf(t, asset, p)
  {
  }

  lemma {:induction false} DropMetasAt(t: Tree, asset: Path, metas: seq<MetaExpect>, siblingOnly: bool)
    requires asset != []
    requires forall m | m in metas :: MetaFile(asset, m) !in t || t[MetaFile(asset, m)].File?
    requires siblingOnly ==> forall m | m in metas && !m.sibling :: MetaFile(asset, m) !in t
    ensures DropMetas(t, asset, metas, siblingOnly) == t - MetaPaths(asset, metas)
    decreases |metas|
  {
    if metas != [] {
      var p := MetaFile(asset, metas[0]);
      var rest := if siblingOnly && !metas[0].sibling then t else RemoveOne(t, p);
      assert rest == t - {p};
      DropMetasAt(rest, asset, metas[1..], siblingOnly);
      assert metas == [metas[0]] + metas[1..];
      assert MetaPaths(asset, metas) == {p} + MetaPaths(asset, metas[1..]);
    }
  }

  /** Removing an asset with the sidecars collected for it is `Deleted`. */
  lemma DropCollected(t: Tree, asset: Path, metas: seq<MetaExpect>, guidOf: GuidReader, siblingOnly: bool)
    requires asset != [] && Collected(t, asset, metas, guidOf)
    ensures DropMetas(Without(t, asset), asset, metas, siblingOnly) == Deleted(t, asset)
  {
    var w := Without(t, asset);
    forall m | m in metas
      ensures MetaFile(asset, m) !in w || w[MetaFile(asset, m)].File?
      ensures !m.sibling ==> MetaFile(asset, m) !in w
    {
      assert RecordsMeta(t, asset, m, guidOf);
    }
    DropMetasAt(w, asset, metas, siblingOnly);
    SiblingMetaApart(asset, asset);
    forall p
      ensures p in w - MetaPaths(asset, metas) <==> p in Deleted(t, asset)
    {
      MetaPathsAt(t, asset, metas, guidOf, p);
    }
  }

  lemma MetasMatchCollected(t: Tree, asset: Path, metas: seq<MetaExpect>, guidOf: GuidReader)
    requires asset != [] && Collected(t, asset, metas, guidOf)
    ensures MetasMatch(t, asset, metas, guidOf)
  {
    forall i | 0 <= i < |metas|
      ensures MetaMatches(t, MetaFile(asset, metas[i]), metas[i], guidOf)
    {
      assert RecordsMeta(t, asset, metas[i], guidOf);
    }
  }

  // Delete.

  ghost function Rebuilt(t: Tree, root: Path): Tree
    requires root != []
  {
    map p | p in t && Recoverable(t, root, p) :: t[p]
  }

  lemma DeletedClosed(t: Tree, root: Path)
    requires Closed(t) && root != []
    ensures Closed(Deleted(t, root)) && root !in Deleted(t, root)
  {
    forall p, d | p in Deleted(t, root) && Inside(p, d) && d != p
      ensures d in Deleted(t, root) && Deleted(t, root)[d] == Dir
    {
      if Inside(d, root) {
        InsideTransitive(p, d, root);
      }
    }
  }

  lemma OntoDeleted(t: Tree, root: Path)
    requires Closed(t) && root != [] && root in t
    ensures Onto(Deleted(t, root), root, Recovered(t, root)) == Rebuilt(t, root)
  {
    var l, r := Onto(Deleted(t, root), root, Recovered(t, root)), Rebuilt(t, root);
    SiblingMetaApart(root, root);
    forall p
      ensures SameAt(l, r, p)
    {
      OntoAt(Deleted(t, root), root, Recovered(t, root), p);
      InsideParent(root, p);
    }
    SameEverywhere(l, r);
  }

  /** What undoing a deletion rebuilds in the tree it left, for a tree of any depth. */
  lemma RestoreRebuilds(e: Edit, t: Tree, u: Tree, guidOf: GuidReader)
    requires Closed(t) && e.kind == Delete && WellMade(e) && Recorded(e, t, u, guidOf)
    ensures RestoreDeleted(Deleted(t, e.from), e.from, e) == Ran(true, Rebuilt(t, e.from))
  {
    var root, t0 := e.from, Deleted(t, e.from);
    DeletedClosed(t, root);
    ParentIsDir(t, root);
    SiblingMetaApart(root, Parent(root));
    assert IsDir(t0, Parent(root));
    FolderThere(t0, Parent(root));
    WritesTaken(e, t, guidOf);
    RestoreSucceeds(e, t, t0, guidOf);
    OntoDeleted(t, root);
  }

  /** Deleting and undoing gives back the tree exactly when everything in it is recoverable. */
  lemma DeleteRoundTrip(e: Edit, t: Tree, g: Path -> Guid, guidOf: GuidReader)
    requires Closed(t) && e.kind == Delete && WellMade(e) && Apply(e, t, g).ok
    requires Recorded(e, t, Apply(e, t, g).tree, guidOf)
    ensures Revert(e, Apply(e, t, g).tree, guidOf).ok
    ensures Revert(e, Apply(e, t, g).tree, guidOf).tree == t <==> forall p | p in t :: Recoverable(t, e.from, p)
  {
    RestoreRebuilds(e, t, Apply(e, t, g).tree, guidOf);
    var r := Rebuilt(t, e.from);
    if r == t {
      forall p | p in t
        ensures Recoverable(t, e.from, p)
      {
        assert p in r;
      }
    }
  }

  // Create.

  lemma CreateDirRoundTrip(e: Edit, t: Tree, g: Path -> Guid, guidOf: GuidReader)
    requires Closed(t) && e.kind == CreateDir && WellMade(e) && Apply(e, t, g).ok
    ensures Revert(e, Apply(e, t, g).tree, guidOf) == Ran(true, t)
  {
    assert t[e.to := Dir] - {e.to} == t;
  }

  /** The sidecar of the new entry is not there yet, and the sync that follows writes no other. */
  predicate CreatesCleanly(t: Tree, u: Tree, to: Path, syncs: bool)
    requires to != []
  {
    && to !in t
    && !IsFile(t, SiblingMeta(to))
    && (syncs ==> forall p | p in Missing(u) :: Inside(p, to))
  }

  /** After adding `u - t`, all of it below `to`, taking `to` and its sidecar away again. */
  lemma TakenBack(t: Tree, u: Tree, to: Path, syncs: bool, g: Path -> Guid)
    requires Closed(t) && Closed(u) && to != [] && to in u
    requires forall p | p !in t :: p in u ==> Inside(p, to)
    requires forall p | p in t && !Inside(p, to) :: p in u && u[p] == t[p]
    ensures var w := if syncs then WithMetas(u, g) else u;
            Deleted(w, to) == t <==> CreatesCleanly(t, u, to, syncs)
  {
    var w := if syncs then WithMetas(u, g) else u;
    var sib := SiblingMeta(to);
    SiblingMetaApart(to, to);
    if CreatesCleanly(t, u, to, syncs) {
      forall p
        ensures p in Deleted(w, to) <==> p in t
        ensures p in t && p in Deleted(w, to) ==> Deleted(w, to)[p] == t[p]
      {
        WithMetasAt(u, g, p);
        if p in t {
          assert !Inside(p, to);
        } else if syncs && p in MissingMetas(u) {
          MissingMetasAt(u, p);
          assert Inside(SourceOf(p), to);
          SiblingMetaApart(SourceOf(p), to);
          if SourceOf(p) != to {
            InsideParent(SourceOf(p), to);
          }
        }
      }
    }
    if Deleted(w, to) == t {
      assert to !in t;
      WithMetasAt(u, g, sib);
      assert !IsFile(t, sib);
      if syncs {
        forall p | p in Missing(u)
          ensures Inside(p, to)
        {
          NewMetaStays(t, u, to, g, p);
        }
      }
    }
  }

  lemma NewMetaStays(t: Tree, u: Tree, to: Path, g: Path -> Guid, p: Path)
    requires Closed(u) && to != [] && to in u
    requires Deleted(WithMetas(u, g), to) == t
    requires forall p | p in t && !Inside(p, to) :: p in u && u[p] == t[p]
    requires p in Missing(u)
    ensures Inside(p, to)
  {
    var m := SiblingMeta(p);
    SourceOfSibling(p);
    MissingMetasAt(u, m);
    WithMetasAt(u, g, m);
    SiblingMetaApart(p, to);
    InsideParent(p, to);
    if !Inside(p, to) {
      if m == SiblingMeta(to) {
        SiblingMetaInjective(p, to);
      }
      assert false;
    }
  }

  lemma WrittenClosed(t: Tree, p: Path, node: Node)
    requires Closed(t) && p != [] && IsDir(t, Parent(p)) && !IsDir(t, p)
    ensures Closed(t[p := node])
  {
    forall q, d | q in t[p := node] && Inside(q, d) && d != q
      ensures d in t[p := node] && t[p := node][d] == Dir
    {
      if q == p {
        InsideParent(p, d);
      }
      if d == p && q != p {
        assert false;
      }
    }
  }

  /** Creating a file and undoing gives back the tree exactly when nothing had the name, no file had the name of its
      sidecar, and, under `assets`, no other asset file lacked its sidecar. */
  lemma CreateFileRoundTrip(e: Edit, t: Tree, g: Path -> Guid, guidOf: GuidReader)
    requires Closed(t) && e.kind == CreateFile && WellMade(e) && Apply(e, t, g).ok
    requires Recorded(e, t, Apply(e, t, g).tree, guidOf)
    ensures Revert(e, Apply(e, t, g).tree, guidOf).ok
    ensures Revert(e, Apply(e, t, g).tree, guidOf).tree == t <==>
            CreatesCleanly(t, t[e.to := File(e.bytes)], e.to, SyncsAfterCreate(e.to))
  {
    var u := t[e.to := File(e.bytes)];
    var w := Apply(e, t, g).tree;
    WrittenClosed(t, e.to, File(e.bytes));
    WithMetasAt(u, g, e.to);
    WithMetasClosed(u, g);
    MetasMatchCollected(w, e.to, e.metas, guidOf);
    assert Without(w, e.to) == w - {e.to} by {
      assert Closed(w);
    }
    DropCollected(w, e.to, e.metas, guidOf, false);
    assert Inside(e.to, e.to);
    TakenBack(t, u, e.to, SyncsAfterCreate(e.to), g);
  }

  // Copy.

  lemma CopiedAt(t: Tree, from: Path, to: Path, q: Path)
    ensures q in CopiedTree(t, from, to)
      <==> Inside(q, to) && Rebase(q, to, from) in t && Reached(from, Rebase(q, to, from))
    ensures q in CopiedTree(t, from, to) ==> CopiedTree(t, from, to)[q] == t[Rebase(q, to, from)]
  {
    GraftedAt(t, from, to, q);
    if Inside(q, to) {
      var p := Rebase(q, to, from);
      assert forall i | |to| <= i < |q| :: q[i] == p[i - |to| + |from|];
      assert forall i | |from| <= i < |p| :: p[i] == q[i - |from| + |to|];
      assert Reached(to, q) <==> Reached(from, p);
    }
  }

  lemma CopyClosed(t: Tree, from: Path, to: Path)
    requires Closed(t) && CanCopy(t, from, to)
    ensures Closed(t + CopiedTree(t, from, to))
    ensures to in t + CopiedTree(t, from, to)
  {
    var c := CopiedTree(t, from, to);
    CopiedAt(t, from, to, to);
    assert Rebase(to, to, from) == from && Reached(from, from);
    forall p, d | p in t + c && Inside(p, d) && d != p
      ensures d in t + c && (t + c)[d] == Dir
    {
      CopiedAt(t, from, to, p);
      CopiedAt(t, from, to, d);
      if p in c {
        InsideBoth(p, d, to);
        if Inside(d, to) {
          RebaseInside(p, d, to, from);
          RebaseInverse(p, to, from);
          RebaseInverse(d, to, from);
          ReachedPrefix(from, Rebase(p, to, from), Rebase(d, to, from));
        } else {
          InsideParent(to, d);
        }
      }
    }
  }

  /** Copying and undoing gives back the tree exactly when nothing had the name, no file had the name of its sidecar,
      and the sync that follows writes sidecars below the copy only. */
  lemma CopyRoundTrip(e: Edit, t: Tree, g: Path -> Guid, guidOf: GuidReader)
    requires Closed(t) && e.kind == Copy && WellMade(e) && Apply(e, t, g).ok
    requires Recorded(e, t, Apply(e, t, g).tree, guidOf)
    ensures Revert(e, Apply(e, t, g).tree, guidOf).ok
    ensures Revert(e, Apply(e, t, g).tree, guidOf).tree == t <==>
            CreatesCleanly(t, t + CopiedTree(t, e.from, e.to), e.to, SyncsAfterCopy(e.to))
  {
    var u := t + CopiedTree(t, e.from, e.to);
    var w := Apply(e, t, g).tree;
    CopyClosed(t, e.from, e.to);
    DropCollected(w, e.to, e.metas, guidOf, false);
    forall p
      ensures p in CopiedTree(t, e.from, e.to) ==> Inside(p, e.to)
    {
      CopiedAt(t, e.from, e.to, p);
    }
    TakenBack(t, u, e.to, SyncsAfterCopy(e.to), g);
  }

  // Relocate.

  predicate Apart(a: Path, b: Path) {
    !Inside(a, b) && !Inside(b, a)
  }

  predicate AllApart(a: Path, b: Path, c: Path, d: Path) {
    Apart(a, b) && Apart(a, c) && Apart(a, d) && Apart(b, c) && Apart(b, d) && Apart(c, d)
  }

  /** Where the entry at `q` comes from in two moves that do not touch each other. */
  function Origin(q: Path, a: Path, b: Path, c: Path, d: Path): Option<Path> {
    if Inside(q, b) then Some(Rebase(q, b, a))
    else if Inside(q, d) then Some(Rebase(q, d, c))
    else if Inside(q, a) || Inside(q, c) then None
    else Some(q)
  }

  lemma OriginSymmetric(q: Path, a: Path, b: Path, c: Path, d: Path)
    requires AllApart(a, b, c, d)
    ensures Origin(q, a, b, c, d) == Origin(q, c, d, a, b)
  {
    if Inside(q, b) {
      ApartInside(q, b, d);
    }
  }

  lemma MovedTwiceAt(t: Tree, a: Path, b: Path, c: Path, d: Path, q: Path)
    requires AllApart(a, b, c, d)
    ensures var u, p := Moved(Moved(t, a, b), c, d), Origin(q, a, b, c, d);
            && (q in u <==> p.Some? && p.value in t)
            && (q in u ==> u[q] == t[p.value])
  {
    MovedAt(Moved(t, a, b), c, d, q);
    if Inside(q, d) {
      var p := Rebase(q, d, c);
      ApartInside(q, d, b);
      ApartInside(p, c, a);
      ApartInside(p, c, b);
      MovedAt(t, a, b, p);
    } else if Inside(q, b) {
      ApartInside(q, b, c);
      MovedAt(t, a, b, q);
    } else {
      MovedAt(t, a, b, q);
    }
  }

  lemma MovedCommuteAt(t: Tree, a: Path, b: Path, c: Path, d: Path, q: Path)
    requires AllApart(a, b, c, d)
    ensures SameAt(Moved(Moved(t, a, b), c, d), Moved(Moved(t, c, d), a, b), q)
  {
    MovedTwiceAt(t, a, b, c, d, q);
    MovedTwiceAt(t, c, d, a, b, q);
    OriginSymmetric(q, a, b, c, d);
  }

  lemma MovedCommute(t: Tree, a: Path, b: Path, c: Path, d: Path, l: Tree, r: Tree)
    requires AllApart(a, b, c, d)
    requires l == Moved(Moved(t, a, b), c, d) && r == Moved(Moved(t, c, d), a, b)
    ensures l == r
  {
    forall q
      ensures SameAt(l, r, q)
    {
      MovedCommuteAt(t, a, b, c, d, q);
    }
    SameEverywhere(l, r);
  }

  lemma ApartInside(p: Path, a: Path, b: Path)
    requires Inside(p, a) && Apart(a, b)
    ensures !Inside(p, b)
  {
    if Inside(p, b) {
      InsideBoth(p, a, b);
    }
  }

  lemma SiblingsApart(t: Tree, from: Path, to: Path)
    requires Closed(t) && from != [] && to != [] && from in t && SiblingMeta(from) in t
    requires to !in t && SiblingMeta(to) !in t
    requires CanRename(t, from, to) && !Inside(SiblingMeta(to), SiblingMeta(from))
    ensures var fm, tm := SiblingMeta(from), SiblingMeta(to);
            AllApart(from, to, fm, tm)
  {
    var fm, tm := SiblingMeta(from), SiblingMeta(to);
    SiblingMetaApart(from, from);
    SiblingMetaApart(to, to);
    SiblingMetaApart(to, from);
    SiblingMetaApart(to, fm);
    InsideParent(to, from);
    InsideParent(to, fm);
  }

  /** What is renamed with `CanRename` is gone from its old place. */
  lemma RenamedAway(t: Tree, from: Path, to: Path)
    requires Closed(t) && CanRename(t, from, to) && from != to
    ensures from !in Moved(t, from, to) && to in Moved(t, from, to)
    ensures Apart(from, to)
  {
    assert Rebase(to, to, from) == from;
    MovedAt(t, from, to, from);
    MovedAt(t, from, to, to);
    assert Inside(from, from) && Inside(to, to);
  }

  lemma RelocateBackAlone(t: Tree, from: Path, to: Path)
    requires Closed(t) && from != [] && to != [] && from != to
    requires CanRename(t, from, to) && to !in t && SiblingMeta(from) !in t
    requires SiblingMeta(to) !in t || SiblingMeta(to) == from
    ensures RelocatePair(Moved(t, from, to), to, from) == Ran(true, t)
  {
    var m := Moved(t, from, to);
    var tm := SiblingMeta(to);
    RenamedAway(t, from, to);
    SiblingMetaApart(to, to);
    MovedAt(t, from, to, tm);
    assert tm !in m;
    CanRenameBack(t, from, to);
    MovedBack(t, from, to);
  }

  lemma CanRenameBack(t: Tree, from: Path, to: Path)
    requires Closed(t) && from != [] && to != [] && CanRename(t, from, to) && to !in t
    ensures CanRename(Moved(t, from, to), to, from)
  {
    RenamedAway(t, from, to);
    ParentIsDir(t, from);
    InsideParent(from, from);
    if Inside(Parent(from), to) {
      InsideTransitive(from, Parent(from), to);
    }
    MovedAt(t, from, to, Parent(from));
  }

  lemma RelocateBackWithMeta(t: Tree, from: Path, to: Path)
    requires Closed(t) && from != [] && to != [] && from != to
    requires to !in t && SiblingMeta(from) in t && SiblingMeta(to) !in t
    requires RelocatePair(t, from, to).ok
    ensures RelocatePair(RelocatePair(t, from, to).tree, to, from) == Ran(true, t)
  {
    var fm, tm := SiblingMeta(from), SiblingMeta(to);
    var t1 := Moved(t, from, to);
    var t2 := Moved(t1, fm, tm);
    if fm == tm {
      SiblingMetaInjective(from, to);
    }
    SiblingMetaApart(from, from);
    SiblingMetaApart(to, to);
    SiblingsApart(t, from, to);
    MovedClosed(t, from, to);
    MovedAt(t, from, to, tm);
    MovedAt(t, from, to, fm);
    RenamedAway(t1, fm, tm);
    // The two moves do not touch each other, so the tree before the second is reached from either side.
    MovedCommute(t, from, to, fm, tm, t2, Moved(Moved(t, fm, tm), from, to));
    CanRenameMeta(t, from, to);
    var s := Moved(t, fm, tm);
    assert t2 == Moved(s, from, to);
    MovedClosed(t, fm, tm);
    MovedAt(t, fm, tm, from);
    MovedAt(t, fm, tm, to);
    CanRenameMain(t, from, to);
    CanRenameBack(s, from, to);
    MovedBack(s, from, to);
    CanRenameBack(t, fm, tm);
    MovedBack(t, fm, tm);
  }

  lemma CanRenameMeta(t: Tree, from: Path, to: Path)
    requires Closed(t) && from != [] && to != [] && from != to
    requires to !in t && SiblingMeta(from) in t && SiblingMeta(to) !in t && CanRename(t, from, to)
    requires !Inside(SiblingMeta(to), SiblingMeta(from))
    ensures CanRename(t, SiblingMeta(from), SiblingMeta(to))
  {
  }

  lemma CanRenameMain(t: Tree, from: Path, to: Path)
    requires Closed(t) && from != [] && to != [] && from != to
    requires to !in t && SiblingMeta(from) in t && SiblingMeta(to) !in t && CanRename(t, from, to)
    requires !Inside(SiblingMeta(to), SiblingMeta(from))
    ensures CanRename(Moved(t, SiblingMeta(from), SiblingMeta(to)), from, to)
  {
    var fm, tm := SiblingMeta(from), SiblingMeta(to);
    SiblingsApart(t, from, to);
    MovedAt(t, fm, tm, from);
    MovedAt(t, fm, tm, to);
    MovedAt(t, fm, tm, Parent(to));
    InsideParent(to, fm);
    InsideParent(to, tm);
  }

  /** Nothing has the new name, and nothing has the name of its sidecar.  (A file `x.meta` without a sidecar of its own
      that is renamed to `x` also qualifies: it is the one holding the sidecar's name.) */
  predicate RelocatesCleanly(t: Tree, from: Path, to: Path)
    requires from != [] && to != []
  {
    to !in t && (SiblingMeta(to) !in t || (SiblingMeta(to) == from && SiblingMeta(from) !in t))
  }

  /** Moving with its sidecar and undoing gives back the tree exactly when the move was a clean one. */
  lemma RelocateRoundTrip(t: Tree, from: Path, to: Path)
    requires Closed(t) && from != [] && to != [] && from != to
    requires RelocatePair(t, from, to).ok
    ensures RelocatePair(RelocatePair(t, from, to).tree, to, from) == Ran(true, t) <==> RelocatesCleanly(t, from, to)
  {
    if RelocatesCleanly(t, from, to) {
      if SiblingMeta(from) in t {
        RelocateBackWithMeta(t, from, to);
      } else {
        RelocateBackAlone(t, from, to);
      }
    }
    if RelocatePair(RelocatePair(t, from, to).tree, to, from) == Ran(true, t) {
      RelocateWasClean(t, from, to);
    }
  }

  /** Where a successful move of a pair leaves things. */
  lemma PairLeaves(t: Tree, from: Path, to: Path)
    requires Closed(t) && from != [] && to != [] && from != to
    requires RelocatePair(t, from, to).ok
    ensures var u := RelocatePair(t, from, to).tree;
            && Closed(u)
            && (from in u ==> SiblingMeta(to) == from && SiblingMeta(from) in t)
            && (SiblingMeta(from) in t ==> SiblingMeta(from) !in u && SiblingMeta(to) in u)
            && (SiblingMeta(from) !in t ==> u == Moved(t, from, to))
  {
    hide Closed, Moved;
    var fm, tm := SiblingMeta(from), SiblingMeta(to);
    var t1 := Moved(t, from, to);
    RenamedAway(t, from, to);
    MovedClosed(t, from, to);
    if fm in t {
      if fm == tm {
        SiblingMetaInjective(from, to);
      }
      MovedClosed(t1, fm, tm);
      RenamedAway(t1, fm, tm);
      MovedAt(t1, fm, tm, from);
      if from in Moved(t1, fm, tm) {
        assert Inside(from, tm);
        if from != tm {
          SiblingMetaApart(from, tm);
          assert false;
        }
      }
    }
  }

  lemma RelocateWasClean(t: Tree, from: Path, to: Path)
    requires Closed(t) && from != [] && to != [] && from != to
    requires RelocatePair(t, from, to).ok
    requires RelocatePair(RelocatePair(t, from, to).tree, to, from) == Ran(true, t)
    ensures RelocatesCleanly(t, from, to)
  {
    var fm, tm := SiblingMeta(from), SiblingMeta(to);
    var u := RelocatePair(t, from, to).tree;
    PairLeaves(t, from, to);
    PairLeaves(u, to, from);
    if to in t {
      assert false;
    }
    if tm in t {
      assert tm !in u;
      assert fm !in t;
      MovedAt(t, from, to, tm);
      SiblingMetaApart(to, to);
      assert Inside(tm, from);
      SiblingMetaApart(to, from);
      InsideParent(to, from);
      RenamedAway(t, from, to);
    }
  }

  // Valid.

  lemma DeleteValid(e: Edit, t: Tree, g: Path -> Guid, guidOf: GuidReader)
    requires Closed(t) && e.kind == Delete && WellMade(e) && Apply(e, t, g).ok
    requires Recorded(e, t, Apply(e, t, g).tree, guidOf)
    ensures Matches(e, Apply(e, t, g).tree, guidOf)
    ensures Matches(e.(applied := false), t, guidOf)
  {
    MetasMatchCollected(t, e.from, e.metas, guidOf);
    assert Inside(e.from, e.from);
    forall i | 0 <= i < |e.metas|
      ensures MetaFile(e.from, e.metas[i]) !in Deleted(t, e.from)
    {
      assert RecordsMeta(t, e.from, e.metas[i], guidOf);
    }
    if t[e.from].Dir? {
      assert Reached(e.from, e.from);
      forall i | 0 <= i < |e.files|
        ensures FileMatches(t, e.from, e.files[i])
      {
        assert RecordsFile(t, e.from, e.from, e.files[i]);
      }
    }
  }

  lemma CreateValid(e: Edit, t: Tree, g: Path -> Guid, guidOf: GuidReader)
    requires Closed(t) && (e.kind == CreateFile || e.kind == CreateDir || e.kind == Copy) && WellMade(e)
    requires Apply(e, t, g).ok && e.to !in t
    requires Recorded(e, t, Apply(e, t, g).tree, guidOf)
    ensures Matches(e, Apply(e, t, g).tree, guidOf)
    ensures Matches(e.(applied := false), t, guidOf)
  {
    var w := Apply(e, t, g).tree;
    if e.kind != CreateDir {
      MetasMatchCollected(w, e.to, e.metas, guidOf);
    }
    if e.kind == CreateFile {
      WithMetasAt(t[e.to := File(e.bytes)], g, e.to);
    }
    if e.kind == Copy {
      CopyClosed(t, e.from, e.to);
      WithMetasAt(t + CopiedTree(t, e.from, e.to), g, e.to);
    }
  }

  lemma RelocateValid(e: Edit, t: Tree, g: Path -> Guid, guidOf: GuidReader)
    requires Closed(t) && e.kind == Relocate && WellMade(e) && Apply(e, t, g).ok
    requires RelocatesCleanly(t, e.from, e.to)
    requires Recorded(e, t, Apply(e, t, g).tree, guidOf)
    ensures Matches(e, Apply(e, t, g).tree, guidOf)
    ensures Matches(e.(applied := false), t, guidOf)
  {
    var from, to := e.from, e.to;
    var u := Apply(e, t, g).tree;
    PairLeaves(t, from, to);
    MetasMatchCollected(u, to, e.metas, guidOf);
    RelocateRoundTrip(t, from, to);
    assert to in u;
    forall i | 0 <= i < |e.metas|
      ensures MetaMatches(t, MetaFile(from, e.metas[i]), e.metas[i], guidOf)
    {
      assert RecordsMeta(u, to, e.metas[i], guidOf);
      MetaMovedFrom(t, from, to, e.metas[i]);
    }
  }

  /** A sidecar recorded at the new place had the same bytes at the matching old place. */
  lemma MetaMovedFrom(t: Tree, from: Path, to: Path, m: MetaExpect)
    requires Closed(t) && from != [] && to != [] && from != to && RelocatePair(t, from, to).ok
    requires RelocatesCleanly(t, from, to)
    requires IsSidecarOf(RelocatePair(t, from, to).tree, to, MetaFile(to, m))
    requires m.sibling <==> MetaFile(to, m) == SiblingMeta(to)
    ensures IsFile(t, MetaFile(from, m)) && t[MetaFile(from, m)] == RelocatePair(t, from, to).tree[MetaFile(to, m)]
  {
    var fm, tm := SiblingMeta(from), SiblingMeta(to);
    var t1 := Moved(t, from, to);
    var p := MetaFile(to, m);
    SiblingMetaApart(to, to);
    SiblingMetaApart(from, from);
    MovedAt(t, from, to, p);
    if fm in t {
      MovedAt(t1, fm, tm, p);
      if m.sibling {
        assert Rebase(tm, tm, fm) == fm;
        MovedAt(t, from, to, fm);
        SiblingsApartAfter(t, from, to);
      } else {
        assert Rebase(p, to, from) == MetaFile(from, m);
        SiblingsApartAfter(t, from, to);
        ApartInside(p, to, tm);
      }
    } else if m.sibling {
      RenamedAway(t, from, to);
      assert false;
    } else {
      assert Rebase(p, to, from) == MetaFile(from, m);
    }
  }

  lemma SiblingsApartAfter(t: Tree, from: Path, to: Path)
    requires Closed(t) && from != [] && to != [] && from != to && RelocatePair(t, from, to).ok
    requires RelocatesCleanly(t, from, to) && SiblingMeta(from) in t
    ensures var fm, tm := SiblingMeta(from), SiblingMeta(to);
            AllApart(from, to, fm, tm)
  {
    if SiblingMeta(from) == SiblingMeta(to) {
      SiblingMetaInjective(from, to);
    }
    SiblingsApart(t, from, to);
  }
}
