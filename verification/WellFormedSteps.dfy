/** Exactly when a step keeps the tree well formed, by a test on the tree before it. */
module WellFormedSteps {
  import opened FileTree
  import opened Sidecars
  import opened ProjectEdit
  import opened EditRoundTrip
  import opened EditTheorems

  /** What moves with `from` and will be an asset without a sidecar: a file without one, in a place where it needs
      one. */
  predicate LeftBareByMove(t: Tree, from: Path, to: Path, p: Path) {
    IsFile(t, p) && p != [] && Inside(p, from) &&
    var q := Rebase(p, from, to);
    q != [] && Inside(q, ASSETS) && q != ASSETS && !IsMetaName(Leaf(q)) && !Skippable(Leaf(q)) && SiblingMeta(p) !in t
  }

  /** What a copy named `assets` leaves without a sidecar: every asset below the folder, for no sidecar is copied. */
  predicate LeftBareByCopy(t: Tree, from: Path, p: Path) {
    IsFile(t, p) && Inside(p, from) && p != from && p != [] && !IsMetaName(Leaf(p)) && !Skippable(Leaf(p))
  }

  /** The step leaves the file at `p`, or its copy, without the sidecar it needs. */
  predicate LeftBare(e: Edit, t: Tree, p: Path) {
    match e.kind
    case Relocate => LeftBareByMove(t, e.from, e.to, p)
    case Copy => e.to == ASSETS && LeftBareByCopy(t, e.from, p)
    case _ => false
  }

  // A move.

  ghost predicate Moves(t: Tree, from: Path, to: Path) {
    WellFormed(t) && PlainName(from) && PlainName(to) && from != to && to !in t && RelocatePair(t, from, to).ok
  }

  lemma SidecarFree(t: Tree, from: Path, to: Path)
    requires Moves(t, from, to)
    ensures SiblingMeta(to) !in t && (SiblingMeta(from) in t ==> IsFile(t, SiblingMeta(from)))
    ensures CanRename(t, from, to)
  {
    SourceOfSibling(to);
    SourceOfSibling(from);
    assert SiblingMeta(to) in t ==> PairedAt(t, SiblingMeta(to));
    assert SiblingMeta(from) in t ==> PairedAt(t, SiblingMeta(from));
  }

  /** What is at `q` after the pair has moved, sidecars of the pair aside. */
  lemma PairAt(t: Tree, from: Path, to: Path, q: Path)
    requires Moves(t, from, to) && !Inside(q, SiblingMeta(to)) && q != SiblingMeta(from)
    ensures var u := RelocatePair(t, from, to).tree;
      if Inside(q, to) then (q in u <==> Rebase(q, to, from) in t) && (q in u ==> u[q] == t[Rebase(q, to, from)])
      else (q in u <==> q in t && !Inside(q, from)) && (q in u ==> u[q] == t[q])
  {
    var fm, tm := SiblingMeta(from), SiblingMeta(to);
    var t1 := Moved(t, from, to);
    SidecarFree(t, from, to);
    MovedAt(t, from, to, q);
    if fm in t {
      MovedAt(t1, fm, tm, q);
      MovedClosed(t, from, to);
      SiblingMetaApart(from, from);
      MovedAt(t, from, to, fm);
      if Inside(fm, to) {
        assert false;
      }
      assert Inside(q, fm) && q in t1 ==> q == fm;
    }
  }

  lemma PairMeta(t: Tree, from: Path, to: Path)
    requires Moves(t, from, to)
    ensures SiblingMeta(to) in RelocatePair(t, from, to).tree <==> SiblingMeta(from) in t
  {
    var fm, tm := SiblingMeta(from), SiblingMeta(to);
    var t1 := Moved(t, from, to);
    SidecarFree(t, from, to);
    SiblingMetaApart(to, to);
    MovedAt(t, from, to, tm);
    if fm in t {
      MovedClosed(t, from, to);
      if fm == tm {
        SiblingMetaInjective(from, to);
      }
      RenamedAway(t1, fm, tm);
    }
  }

  /** A sidecar goes where its file goes. */
  lemma SidecarGoes(t: Tree, from: Path, to: Path, q: Path)
    requires Moves(t, from, to) && Inside(q, to) && q != []
    ensures Rebase(q, to, from) != []
    ensures SiblingMeta(q) in RelocatePair(t, from, to).tree <==> SiblingMeta(Rebase(q, to, from)) in t
  {
    if q == to {
      assert Rebase(q, to, from) == from;
      PairMeta(t, from, to);
    } else {
      SidecarGoesBelow(t, from, to, q);
    }
  }

  lemma RebaseSibling(q: Path, a: Path, b: Path)
    requires Inside(q, a) && q != a
    ensures q != [] && Rebase(q, a, b) != [] && Leaf(Rebase(q, a, b)) == Leaf(q)
    ensures Inside(SiblingMeta(q), a) && SiblingMeta(q) != a
    ensures Rebase(SiblingMeta(q), a, b) == SiblingMeta(Rebase(q, a, b))
  {
    var m := SiblingMeta(q);
    RebaseParent(q, a, b);
    InsideParent(q, a);
    InsideParent(m, a);
    assert |m| == |q| > |a|;
    RebaseParent(m, a, b);
    var x, y := Rebase(m, a, b), SiblingMeta(Rebase(q, a, b));
    assert x == Parent(x) + [Leaf(x)] && y == Parent(y) + [Leaf(y)];
  }

  lemma SidecarGoesBelow(t: Tree, from: Path, to: Path, q: Path)
    requires Moves(t, from, to) && Inside(q, to) && q != to
    ensures q != [] && Rebase(q, to, from) != []
    ensures SiblingMeta(q) in RelocatePair(t, from, to).tree <==> SiblingMeta(Rebase(q, to, from)) in t
  {
    var m := SiblingMeta(q);
    RebaseSibling(q, to, from);
    SiblingMetaApart(to, to);
    if Inside(m, SiblingMeta(to)) {
      InsideBoth(m, to, SiblingMeta(to));
      assert false;
    }
    SidecarFree(t, from, to);
    if m == SiblingMeta(from) {
      InsideParent(m, to);
      InsideParent(from, to);
      assert false;
    }
    PairAt(t, from, to, m);
  }

  lemma BareMoved(t: Tree, from: Path, to: Path, p: Path)
    requires Moves(t, from, to) && LeftBareByMove(t, from, to, p)
    ensures LacksSidecar(RelocatePair(t, from, to).tree, Rebase(p, from, to))
  {
    var u, q := RelocatePair(t, from, to).tree, Rebase(p, from, to);
    RebaseInverse(p, from, to);
    SidecarGoes(t, from, to, q);
    MovedOnto(t, from, to, q);
    PairLeaves(t, from, to);
    assert IsDir(u, ASSETS);
  }

  /** A file at or below the new name is not at or below the name of its sidecar, nor at the old sidecar's. */
  lemma MovedOnto(t: Tree, from: Path, to: Path, q: Path)
    requires Moves(t, from, to) && Inside(q, to)
    ensures var u := RelocatePair(t, from, to).tree;
      (q in u <==> Rebase(q, to, from) in t) && (q in u ==> u[q] == t[Rebase(q, to, from)])
  {
    SiblingMetaApart(to, to);
    SidecarFree(t, from, to);
    if Inside(q, SiblingMeta(to)) {
      InsideBoth(q, to, SiblingMeta(to));
      assert false;
    }
    if q == SiblingMeta(from) {
      SiblingMetaApart(from, to);
      if q == to {
        SourceOfSibling(from);
        assert false;
      }
      InsideParent(q, to);
      InsideParent(from, to);
      assert false;
    }
    PairAt(t, from, to, q);
  }

  lemma BareWasMoved(t: Tree, from: Path, to: Path, q: Path)
    requires Moves(t, from, to) && LacksSidecar(RelocatePair(t, from, to).tree, q)
    ensures Inside(q, to) && LeftBareByMove(t, from, to, Rebase(q, to, from))
  {
    var u := RelocatePair(t, from, to).tree;
    SourceOfSibling(to);
    PairLeaves(t, from, to);
    if Inside(q, SiblingMeta(to)) {
      TopIsSidecar(t, from, to, q);
      assert false;
    }
    if Inside(q, to) {
      RebaseInverse(q, to, from);
      MovedOnto(t, from, to, q);
      SidecarGoes(t, from, to, q);
    } else {
      StayedCovered(t, from, to, q);
    }
  }

  lemma TopIsSidecar(t: Tree, from: Path, to: Path, q: Path)
    requires Moves(t, from, to) && Inside(q, SiblingMeta(to)) && q in RelocatePair(t, from, to).tree
    ensures q == SiblingMeta(to)
  {
    PairLeaves(t, from, to);
    SourceOfSibling(to);
    RelocatePaired(t, from, to, SiblingMeta(to));
  }

  lemma StayedCovered(t: Tree, from: Path, to: Path, q: Path)
    requires Moves(t, from, to) && !Inside(q, to) && !Inside(q, SiblingMeta(to))
    ensures !LacksSidecar(RelocatePair(t, from, to).tree, q)
  {
    if LacksSidecar(RelocatePair(t, from, to).tree, q) {
      var m := SiblingMeta(q);
      SidecarFree(t, from, to);
      SourceOfSibling(q);
      SourceOfSibling(from);
      SourceOfSibling(to);
      PairAt(t, from, to, q);
      NoneMissing(t, q);
      assert m in t;
      if m == SiblingMeta(from) {
        SiblingMetaInjective(q, from);
      }
      SiblingMetaApart(q, from);
      SiblingMetaApart(q, to);
      PairAt(t, from, to, m);
    }
  }

  /** A move keeps a well-formed tree well formed exactly when it leaves no moved file bare. */
  lemma MoveKeepsWellFormed(t: Tree, from: Path, to: Path)
    requires Moves(t, from, to)
    ensures Missing(RelocatePair(t, from, to).tree) == {} <==> forall p | p in t :: !LeftBareByMove(t, from, to, p)
  {
    var u := RelocatePair(t, from, to).tree;
    if p :| p in t && LeftBareByMove(t, from, to, p) {
      BareMoved(t, from, to, p);
      assert Rebase(p, from, to) in Missing(u);
    }
    if q :| q in Missing(u) {
      BareWasMoved(t, from, to, q);
      assert Rebase(q, to, from) in t;
    }
  }

  // A copy named `assets`.

  lemma CopyKeepsWellFormed(t: Tree, from: Path)
    requires WellFormed(t) && PlainName(from) && ASSETS !in t && CanCopy(t, from, ASSETS)
    ensures Missing(t + CopiedTree(t, from, ASSETS)) == {} <==> forall p | p in t :: !LeftBareByCopy(t, from, p)
  {
    var u := t + CopiedTree(t, from, ASSETS);
    if p :| p in t && LeftBareByCopy(t, from, p) {
      BareCopied(t, from, p);
      assert Rebase(p, from, ASSETS) in Missing(u);
    }
    if q :| q in Missing(u) {
      BareWasCopied(t, from, q);
      assert Rebase(q, ASSETS, from) in t;
    }
  }

  lemma BareCopied(t: Tree, from: Path, p: Path)
    requires WellFormed(t) && PlainName(from) && ASSETS !in t && CanCopy(t, from, ASSETS) && LeftBareByCopy(t, from, p)
    ensures LacksSidecar(t + CopiedTree(t, from, ASSETS), Rebase(p, from, ASSETS))
  {
    var q := Rebase(p, from, ASSETS);
    RebaseInverse(p, from, ASSETS);
    RebaseSibling(p, from, ASSETS);
    ReachedFile(t, from, p);
    CopiedAt(t, from, ASSETS, q);
    CopiedAt(t, from, ASSETS, SiblingMeta(q));
    CopiedAt(t, from, ASSETS, ASSETS);
    assert Rebase(ASSETS, ASSETS, from) == from;
    SidecarNotCopied(t, from, p);
  }

  /** In a well-formed tree every plain file below a folder is reached by a copy. */
  lemma ReachedFile(t: Tree, from: Path, p: Path)
    requires WellFormed(t) && p in t && Inside(p, from) && p != from && !IsMetaName(Leaf(p)) && PlainName(from)
    ensures Reached(from, p) && IsDir(t, from)
  {
    forall i | |from| <= i < |p|
      ensures !IsMetaName(p[i])
    {
      if i < |p| - 1 {
        var m := p[..i + 1];
        assert Inside(p, m) && Leaf(m) == p[i] && m != p;
        assert PairedAt(t, m);
      }
    }
  }

  lemma SidecarNotCopied(t: Tree, from: Path, p: Path)
    requires p != [] && Inside(p, from) && p != from && Leaf(p) != ""
    ensures !Reached(from, SiblingMeta(p))
  {
    var m := SiblingMeta(p);
    SourceOfSibling(p);
    assert m[|m| - 1] == Leaf(m);
  }

  lemma BareWasCopied(t: Tree, from: Path, q: Path)
    requires WellFormed(t) && PlainName(from) && ASSETS !in t && CanCopy(t, from, ASSETS)
    requires LacksSidecar(t + CopiedTree(t, from, ASSETS), q)
    ensures Inside(q, ASSETS) && q != ASSETS && LeftBareByCopy(t, from, Rebase(q, ASSETS, from))
  {
    CopiedAt(t, from, ASSETS, q);
    RebaseParent(q, ASSETS, from);
    RebaseInverse(q, ASSETS, from);
    if q in t {
      assert false;
    }
  }

  // All five kinds.

  /** On a well-formed tree, a step that succeeds on plain, free names keeps the tree well formed exactly when it leaves
      no file bare, which only a move and a copy named `assets` can. */
  lemma ApplyKeepsWellFormed(e: Edit, t: Tree, g: Path -> Guid)
    requires WellFormed(t) && WellMade(e) && Plain(e) && Apply(e, t, g).ok
    requires e.kind != Delete ==> e.to !in t
    ensures WellFormed(Apply(e, t, g).tree) <==> forall p | p in t :: !LeftBare(e, t, p)
  {
    WellFormedWhenCovered(e, t, g);
    if e.kind == Relocate {
      MoveKeepsWellFormed(t, e.from, e.to);
    } else if e.kind == Copy && e.to == ASSETS {
      CopyKeepsWellFormed(t, e.from);
    }
  }

  /** Each file left bare is one that the next look for missing sidecars finds. */
  lemma RelocateCanUnsync(t: Tree, from: Path, to: Path, p: Path)
    requires WellFormed(t) && PlainName(from) && PlainName(to) && from != to && to !in t && RelocatePair(t, from, to).ok
    requires LeftBareByMove(t, from, to, p)
    ensures Rebase(p, from, to) in Missing(RelocatePair(t, from, to).tree)
  {
    BareMoved(t, from, to, p);
  }
}
