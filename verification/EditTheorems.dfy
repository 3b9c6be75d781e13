/** The five kinds together: undo is exact, steps stay valid, and redo differs only in generated GUIDs. */
module EditTheorems {
  import opened FileTree
  import opened Sidecars
  import opened ProjectEdit
  import opened Restore
  import opened EditRoundTrip

  /** When undoing the step will give back the tree it starts from. */
  ghost predicate Reversible(e: Edit, t: Tree)
    requires WellMade(e)
  {
    match e.kind
    case Delete => e.from in t && forall p | p in t :: Recoverable(t, e.from, p)
    case CreateDir => e.to !in t
    case CreateFile => CreatesCleanly(t, t[e.to := File(e.bytes)], e.to, SyncsAfterCreate(e.to))
    case Copy => CreatesCleanly(t, t + CopiedTree(t, e.from, e.to), e.to, SyncsAfterCopy(e.to))
    case Relocate => RelocatesCleanly(t, e.from, e.to)
  }

  /** A successful `apply` followed by `revert` gives back the starting tree, every path and every byte, exactly when
      the step was reversible there. */
  lemma RoundTrip(e: Edit, t: Tree, g: Path -> Guid, guidOf: GuidReader)
    requires Closed(t) && WellMade(e) && Apply(e, t, g).ok && Recorded(e, t, Apply(e, t, g).tree, guidOf)
    ensures Revert(e, Apply(e, t, g).tree, guidOf) == Ran(true, t) <==> Reversible(e, t)
  {
    match e.kind
    case Delete => DeleteRoundTrip(e, t, g, guidOf);
    case CreateDir => CreateDirRoundTrip(e, t, g, guidOf);
    case CreateFile => CreateFileRoundTrip(e, t, g, guidOf);
    case Copy => CopyRoundTrip(e, t, g, guidOf);
    case Relocate => RelocateRoundTrip(t, e.from, e.to);
  }

  /** A reversible step is valid in the tree its `apply` just left and in the tree its `revert` just left. */
  lemma ValidAfterApplyAndRevert(e: Edit, t: Tree, g: Path -> Guid, guidOf: GuidReader)
    requires Closed(t) && WellMade(e) && Apply(e, t, g).ok && Recorded(e, t, Apply(e, t, g).tree, guidOf)
    requires Reversible(e, t)
    ensures Matches(e, Apply(e, t, g).tree, guidOf)
    ensures Matches(e.(applied := false), Revert(e, Apply(e, t, g).tree, guidOf).tree, guidOf)
  {
    RoundTrip(e, t, g, guidOf);
    match e.kind
    case Delete => DeleteValid(e, t, g, guidOf);
    case Relocate => RelocateValid(e, t, g, guidOf);
    case _ => CreateValid(e, t, g, guidOf);
  }

  lemma ApplyClosed(e: Edit, t: Tree, g: Path -> Guid)
    requires Closed(t) && WellMade(e) && Apply(e, t, g).ok
    ensures Closed(Apply(e, t, g).tree)
  {
    match e.kind
    case Delete =>
      SiblingMetaApart(e.from, e.from);
      assert !Inside([], e.from);
      forall p, d | p in Deleted(t, e.from) && Inside(p, d) && d != p
        ensures d in Deleted(t, e.from) && t[d] == Dir
      {
        if Inside(d, e.from) {
          InsideTransitive(p, d, e.from);
        }
      }
    case CreateDir => WrittenClosed(t, e.to, Dir);
    case CreateFile =>
      WrittenClosed(t, e.to, File(e.bytes));
      WithMetasClosed(t[e.to := File(e.bytes)], g);
    case Copy =>
      CopyClosed(t, e.from, e.to);
      WithMetasClosed(t + CopiedTree(t, e.from, e.to), g);
    case Relocate => PairLeaves(t, e.from, e.to);
  }

  // Well-formed trees.

  /** A name that ends in `.meta` is a file with text, and beside it is its source, which is not a sidecar itself. */
  predicate PairedAt(t: Tree, p: Path) {
    p in t && p != [] && IsMetaName(Leaf(p)) ==>
      && t[p].File? && t[p].bytes != ""
      && SourceOf(p) in t && !IsMetaName(Leaf(SourceOf(p)))
  }

  /** Every sidecar has text and its source beside it, and every asset file has its sidecar. */
  ghost predicate WellFormed(t: Tree) {
    && Closed(t)
    && (forall p | p in t :: PairedAt(t, p))
    && Missing(t) == {}
  }

  predicate PlainName(p: Path) {
    p != [] && Leaf(p) != "" && !IsMetaName(Leaf(p))
  }

  /** The names an edit works on are not sidecar names. */
  predicate Plain(e: Edit) {
    match e.kind
    case Delete => PlainName(e.from)
    case CreateDir => PlainName(e.to)
    case CreateFile => PlainName(e.to)
    case _ => PlainName(e.from) && PlainName(e.to)
  }

  lemma WellFormedRecoverable(t: Tree, root: Path, p: Path)
    requires WellFormed(t) && PlainName(root) && p in t
    ensures Recoverable(t, root, p)
  {
    var sib := SiblingMeta(root);
    SourceOfSibling(root);
    if Inside(p, root) && !Reached(root, p) {
      var i :| |root| <= i < |p| && IsMetaName(p[i]);
      var m := p[..i + 1];
      assert Inside(p, m) && Leaf(m) == p[i];
      assert m in t && t[m].File?;
      assert m == p && Inside(p, p);
      assert MetaWithText(t, root, p);
    }
  }

  lemma NoneMissing(t: Tree, p: Path)
    requires Missing(t) == {} && p in t
    ensures !LacksSidecar(t, p)
  {
    assert p in Missing(t) <==> LacksSidecar(t, p);
  }

  lemma WellFormedClean(t: Tree, u: Tree, to: Path, syncs: bool)
    requires WellFormed(t) && PlainName(to) && to !in t && to in u
    requires forall p | p !in t :: p in u ==> Inside(p, to)
    requires forall p | p in t :: p in u && (!Inside(p, to) ==> u[p] == t[p])
    ensures CreatesCleanly(t, u, to, syncs)
  {
    SourceOfSibling(to);
    assert SiblingMeta(to) !in t;
    forall p | p in Missing(u)
      ensures Inside(p, to)
    {
      if !Inside(p, to) {
        assert p in t;
        if Inside(ASSETS, to) {
          assert false;
        }
        NoneMissing(t, p);
        assert false;
      }
    }
  }

  /** On a well-formed tree every step that succeeds on plain names, and whose factory found the new name free, is
      reversible. */
  lemma WellFormedReversible(e: Edit, t: Tree, g: Path -> Guid)
    requires WellFormed(t) && WellMade(e) && Plain(e) && Apply(e, t, g).ok
    requires e.kind != Delete ==> e.to !in t
    ensures Reversible(e, t)
  {
    match e.kind
    case Delete =>
      forall p | p in t
        ensures Recoverable(t, e.from, p)
      {
        WellFormedRecoverable(t, e.from, p);
      }
    case CreateDir =>
    case CreateFile =>
      assert Inside(e.to, e.to);
      WellFormedClean(t, t[e.to := File(e.bytes)], e.to, SyncsAfterCreate(e.to));
    case Copy =>
      CopyClosed(t, e.from, e.to);
      forall p
        ensures p in CopiedTree(t, e.from, e.to) ==> Inside(p, e.to)
      {
        CopiedAt(t, e.from, e.to, p);
      }
      WellFormedClean(t, t + CopiedTree(t, e.from, e.to), e.to, SyncsAfterCopy(e.to));
    case Relocate =>
      SourceOfSibling(e.to);
  }

  /** So on a well-formed tree undo is exact. */
  lemma UndoIsExact(e: Edit, t: Tree, g: Path -> Guid, guidOf: GuidReader)
    requires WellFormed(t) && WellMade(e) && Plain(e) && Apply(e, t, g).ok
    requires e.kind != Delete ==> e.to !in t
    requires Recorded(e, t, Apply(e, t, g).tree, guidOf)
    ensures Revert(e, Apply(e, t, g).tree, guidOf) == Ran(true, t)
  {
    WellFormedReversible(e, t, g);
    RoundTrip(e, t, g, guidOf);
  }

  /** A sidecar's source moves, stays or goes with it. */
  lemma SourceBeside(p: Path, d: Path)
    requires p != [] && IsMetaName(Leaf(p)) && d != []
    ensures Parent(SourceOf(p)) == Parent(p)
    ensures Inside(SourceOf(p), d) && SourceOf(p) != d ==> Inside(p, d) && p != d
    ensures Inside(p, d) && p != d ==> Inside(SourceOf(p), d)
    ensures SourceOf(p) == d ==> p == SiblingMeta(d)
  {
    InsideParent(SourceOf(p), d);
    InsideParent(p, d);
    SourceOfSibling(SourceOf(p));
  }

  lemma DeletedPaired(t: Tree, from: Path, p: Path)
    requires WellFormed(t) && PlainName(from) && p in Deleted(t, from)
    ensures PairedAt(Deleted(t, from), p)
  {
    if p != [] && IsMetaName(Leaf(p)) {
      assert PairedAt(t, p);
      SourceBeside(p, from);
      SourceOfSibling(from);
    }
  }

  lemma MovedPaired(t: Tree, from: Path, to: Path, p: Path)
    requires Closed(t) && PlainName(from) && PlainName(to) && from != to && to !in t && CanRename(t, from, to)
    requires forall q | q in t :: PairedAt(t, q)
    requires p in Moved(t, from, to) && p != SiblingMeta(from)
    ensures PairedAt(Moved(t, from, to), p)
  {
    if p != [] && IsMetaName(Leaf(p)) {
      MovedAt(t, from, to, p);
      var s := SourceOf(p);
      MovedAt(t, from, to, s);
      if Inside(p, to) {
        var q := Rebase(p, to, from);
        RebaseParent(p, to, from);
        RebaseInverse(p, to, from);
        assert PairedAt(t, q);
        SourceBeside(p, to);
        SourceBeside(q, from);
        RebaseSource(p, to, from);
      } else {
        assert PairedAt(t, p);
        SourceBeside(p, from);
        SourceBeside(p, to);
      }
    }
  }

  lemma RebaseSource(p: Path, a: Path, b: Path)
    requires p != [] && IsMetaName(Leaf(p)) && Inside(p, a) && p != a && a != [] && b != []
    ensures Inside(SourceOf(p), a)
    ensures Rebase(p, a, b) != [] && Leaf(Rebase(p, a, b)) == Leaf(p)
    ensures Rebase(SourceOf(p), a, b) == SourceOf(Rebase(p, a, b))
  {
    SourceBeside(p, a);
    RebaseParent(p, a, b);
    var s := SourceOf(p);
    if s == a {
      assert false;
    }
    RebaseParent(s, a, b);
    var x, y := Rebase(s, a, b), SourceOf(Rebase(p, a, b));
    assert x == Parent(x) + [Leaf(x)] && y == Parent(y) + [Leaf(y)];
  }

  /** Whether every asset file has its sidecar is the only thing a step can upset. */
  lemma ApplyKeepsPairs(e: Edit, t: Tree, g: Path -> Guid, p: Path)
    requires WellFormed(t) && WellMade(e) && Plain(e) && Apply(e, t, g).ok
    requires e.kind != Delete ==> e.to !in t
    requires p in Apply(e, t, g).tree
    ensures PairedAt(Apply(e, t, g).tree, p)
  {
    match e.kind
    case Delete => DeletedPaired(t, e.from, p);
    case CreateDir => assert p in t ==> PairedAt(t, p);
    case CreateFile =>
      var u := t[e.to := File(e.bytes)];
      assert p in t ==> PairedAt(t, p);
      WithMetasPaired(u, g, p);
    case Copy =>
      var u := t + CopiedTree(t, e.from, e.to);
      CopyPaired(t, e.from, e.to, p);
      WithMetasPaired(u, g, p);
    case Relocate => RelocatePaired(t, e.from, e.to, p);
  }

  lemma WithMetasPaired(u: Tree, g: Path -> Guid, p: Path)
    requires p in u ==> PairedAt(u, p)
    ensures p in WithMetas(u, g) ==> PairedAt(WithMetas(u, g), p)
  {
    if p in WithMetas(u, g) {
      WithMetasAt(u, g, p);
      if p in u {
        if p != [] && IsMetaName(Leaf(p)) {
          WithMetasAt(u, g, SourceOf(p));
        }
      } else {
        MissingMetasAt(u, p);
        WithMetasAt(u, g, SourceOf(p));
        assert |MetaText(g(SourceOf(p)), Leaf(SourceOf(p)))| > 0;
      }
    }
  }

  lemma CopyPaired(t: Tree, from: Path, to: Path, p: Path)
    requires WellFormed(t) && PlainName(from) && PlainName(to) && to !in t
    ensures p in t + CopiedTree(t, from, to) ==> PairedAt(t + CopiedTree(t, from, to), p)
  {
    CopiedAt(t, from, to, p);
    if p in CopiedTree(t, from, to) {
      var q := Rebase(p, to, from);
      if p != to {
        RebaseParent(p, to, from);
        assert Leaf(q) == q[|q| - 1];
      }
    } else if p in t {
      assert PairedAt(t, p);
    }
  }

  /** A moved sidecar is a sidecar still. */
  lemma RelocatedMetaPaired(t: Tree, fm: Path, tm: Path, to: Path, p: Path)
    requires Closed(t) && fm != [] && IsFile(t, fm) && t[fm].bytes != ""
    requires tm != [] && IsMetaName(Leaf(tm)) && SourceOf(tm) == to && to != [] && !IsMetaName(Leaf(to))
    requires to in t && !Inside(to, fm) && !Inside(to, tm)
    requires p in Moved(t, fm, tm) && Inside(p, tm)
    ensures PairedAt(Moved(t, fm, tm), p)
  {
    MovedAt(t, fm, tm, p);
    MovedAt(t, fm, tm, to);
    var q := Rebase(p, tm, fm);
    if q != fm {
      assert false;
    }
    RebaseInverse(p, tm, fm);
    assert p == Rebase(fm, fm, tm) == tm;
  }

  lemma OthersStayPaired(t: Tree, fm: Path, tm: Path, p: Path)
    requires fm != [] && tm != [] && IsMetaName(Leaf(fm)) && IsMetaName(Leaf(tm)) && PairedAt(t, p)
    requires p in Moved(t, fm, tm) && !Inside(p, tm)
    requires Closed(t) && IsFile(t, fm) && tm !in t
    ensures PairedAt(Moved(t, fm, tm), p)
  {
    MovedAt(t, fm, tm, p);
    if p != [] && IsMetaName(Leaf(p)) {
      MovedAt(t, fm, tm, SourceOf(p));
      SourceBeside(p, tm);
    }
  }

  lemma RelocatePaired(t: Tree, from: Path, to: Path, p: Path)
    requires WellFormed(t) && PlainName(from) && PlainName(to) && from != to && to !in t
    requires RelocatePair(t, from, to).ok && p in RelocatePair(t, from, to).tree
    ensures PairedAt(RelocatePair(t, from, to).tree, p)
  {
    hide PairedAt;
    SourceOfSibling(from);
    if SiblingMeta(from) !in t {
      RenamedAway(t, from, to);
      MovedAt(t, from, to, SiblingMeta(from));
      MovedPaired(t, from, to, p);
    } else {
      NoStrayMeta(t, to);
      SiblingsApartAfter(t, from, to);
      RelocatedBothPaired(t, from, to, p);
    }
  }

  /** A plain name that is free has no sidecar. */
  lemma NoStrayMeta(t: Tree, to: Path)
    requires WellFormed(t) && PlainName(to) && to !in t
    ensures SiblingMeta(to) !in t
  {
    SourceOfSibling(to);
    assert SiblingMeta(to) in t ==> PairedAt(t, SiblingMeta(to));
  }

  lemma RelocatedBothPaired(t: Tree, from: Path, to: Path, p: Path)
    requires WellFormed(t) && PlainName(from) && PlainName(to) && from != to && to !in t
    requires SiblingMeta(from) in t && RelocatePair(t, from, to).ok && p in RelocatePair(t, from, to).tree
    requires SiblingMeta(to) !in t && AllApart(from, to, SiblingMeta(from), SiblingMeta(to))
    ensures PairedAt(RelocatePair(t, from, to).tree, p)
  {
    hide Moved, Missing;
    var fm, tm := SiblingMeta(from), SiblingMeta(to);
    var t1 := Moved(t, from, to);
    SourceOfSibling(from);
    SourceOfSibling(to);
    assert PairedAt(t, fm);
    RenamedAway(t, from, to);
    MovedClosed(t, from, to);
    MovedAt(t, from, to, fm);
    MovedAt(t, from, to, tm);
    MovedAt(t1, fm, tm, p);
    if Inside(p, tm) {
      RelocatedMetaPaired(t1, fm, tm, to, p);
    } else {
      MovedPaired(t, from, to, p);
      OthersStayPaired(t1, fm, tm, p);
    }
  }

  /** A step that leaves no asset without a sidecar keeps the tree well formed; all but a move, and a copy named
      `assets`, write the sidecars that are missing. */
  lemma WellFormedWhenCovered(e: Edit, t: Tree, g: Path -> Guid)
    requires WellFormed(t) && WellMade(e) && Plain(e) && Apply(e, t, g).ok
    requires e.kind != Delete ==> e.to !in t
    ensures WellFormed(Apply(e, t, g).tree) <==> Missing(Apply(e, t, g).tree) == {}
    ensures e.kind != Relocate && !(e.kind == Copy && e.to == ASSETS) ==> WellFormed(Apply(e, t, g).tree)
  {
    var u := Apply(e, t, g).tree;
    ApplyClosed(e, t, g);
    forall p | p in u
      ensures PairedAt(u, p)
    {
      ApplyKeepsPairs(e, t, g, p);
    }
    if e.kind != Relocate && !(e.kind == Copy && e.to == ASSETS) {
      forall p | p in u
        ensures !LacksSidecar(u, p)
      {
        NoneMissingAfter(e, t, g, p);
      }
    }
  }

  lemma NoneMissingAfter(e: Edit, t: Tree, g: Path -> Guid, p: Path)
    requires WellFormed(t) && WellMade(e) && Plain(e) && Apply(e, t, g).ok
    requires e.kind != Delete ==> e.to !in t
    requires e.kind != Relocate && !(e.kind == Copy && e.to == ASSETS)
    requires p in Apply(e, t, g).tree
    ensures !LacksSidecar(Apply(e, t, g).tree, p)
  {
    var u := Apply(e, t, g).tree;
    if p in t {
      NoneMissing(t, p);
    }
    match e.kind
    case Delete => NoneMissingAfterDelete(e, t, g, p);
    case CreateDir =>
    case CreateFile =>
      if SyncsAfterCreate(e.to) {
        WithMetasNoneMissing(t[e.to := File(e.bytes)], g);
        NoneMissing(u, p);
      }
    case Copy =>
      var c := t + CopiedTree(t, e.from, e.to);
      if SyncsAfterCopy(e.to) {
        WithMetasNoneMissing(c, g);
        NoneMissing(u, p);
      } else {
        CopiedAt(t, e.from, e.to, p);
        CopiedAt(t, e.from, e.to, ASSETS);
        if Inside(p, e.to) && Inside(p, ASSETS) {
          assert false;
        }
        if Inside(ASSETS, e.to) {
          assert false;
        }
      }
  }

  lemma NoneMissingAfterDelete(e: Edit, t: Tree, g: Path -> Guid, p: Path)
    requires WellFormed(t) && WellMade(e) && Plain(e) && e.kind == Delete && Apply(e, t, g).ok
    requires p in Apply(e, t, g).tree
    ensures !LacksSidecar(Apply(e, t, g).tree, p)
  {
    NoneMissing(t, p);
    if LacksSidecar(Apply(e, t, g).tree, p) {
      SourceOfSibling(p);
      SiblingMetaApart(p, e.from);
      SourceOfSibling(e.from);
      InsideParent(p, e.from);
    }
  }

  // Redo: equal up to the GUIDs of generated sidecars.

  /** Two sidecar texts that differ at most in the GUID the engine wrote. */
  predicate Regenerated(x: string, y: string) {
    && |x| >= 40 && |y| >= 40
    && x[..8] == GUID_HEAD && y[..8] == GUID_HEAD
    && x[40..] == y[40..]
  }

  predicate NodeAlike(p: Path, m: Node, n: Node) {
    || m == n
    || (p != [] && IsMetaName(Leaf(p)) && m.File? && n.File? && Regenerated(m.bytes, n.bytes))
  }

  ghost predicate Alike(a: Tree, b: Tree) {
    a.Keys == b.Keys && forall p | p in a :: NodeAlike(p, a[p], b[p])
  }

  lemma AlikeTransitive(a: Tree, b: Tree, c: Tree)
    requires Alike(a, b) && Alike(b, c)
    ensures Alike(a, c)
  {
  }

  lemma AlikeSymmetric(a: Tree, b: Tree)
    requires Alike(a, b)
    ensures Alike(b, a)
  {
  }

  lemma AlikeClosed(a: Tree, b: Tree)
    requires Alike(a, b) && Closed(a)
    ensures Closed(b)
  {
    forall p, d | p in b && Inside(p, d) && d != p
      ensures d in b && b[d] == Dir
    {
      assert a[d] == Dir && NodeAlike(d, a[d], b[d]);
    }
  }

  lemma CanRenameAlike(a: Tree, b: Tree, from: Path, to: Path)
    requires Alike(a, b)
    ensures CanRename(a, from, to) <==> CanRename(b, from, to)
  {
    assert forall p | p in a :: NodeAlike(p, a[p], b[p]) && p in b;
  }

  lemma MovedAlike(a: Tree, b: Tree, from: Path, to: Path)
    requires Alike(a, b) && CanRename(a, from, to)
    requires a[from] == b[from] || IsMetaName(Leaf(to))
    ensures Alike(Moved(a, from, to), Moved(b, from, to))
  {
    var m, n := Moved(a, from, to), Moved(b, from, to);
    forall q
      ensures q in m <==> q in n
      ensures q in m ==> NodeAlike(q, m[q], n[q])
    {
      MovedAt(a, from, to, q);
      MovedAt(b, from, to, q);
      if Inside(q, to) && q in m {
        var p := Rebase(q, to, from);
        assert NodeAlike(p, a[p], b[p]);
        if q == to {
          assert p == from;
        } else {
          RebaseParent(q, to, from);
        }
      }
    }
    assert m.Keys == n.Keys;
  }

  lemma RelocateAlike(a: Tree, b: Tree, from: Path, to: Path)
    requires Closed(a) && Alike(a, b) && PlainName(from) && PlainName(to)
    ensures RelocatePair(a, from, to).ok <==> RelocatePair(b, from, to).ok
    ensures RelocatePair(a, from, to).ok ==> Alike(RelocatePair(a, from, to).tree, RelocatePair(b, from, to).tree)
  {
    CanRenameAlike(a, b, from, to);
    if CanRename(a, from, to) {
      assert NodeAlike(from, a[from], b[from]);
      MovedAlike(a, b, from, to);
      var fm, tm := SiblingMeta(from), SiblingMeta(to);
      if fm in a {
        var a1, b1 := Moved(a, from, to), Moved(b, from, to);
        CanRenameAlike(a1, b1, fm, tm);
        SourceOfSibling(to);
        if CanRename(a1, fm, tm) {
          MovedAlike(a1, b1, fm, tm);
        }
      }
    }
  }

  lemma MissingAlike(a: Tree, b: Tree)
    requires Alike(a, b)
    ensures Missing(a) == Missing(b) && MissingMetas(a) == MissingMetas(b)
  {
    forall p
      ensures LacksSidecar(a, p) <==> LacksSidecar(b, p)
    {
      if p in a {
        assert NodeAlike(p, a[p], b[p]);
      }
      if ASSETS in a {
        assert NodeAlike(ASSETS, a[ASSETS], b[ASSETS]);
      }
    }
    assert Missing(a) == Missing(b);
  }

  lemma WithMetasAlike(a: Tree, b: Tree, g: Path -> Guid, h: Path -> Guid)
    requires Alike(a, b)
    ensures Alike(WithMetas(a, g), WithMetas(b, h))
  {
    MissingAlike(a, b);
    var m, n := WithMetas(a, g), WithMetas(b, h);
    forall p
      ensures p in m <==> p in n
      ensures p in m ==> NodeAlike(p, m[p], n[p])
    {
      WithMetasAt(a, g, p);
      WithMetasAt(b, h, p);
      if p in a {
        assert NodeAlike(p, a[p], b[p]);
      } else if p in MissingMetas(a) {
        MissingMetasAt(a, p);
        var s := SourceOf(p);
        MetaTextAlike(g(s), h(s), Leaf(s));
      }
    }
    assert m.Keys == n.Keys;
  }

  lemma MetaTextAlike(g: Guid, h: Guid, name: Name)
    ensures Regenerated(MetaText(g, name), MetaText(h, name))
  {
    assert |GUID_HEAD| == 8;
    assert MetaText(g, name)[40..] == MetaTail(name) == MetaText(h, name)[40..];
    assert MetaText(g, name)[..8] == GUID_HEAD == MetaText(h, name)[..8];
  }

  lemma CopiedAlike(a: Tree, b: Tree, from: Path, to: Path)
    requires Alike(a, b) && PlainName(from)
    ensures CopiedTree(a, from, to) == CopiedTree(b, from, to)
    ensures CanCopy(a, from, to) <==> CanCopy(b, from, to)
  {
    forall q
      ensures SameAt(CopiedTree(a, from, to), CopiedTree(b, from, to), q)
    {
      CopiedAt(a, from, to, q);
      CopiedAt(b, from, to, q);
      if q in CopiedTree(a, from, to) {
        var p := Rebase(q, to, from);
        assert NodeAlike(p, a[p], b[p]);
        assert p != from ==> Leaf(p) == p[|p| - 1];
      }
    }
    SameEverywhere(CopiedTree(a, from, to), CopiedTree(b, from, to));
    forall p | p in a
      ensures p in b && a[p].Dir? == b[p].Dir?
    {
      assert NodeAlike(p, a[p], b[p]);
    }
  }

  lemma UnionAlike(a: Tree, b: Tree, c: Tree)
    requires Alike(a, b)
    ensures Alike(a + c, b + c)
  {
  }

  lemma DeletedAlike(a: Tree, b: Tree, from: Path)
    requires Alike(a, b) && from != []
    ensures Alike(Deleted(a, from), Deleted(b, from))
  {
    var sib := SiblingMeta(from);
    assert IsFile(a, sib) <==> IsFile(b, sib) by {
      if sib in a {
        assert NodeAlike(sib, a[sib], b[sib]);
      }
    }
    assert Deleted(a, from).Keys == Deleted(b, from).Keys;
  }

  lemma WrittenAlike(a: Tree, b: Tree, p: Path, node: Node)
    requires Alike(a, b)
    ensures Alike(a[p := node], b[p := node])
  {
    assert a[p := node] == a + map[p := node] && b[p := node] == b + map[p := node];
    UnionAlike(a, b, map[p := node]);
  }

  /** The same step on trees that differ in generated GUIDs does the same, whatever the generator draws. */
  lemma ApplyAlike(e: Edit, a: Tree, b: Tree, g: Path -> Guid, h: Path -> Guid)
    requires Closed(a) && Alike(a, b) && WellMade(e) && Plain(e)
    ensures Apply(e, a, g).ok <==> Apply(e, b, h).ok
    ensures Apply(e, a, g).ok ==> Alike(Apply(e, a, g).tree, Apply(e, b, h).tree)
  {
    hide Moved, Missing, WithMetas, Without, Deleted;
    match e.kind
    case Delete => DeletedAlike(a, b, e.from);
    case CreateDir =>
      KindsAlike(a, b, Parent(e.to));
      WrittenAlike(a, b, e.to, Dir);
    case CreateFile =>
      KindsAlike(a, b, Parent(e.to));
      KindsAlike(a, b, e.to);
      WrittenAlike(a, b, e.to, File(e.bytes));
      WithMetasAlike(a[e.to := File(e.bytes)], b[e.to := File(e.bytes)], g, h);
    case Copy =>
      CopiedAlike(a, b, e.from, e.to);
      var c := CopiedTree(a, e.from, e.to);
      UnionAlike(a, b, c);
      WithMetasAlike(a + c, b + c, g, h);
    case Relocate => RelocateAlike(a, b, e.from, e.to);
  }

  lemma KindsAlike(a: Tree, b: Tree, p: Path)
    requires Alike(a, b)
    ensures IsDir(a, p) <==> IsDir(b, p)
    ensures IsFile(a, p) <==> IsFile(b, p)
  {
    if p in a {
      assert NodeAlike(p, a[p], b[p]);
    }
  }

  lemma RecoverableAlike(a: Tree, b: Tree, root: Path, p: Path)
    requires Alike(a, b) && root != [] && p in a && Recoverable(a, root, p)
    ensures p in b && Recoverable(b, root, p)
  {
    assert NodeAlike(p, a[p], b[p]);
    if p != SiblingMeta(root) && Inside(p, root) && !Reached(root, p) {
      var m :| m in a && Inside(m, p) && MetaWithText(a, root, m);
      assert NodeAlike(m, a[m], b[m]);
      assert MetaWithText(b, root, m);
    }
  }

  lemma ReversibleAlike(e: Edit, a: Tree, b: Tree)
    requires Closed(a) && Alike(a, b) && WellMade(e) && Plain(e) && Reversible(e, a)
    ensures Reversible(e, b)
  {
    match e.kind
    case Delete =>
      forall p | p in b
        ensures Recoverable(b, e.from, p)
      {
        RecoverableAlike(a, b, e.from, p);
      }
    case CreateDir =>
    case CreateFile =>
      var c := map[e.to := File(e.bytes)];
      assert a[e.to := File(e.bytes)] == a + c && b[e.to := File(e.bytes)] == b + c;
      CleanAlike(a, b, c, e.to, SyncsAfterCreate(e.to));
    case Copy =>
      CopiedAlike(a, b, e.from, e.to);
      CleanAlike(a, b, CopiedTree(a, e.from, e.to), e.to, SyncsAfterCopy(e.to));
    case Relocate =>
  }

  lemma CleanAlike(a: Tree, b: Tree, c: Tree, to: Path, syncs: bool)
    requires Alike(a, b) && to != [] && CreatesCleanly(a, a + c, to, syncs)
    ensures CreatesCleanly(b, b + c, to, syncs)
  {
    var sib := SiblingMeta(to);
    if sib in a {
      assert NodeAlike(sib, a[sib], b[sib]);
    }
    UnionAlike(a, b, c);
    MissingAlike(a + c, b + c);
  }
}
