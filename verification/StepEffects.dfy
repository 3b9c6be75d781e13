/** What each kind of step does to every path of the project, forwards and, in any later tree, backwards. */
module StepEffects {
  import opened FileTree
  import opened Sidecars
  import opened ProjectEdit
  import opened Restore
  import opened EditRoundTrip
  import opened EditTheorems
  import opened FailedSteps

  /** What was at `a` in `t` is at `b` in `u`: the same node, or nothing. */
  predicate Carried(t: Tree, a: Path, u: Tree, b: Path) {
    (b in u <==> a in t) && (b in u ==> u[b] == t[a])
  }

  // Forwards.

  /** A deletion takes away the entry, everything below it and the file that is its sidecar. */
  lemma DeletionEffect(e: Edit, t: Tree, g: Path -> Guid, q: Path)
    requires e.kind == Delete && WellMade(e) && Apply(e, t, g).ok
    ensures var u, sib := Apply(e, t, g).tree, Parent(e.from) + [Leaf(e.from) + ".meta"];
      if e.from <= q || (q == sib && q in t && t[q].File?) then q !in u else Carried(t, q, u, q)
  {
  }

  /** A move takes everything at or below `from` to the same place below `to`, and the sidecar to its new name. */
  lemma MoveEffect(t: Tree, from: Path, to: Path, q: Path)
    requires Closed(t) && from != [] && to != [] && from != to && RelocatePair(t, from, to).ok
    requires SiblingMeta(from) in t ==> !(SiblingMeta(from) <= to)
    ensures var u, fm, tm := RelocatePair(t, from, to).tree, SiblingMeta(from), SiblingMeta(to);
      if to <= q then Carried(t, from + q[|to|..], u, q)
      else if fm in t && tm <= q then Carried(t, fm + q[|tm|..], u, q)
      else if from <= q || (fm in t && fm <= q) then q !in u
      else Carried(t, q, u, q)
  {
    hide Closed, Moved, SiblingMeta, CanRename;
    var fm, tm := SiblingMeta(from), SiblingMeta(to);
    var m := Moved(t, from, to);
    MovedAt(t, from, to, q);
    if fm in t {
      MovedAt(m, fm, tm, q);
      PairApart(t, from, to, q);
      if tm <= q {
        MovedAt(t, from, to, fm + q[|tm|..]);
      }
    }
  }

  /** The places a move works on do not overlap, except that the sidecar may go where the entry was. */
  lemma PairApart(t: Tree, from: Path, to: Path, q: Path)
    requires Closed(t) && from != [] && to != [] && from != to && RelocatePair(t, from, to).ok
    requires SiblingMeta(from) in t && !(SiblingMeta(from) <= to)
    ensures var fm, tm := SiblingMeta(from), SiblingMeta(to);
      && Rename(Moved(t, from, to), fm, tm) == RelocatePair(t, from, to)
      && (tm <= q ==> !(to <= fm + q[|tm|..]) && !(from <= fm + q[|tm|..]) && !(to <= q))
      && (to <= q ==> !(tm <= q) && !(fm <= q))
  {
    var fm, tm := SiblingMeta(from), SiblingMeta(to);
    SiblingMetaApart(from, from);
    SiblingMetaApart(to, to);
    if tm <= q {
      var p := fm + q[|tm|..];
      assert fm <= p;
      if to <= p {
        InsideBoth(p, to, fm);
        assert false;
      }
      if from <= p {
        InsideBoth(p, from, fm);
        assert false;
      }
      if to <= q {
        InsideBoth(q, to, tm);
        assert false;
      }
    }
    if to <= q {
      if fm <= q {
        InsideBoth(q, to, fm);
        assert false;
      }
    }
  }

  /** A file may be renamed over a file, a folder over an empty folder, and anything to a free name. */
  predicate MayReplace(t: Tree, from: Path, to: Path)
    requires from in t
  {
    to in t ==> (t[from].File? && t[to].File?)
                || (t[from].Dir? && t[to].Dir? && forall q | q in t && to <= q :: q == to)
  }

  /** A move to a name with a free sidecar succeeds exactly where it can: the new folder is there, the entry may replace
      what has the new name, and neither it nor a folder with its sidecar's name would go into itself. */
  lemma MoveSucceeds(t: Tree, from: Path, to: Path)
    requires Closed(t) && from != [] && to != [] && from != to && SiblingMeta(to) !in t
    requires SiblingMeta(from) in t ==> !(SiblingMeta(from) <= to)
    ensures RelocatePair(t, from, to).ok <==>
      && from in t && Parent(to) in t && t[Parent(to)].Dir? && !(from <= to) && MayReplace(t, from, to)
      && (SiblingMeta(from) in t ==> !(SiblingMeta(from) <= SiblingMeta(to)))
  {
    var fm, tm := SiblingMeta(from), SiblingMeta(to);
    if CanRename(t, from, to) && fm in t {
      SiblingMetaApart(from, from);
      SiblingMetaApart(to, to);
      MovedAt(t, from, to, fm);
      MovedAt(t, from, to, tm);
      MovedAt(t, from, to, Parent(tm));
      if to <= fm {
        assert false;
      }
      SiblingMetaApart(to, from);
      if from <= Parent(tm) {
        InsideParent(to, from);
        assert false;
      }
    }
  }

  /** The names of `r` that lead down from a folder are not sidecar names. */
  predicate PlainWay(r: Path) {
    forall name | name in r :: !IsMetaName(name)
  }

  lemma PlainReached(root: Path, r: Path)
    ensures Reached(root, root + r) <==> PlainWay(r)
  {
    if PlainWay(r) {
      forall i | |root| <= i < |root + r|
        ensures !IsMetaName((root + r)[i])
      {
        assert (root + r)[i] == r[i - |root|] && r[i - |root|] in r;
      }
    }
    if Reached(root, root + r) {
      forall name | name in r
        ensures !IsMetaName(name)
      {
        var i :| 0 <= i < |r| && r[i] == name;
        assert (root + r)[|root| + i] == name;
      }
    }
  }

  /** A sidecar below `assets` whose source is there beside it. */
  predicate NewSidecar(u: Tree, q: Path) {
    |q| >= 2 && q[0] == "assets" && q in u && u[q].File?
    && |Leaf(q)| > 5 && Leaf(q)[|Leaf(q)| - 5..] == ".meta"
    && var p := Parent(q) + [Leaf(q)[..|Leaf(q)| - 5]]; p in u && u[p].File?
  }

  /** A copy adds below `to` what is below `from`, sidecars and folders named like one left out, and changes nothing
      that was there.  Where it lands under a folder `assets`, every asset file then has a sidecar. */
  lemma CopyEffect(e: Edit, t: Tree, g: Path -> Guid, q: Path)
    requires e.kind == Copy && WellMade(e) && Apply(e, t, g).ok
    ensures var u := Apply(e, t, g).tree;
      && (e.to <= q && PlainWay(q[|e.to|..]) && e.from + q[|e.to|..] in t ==> Carried(t, e.from + q[|e.to|..], u, q))
      && (q in t ==> Carried(t, q, u, q))
      && (q in u ==>
            || q in t
            || (e.to <= q && PlainWay(q[|e.to|..]) && e.from + q[|e.to|..] in t)
            || (NewSidecar(u, q) && |e.to| >= 2 && "assets" <= e.to[0]))
      && (|e.to| >= 2 && e.to[0] == "assets" ==> Missing(u) == {})
  {
    hide CopiedTree, NewSidecar, Missing, MissingMetas, PlainWay;
    var u := t + CopiedTree(t, e.from, e.to);
    CopyReaches(t, e.from, e.to, q);
    WithMetasAt(u, g, q);
    if q in WithMetas(u, g) && q !in u {
      WrittenSidecar(u, g, q);
    }
    WithMetasNoneMissing(u, g);
  }

  lemma CopyReaches(t: Tree, from: Path, to: Path, q: Path)
    ensures q in CopiedTree(t, from, to) <==> to <= q && PlainWay(q[|to|..]) && from + q[|to|..] in t
    ensures q in CopiedTree(t, from, to) ==> CopiedTree(t, from, to)[q] == t[from + q[|to|..]]
  {
    CopiedAt(t, from, to, q);
    if to <= q {
      PlainReached(from, q[|to|..]);
    }
  }

  lemma WrittenSidecar(u: Tree, g: Path -> Guid, q: Path)
    requires q in WithMetas(u, g) && q !in u
    ensures NewSidecar(WithMetas(u, g), q)
  {
    WithMetasAt(u, g, q);
    MissingMetasAt(u, q);
    WithMetasAt(u, g, SourceOf(q));
  }

  /** A copy succeeds exactly when the new folder is there and no file of the copy meets anything, nor a folder a file.
      */
  lemma CopySucceeds(e: Edit, t: Tree, g: Path -> Guid)
    requires e.kind == Copy && WellMade(e)
    ensures Apply(e, t, g).ok <==>
      && e.from in t && Parent(e.to) in t && t[Parent(e.to)].Dir?
      && forall r | PlainWay(r) && e.from + r in t && e.to + r in t :: t[e.from + r].Dir? && t[e.to + r].Dir?
  {
    forall r
      ensures e.to + r in CopiedTree(t, e.from, e.to) <==> PlainWay(r) && e.from + r in t
      ensures PlainWay(r) && e.from + r in t ==> CopiedTree(t, e.from, e.to)[e.to + r] == t[e.from + r]
    {
      CopyReaches(t, e.from, e.to, e.to + r);
      assert (e.to + r)[|e.to|..] == r;
    }
    if e.from in t && (forall r | PlainWay(r) && e.from + r in t && e.to + r in t ::
                         t[e.from + r].Dir? && t[e.to + r].Dir?) {
      forall q | q in CopiedTree(t, e.from, e.to)
        ensures q !in t || (t[q].Dir? && CopiedTree(t, e.from, e.to)[q].Dir?)
      {
        CopiedAt(t, e.from, e.to, q);
        assert q == e.to + q[|e.to|..];
      }
    }
  }

  /** A created file holds its bytes, nothing else changes, and under `assets` every asset file then has a sidecar. */
  lemma FileEffect(e: Edit, t: Tree, g: Path -> Guid, q: Path)
    requires e.kind == CreateFile && WellMade(e)
    ensures Apply(e, t, g).ok <==>
      Parent(e.to) in t && t[Parent(e.to)].Dir? && (e.to in t ==> t[e.to].File?)
    ensures Apply(e, t, g).ok ==> var u := Apply(e, t, g).tree;
      && e.to in u && u[e.to] == File(e.bytes)
      && (q in t && q != e.to ==> Carried(t, q, u, q))
      && (q in u ==> q in t || q == e.to || (NewSidecar(u, q) && e.to[0] == "assets"))
      && (e.to[0] == "assets" ==> Missing(u) == {})
  {
    var u := t[e.to := File(e.bytes)];
    hide NewSidecar, Missing, MissingMetas;
    WithMetasAt(u, g, q);
    WithMetasAt(u, g, e.to);
    if q in WithMetas(u, g) && q !in u {
      WrittenSidecar(u, g, q);
    }
    WithMetasNoneMissing(u, g);
  }

  /** A created folder is there, empty, and nothing else changes. */
  lemma FolderEffect(e: Edit, t: Tree, g: Path -> Guid)
    requires Closed(t) && e.kind == CreateDir && WellMade(e)
    ensures Apply(e, t, g).ok <==> Parent(e.to) in t && t[Parent(e.to)].Dir? && e.to !in t
    ensures Apply(e, t, g).ok ==> var u := Apply(e, t, g).tree;
      u == t[e.to := Dir] && forall q | q in u && e.to <= q :: q == e.to
  {
    if e.to !in t {
      forall q | q in t
        ensures !(e.to <= q)
      {
        NotThere(t, e.to, q);
      }
    }
  }

  // Backwards, in any later tree.

  /** The sidecar recorded at `p` of `u` is at `q` of `t`: with the GUID it had, or with its text if it had none. */
  predicate Kept(u: Tree, p: Path, t: Tree, q: Path, guidOf: GuidReader) {
    p in u && u[p].File? && q in t && t[q].File?
    && if guidOf(u[p].bytes) != "" then guidOf(t[q].bytes) == guidOf(u[p].bytes) else t[q].bytes == u[p].bytes
  }

  /** A created file has no sidecars but the one beside it. */
  lemma FileSidecars(u: Tree, to: Path, p: Path)
    requires Closed(u) && to != [] && IsFile(u, to)
    ensures IsSidecarOf(u, to, p) <==> p == SiblingMeta(to) && p in u && u[p].File?
  {
    if IsSidecarOf(u, to, p) && p != SiblingMeta(to) {
      assert false;
    }
  }

  lemma CollectedKept(u: Tree, asset: Path, metas: seq<MetaExpect>, t: Tree, guidOf: GuidReader)
    requires asset != [] && Collected(u, asset, metas, guidOf)
    ensures MetasMatch(t, asset, metas, guidOf) <==>
      forall p | p in u && IsSidecarOf(u, asset, p) :: Kept(u, p, t, p, guidOf)
  {
    if MetasMatch(t, asset, metas, guidOf) {
      forall p | p in u && IsSidecarOf(u, asset, p)
        ensures Kept(u, p, t, p, guidOf)
      {
        var i :| 0 <= i < |metas| && MetaFile(asset, metas[i]) == p;
        assert RecordsMeta(u, asset, metas[i], guidOf);
        assert MetaMatches(t, p, metas[i], guidOf);
      }
    }
    if forall p | p in u && IsSidecarOf(u, asset, p) :: Kept(u, p, t, p, guidOf) {
      forall i | 0 <= i < |metas|
        ensures MetaMatches(t, MetaFile(asset, metas[i]), metas[i], guidOf)
      {
        assert RecordsMeta(u, asset, metas[i], guidOf);
        assert Kept(u, MetaFile(asset, metas[i]), t, MetaFile(asset, metas[i]), guidOf);
      }
    }
  }

  /** Undoing a recorded creation of a file, in any later tree: it is done only if the file still holds the bytes it
      was created with and the sidecar recorded beside it is still there with its GUID, or with its text if it had
      none; then the two are gone and nothing else has changed.  Otherwise nothing has. */
  lemma UndoOfCreation(e: Edit, s: Tree, g: Path -> Guid, t: Tree, guidOf: GuidReader)
    requires Closed(s) && e.kind == CreateFile && WellMade(e) && Apply(e, s, g).ok
    requires Recorded(e, s, Apply(e, s, g).tree, guidOf)
    ensures var u, sib := Apply(e, s, g).tree, SiblingMeta(e.to);
      && (Revert(e, t, guidOf).ok <==>
            && e.to in t && t[e.to] == File(e.bytes)
            && (sib in u && u[sib].File? ==> Kept(u, sib, t, sib, guidOf)))
      && (Revert(e, t, guidOf).ok ==>
            Revert(e, t, guidOf).tree == t - {e.to} - (if sib in u && u[sib].File? then {sib} else {}))
      && (!Revert(e, t, guidOf).ok ==> Revert(e, t, guidOf) == Ran(false, t))
  {
    hide Apply;
    var u, to, sib := Apply(e, s, g).tree, e.to, SiblingMeta(e.to);
    ApplyClosed(e, s, g);
    FileEffect(e, s, g, to);
    CollectedKept(u, to, e.metas, t, guidOf);
    FileSidecars(u, to, sib);
    assert MetasMatch(t, to, e.metas, guidOf) <==> (sib in u && u[sib].File? ==> Kept(u, sib, t, sib, guidOf)) by {
      forall p | p in u && IsSidecarOf(u, to, p)
        ensures p == sib
      {
        FileSidecars(u, to, p);
      }
    }
    if Revert(e, t, guidOf).ok {
      MetasGone(e, u, t, guidOf);
    }
  }

  lemma MetasGone(e: Edit, u: Tree, t: Tree, guidOf: GuidReader)
    requires Closed(u) && e.to != [] && IsFile(u, e.to) && Collected(u, e.to, e.metas, guidOf)
    requires MetasMatch(t, e.to, e.metas, guidOf)
    ensures var sib := SiblingMeta(e.to);
      DropMetas(t - {e.to}, e.to, e.metas, false) == t - {e.to} - (if sib in u && u[sib].File? then {sib} else {})
  {
    var to, sib, w := e.to, SiblingMeta(e.to), t - {e.to};
    forall m | m in e.metas
      ensures MetaFile(to, m) !in w || w[MetaFile(to, m)].File?
    {
      var i :| 0 <= i < |e.metas| && e.metas[i] == m;
      assert MetaMatches(t, MetaFile(to, e.metas[i]), e.metas[i], guidOf);
    }
    DropMetasAt(w, to, e.metas, false);
    forall p
      ensures p in MetaPaths(to, e.metas) <==> p == sib && p in u && u[p].File?
    {
      MetaPathsAt(u, to, e.metas, guidOf, p);
      FileSidecars(u, to, p);
    }
    assert w - MetaPaths(to, e.metas) == w - (if sib in u && u[sib].File? then {sib} else {});
  }

  /** Undoing the creation of a folder, in any later tree: done exactly when the folder is there and empty. */
  lemma UndoOfFolder(e: Edit, t: Tree, guidOf: GuidReader)
    requires e.kind == CreateDir && WellMade(e)
    ensures var empty := e.to in t && t[e.to].Dir? && forall q | q in t && e.to <= q :: q == e.to;
      Revert(e, t, guidOf) == if empty then Ran(true, t - {e.to}) else Ran(false, t)
  {
  }

  lemma {:induction false} DropBeside(t: Tree, asset: Path, metas: seq<MetaExpect>)
    requires asset != [] && forall m | m in metas && !m.sibling :: MetaFile(asset, m) !in t
    ensures DropMetas(t, asset, metas, false) == if NamesSibling(metas) then RemoveOne(t, SiblingMeta(asset)) else t
    decreases |metas|
  {
    if metas != [] {
      var rest := RemoveOne(t, MetaFile(asset, metas[0]));
      DropBeside(rest, asset, metas[1..]);
      assert NamesSibling(metas) <==> metas[0].sibling || NamesSibling(metas[1..]) by {
        assert forall i | 1 <= i < |metas| :: metas[i] == metas[1..][i - 1];
      }
    }
  }

  /** Undoing a recorded copy, in any later tree: it is always done.  Everything at or below the copy is gone, changed
      since or not, and so is the recorded sidecar beside it, or an empty folder in its place; nothing else changes. */
  lemma UndoOfCopy(e: Edit, s: Tree, g: Path -> Guid, t: Tree, guidOf: GuidReader, q: Path)
    requires e.kind == Copy && WellMade(e) && Recorded(e, s, Apply(e, s, g).tree, guidOf)
    ensures Revert(e, t, guidOf).ok
    ensures var u, sib, now := Apply(e, s, g).tree, SiblingMeta(e.to), Revert(e, t, guidOf).tree;
      var beside :=
        q == sib && sib in u && u[sib].File? && (q in t && t[q].Dir? ==> forall p | p in t && q <= p :: p == q);
      if e.to <= q || beside then q !in now else Carried(t, q, now, q)
  {
    hide Apply;
    var u, to, sib, w := Apply(e, s, g).tree, e.to, SiblingMeta(e.to), Without(t, e.to);
    SiblingMetaApart(to, to);
    forall m | m in e.metas && !m.sibling
      ensures MetaFile(to, m) !in w
    {
      assert RecordsMeta(u, to, m, guidOf);
    }
    DropBeside(w, to, e.metas);
    BesideCollected(u, to, e.metas, guidOf);
    forall p | p in t && sib <= p
      ensures p in w
    {
      if to <= p {
        InsideBoth(p, to, sib);
        assert false;
      }
    }
  }

  lemma BesideCollected(u: Tree, asset: Path, metas: seq<MetaExpect>, guidOf: GuidReader)
    requires asset != [] && Collected(u, asset, metas, guidOf)
    ensures NamesSibling(metas) <==> IsFile(u, SiblingMeta(asset))
  {
    if i :| 0 <= i < |metas| && metas[i].sibling {
      assert RecordsMeta(u, asset, metas[i], guidOf);
    }
    if IsFile(u, SiblingMeta(asset)) {
      var i :| 0 <= i < |metas| && MetaFile(asset, metas[i]) == SiblingMeta(asset);
      assert RecordsMeta(u, asset, metas[i], guidOf);
    }
  }

  /** Undoing a move, in any later tree: everything that is now at or below the new name comes
      back to the old one with the sidecar that is beside it now, and nothing else changes. */
  lemma UndoOfMove(e: Edit, t: Tree, guidOf: GuidReader, q: Path)
    requires Closed(t) && e.kind == Relocate && WellMade(e) && Revert(e, t, guidOf).ok
    requires SiblingMeta(e.to) in t ==> !(SiblingMeta(e.to) <= e.from)
    ensures var now, fm, tm := Revert(e, t, guidOf).tree, SiblingMeta(e.from), SiblingMeta(e.to);
      if e.from <= q then Carried(t, e.to + q[|e.from|..], now, q)
      else if tm in t && fm <= q then Carried(t, tm + q[|fm|..], now, q)
      else if e.to <= q || (tm in t && tm <= q) then q !in now
      else Carried(t, q, now, q)
  {
    MoveEffect(t, e.to, e.from, q);
  }
}
