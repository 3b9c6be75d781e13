/** When a recorded step is valid: in terms of the trees it was run between and the tree it is looked at in. */
module StaleSteps {
  import opened Basics
  import opened FileTree
  import opened Sidecars
  import opened ProjectEdit
  import opened Restore
  import opened StepEffects

  /** The sidecars beside and below `asset`. */
  predicate HasSidecar(t: Tree, asset: Path, p: Path)
    requires asset != []
  {
    p in t && t[p].File? && (p == SiblingMeta(asset) || (asset < p && IsMetaName(p[|p| - 1])))
  }

  lemma SidecarIs(t: Tree, asset: Path, p: Path)
    requires asset != []
    ensures HasSidecar(t, asset, p) <==> IsSidecarOf(t, asset, p)
  {
  }

  lemma KeptByAll(u: Tree, asset: Path, metas: seq<MetaExpect>, t: Tree, guidOf: GuidReader)
    requires asset != [] && Collected(u, asset, metas, guidOf)
    ensures MetasMatch(t, asset, metas, guidOf) <==>
      forall p | p in u && HasSidecar(u, asset, p) :: Kept(u, p, t, p, guidOf)
  {
    CollectedKept(u, asset, metas, t, guidOf);
    assert forall p | p in u :: HasSidecar(u, asset, p) <==> IsSidecarOf(u, asset, p);
  }

  /** A deletion that is applied is valid exactly when neither the entry nor any sidecar it had is there. */
  lemma DeletionValid(e: Edit, s: Tree, t: Tree, guidOf: GuidReader)
    requires Records(e, s, guidOf)
    ensures Matches(e, t, guidOf) <==> e.from !in t && forall p | p in s && HasSidecar(s, e.from, p) :: p !in t
  {
    if Matches(e, t, guidOf) {
      forall p | p in s && HasSidecar(s, e.from, p)
        ensures p !in t
      {
        assert IsSidecarOf(s, e.from, p);
        var i :| 0 <= i < |e.metas| && MetaFile(e.from, e.metas[i]) == p;
      }
    }
    forall i | 0 <= i < |e.metas|
      ensures MetaFile(e.from, e.metas[i]) in s && HasSidecar(s, e.from, MetaFile(e.from, e.metas[i]))
    {
      assert RecordsMeta(s, e.from, e.metas[i], guidOf);
    }
  }

  /** A deletion that was undone is valid exactly when everything it had captured is there with the same bytes, and
      every sidecar is kept. */
  lemma UndoneDeletionValid(e: Edit, s: Tree, t: Tree, guidOf: GuidReader)
    requires Records(e, s, guidOf)
    ensures Matches(e.(applied := false), t, guidOf) <==>
      && (forall p | p in s && e.from <= p && PlainWay(p[|e.from|..]) :: p in t && t[p] == s[p])
      && (forall p | p in s && HasSidecar(s, e.from, p) :: Kept(s, p, t, p, guidOf))
  {
    hide MetasMatch, Kept;
    KeptByAll(s, e.from, e.metas, t, guidOf);
    if s[e.from].Dir? {
      FilesThere(s, e.from, e.files, t);
      assert Reached(e.from, e.from);
      assert e.files != [];
      FromThere(s, e.from, t);
    } else {
      FileThere(e, s, t);
    }
  }

  lemma FromThere(s: Tree, root: Path, t: Tree)
    requires root in s
    ensures (forall p | p in s && root <= p && PlainWay(p[|root|..]) :: p in t && t[p] == s[p]) ==> root in t
  {
    assert root <= root && root[|root|..] == [];
    assert PlainWay(root[|root|..]);
  }

  lemma FileThere(e: Edit, s: Tree, t: Tree)
    requires Closed(s) && IsFile(s, e.from)
    ensures ReadText(t, e.from) == Some(s[e.from].bytes) <==>
      forall p | p in s && e.from <= p && PlainWay(p[|e.from|..]) :: p in t && t[p] == s[p]
  {
    FromThere(s, e.from, t);
    assert e.from[|e.from|..] == [] && PlainWay(e.from[|e.from|..]);
    forall p | p in s && e.from <= p
      ensures p == e.from
    {
      if p != e.from {
        assert Inside(p, e.from);
        assert false;
      }
    }
  }

  lemma FilesThere(s: Tree, root: Path, files: seq<StoredFile>, t: Tree)
    requires Captured(s, root, files)
    ensures (forall i | 0 <= i < |files| :: FileMatches(t, root, files[i])) <==>
      forall p | p in s && root <= p && PlainWay(p[|root|..]) :: p in t && t[p] == s[p]
  {
    forall p
      ensures root <= p ==> (PlainWay(p[|root|..]) <==> Reached(root, p))
    {
      if root <= p {
        assert root + p[|root|..] == p;
        PlainReached(root, p[|root|..]);
      }
    }
    if forall i | 0 <= i < |files| :: FileMatches(t, root, files[i]) {
      forall p | p in s && root <= p && PlainWay(p[|root|..])
        ensures p in t && t[p] == s[p]
      {
        var i :| 0 <= i < |files| && root + files[i].relative == p;
        assert RecordsFile(s, root, root, files[i]);
      }
    }
    if forall p | p in s && root <= p && PlainWay(p[|root|..]) :: p in t && t[p] == s[p] {
      forall i | 0 <= i < |files|
        ensures FileMatches(t, root, files[i])
      {
        assert RecordsFile(s, root, root, files[i]);
        var p := root + files[i].relative;
        assert p in t && t[p] == s[p];
      }
    }
  }

  /** A created file is valid exactly when it holds its bytes and its sidecar is kept; undone, when its name is free. */
  lemma CreationValid(e: Edit, s: Tree, g: Path -> Guid, t: Tree, guidOf: GuidReader)
    requires Closed(s) && e.kind == CreateFile && WellMade(e) && Apply(e, s, g).ok
    requires Recorded(e, s, Apply(e, s, g).tree, guidOf)
    ensures var u, sib := Apply(e, s, g).tree, SiblingMeta(e.to);
      Matches(e, t, guidOf) <==>
        && e.to in t && t[e.to] == File(e.bytes)
        && (sib in u && u[sib].File? ==> Kept(u, sib, t, sib, guidOf))
    ensures Matches(e.(applied := false), t, guidOf) <==> e.to !in t
  {
    UndoOfCreation(e, s, g, t, guidOf);
  }

  /** A created folder is valid exactly when it is there; undone, when its name is free. */
  lemma FolderValid(e: Edit, t: Tree, guidOf: GuidReader)
    requires e.kind == CreateDir && WellMade(e)
    ensures e.applied ==> (Matches(e, t, guidOf) <==> e.to in t && t[e.to].Dir?)
    ensures !e.applied ==> (Matches(e, t, guidOf) <==> e.to !in t)
  {
  }

  /** A copy is valid exactly when it is there with every sidecar it had after the step; undone, when its name is free.
      */
  lemma CopyValid(e: Edit, s: Tree, u: Tree, t: Tree, guidOf: GuidReader)
    requires e.kind == Copy && WellMade(e) && Recorded(e, s, u, guidOf)
    ensures Matches(e, t, guidOf) <==>
      e.to in t && forall p | p in u && HasSidecar(u, e.to, p) :: Kept(u, p, t, p, guidOf)
    ensures Matches(e.(applied := false), t, guidOf) <==> e.to !in t
  {
    KeptByAll(u, e.to, e.metas, t, guidOf);
  }

  /** Where the sidecar at `p` of an asset at `to` is when the asset is at `from`. */
  function Mirrored(p: Path, to: Path, from: Path): Path
    requires from != [] && to != [] && (p == SiblingMeta(to) || to < p)
  {
    if p == SiblingMeta(to) then SiblingMeta(from) else from + p[|to|..]
  }

  /** A move is valid exactly when the entry is at its new name, nothing is at the old one, and every sidecar it had
      after the step is kept; undone, the same with the names exchanged. */
  lemma MoveValid(e: Edit, s: Tree, u: Tree, t: Tree, guidOf: GuidReader)
    requires e.kind == Relocate && WellMade(e) && Recorded(e, s, u, guidOf)
    ensures Matches(e, t, guidOf) <==>
      e.to in t && e.from !in t && forall p | p in u && HasSidecar(u, e.to, p) :: Kept(u, p, t, p, guidOf)
    ensures Matches(e.(applied := false), t, guidOf) <==>
      e.from in t && e.to !in t
      && forall p | p in u && HasSidecar(u, e.to, p) :: Kept(u, p, t, Mirrored(p, e.to, e.from), guidOf)
  {
    hide Kept;
    KeptByAll(u, e.to, e.metas, t, guidOf);
    MirroredByAll(u, e.to, e.from, e.metas, t, guidOf);
  }

  lemma MirroredByAll(u: Tree, to: Path, from: Path, metas: seq<MetaExpect>, t: Tree, guidOf: GuidReader)
    requires from != [] && to != [] && Collected(u, to, metas, guidOf)
    ensures MetasMatch(t, from, metas, guidOf) <==>
      forall p | p in u && HasSidecar(u, to, p) :: Kept(u, p, t, Mirrored(p, to, from), guidOf)
  {
    SiblingMetaApart(to, to);
    forall i | 0 <= i < |metas|
      ensures var p := MetaFile(to, metas[i]);
        p in u && HasSidecar(u, to, p) && MetaFile(from, metas[i]) == Mirrored(p, to, from)
        && (MetaMatches(t, MetaFile(from, metas[i]), metas[i], guidOf)
            <==> Kept(u, p, t, Mirrored(p, to, from), guidOf))
    {
      assert RecordsMeta(u, to, metas[i], guidOf);
    }
    forall p | p in u && HasSidecar(u, to, p)
      ensures exists i :: 0 <= i < |metas| && MetaFile(to, metas[i]) == p
    {
      assert IsSidecarOf(u, to, p);
    }
  }
}
