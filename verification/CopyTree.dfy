/** Copying a file or a folder without its sidecars. */
module CopyTree {
  import opened Basics
  import opened FileTree
  import opened Sidecars
  import opened ProjectEdit
  import opened EditRoundTrip
  import opened ProjectStep

  /** What is at or below `d` is the same in both trees. */
  ghost predicate SameBelow(a: Tree, b: Tree, d: Path) {
    forall p | Inside(p, d) :: SameAt(a, b, p)
  }

  ghost predicate NoClash(t: Tree, c: Tree) {
    forall q | q in c :: q !in t || (t[q].Dir? && c[q].Dir?)
  }

  /** The part of the copy reached through the children of `done`. */
  function PartCopy(src: Tree, from: Path, to: Path, done: set<Path>): Tree {
    map q | q in CopiedTree(src, from, to) && Inside(q, to) && InPart(from, done, Rebase(q, to, from))
      :: CopiedTree(src, from, to)[q]
  }

  lemma PartCopyAt(src: Tree, from: Path, to: Path, done: set<Path>, q: Path)
    ensures q in PartCopy(src, from, to, done) <==>
              Inside(q, to) && Rebase(q, to, from) in src && InPart(from, done, Rebase(q, to, from))
    ensures q in PartCopy(src, from, to, done) ==> PartCopy(src, from, to, done)[q] == src[Rebase(q, to, from)]
  {
    CopiedAt(src, from, to, q);
  }

  lemma RebaseChild(from: Path, to: Path, c: Path, q: Path)
    requires |c| == |from| + 1 && Inside(c, from)
    ensures var d := to + [Leaf(c)];
            && Rebase(c, from, to) == d && d != [] && Parent(d) == to && Inside(d, to)
            && (Inside(q, d) <==> Inside(q, to) && Inside(Rebase(q, to, from), c))
            && (Inside(q, d) ==> Rebase(q, d, c) == Rebase(q, to, from))
  {
    var d := to + [Leaf(c)];
    assert c == from + [Leaf(c)];
    if Inside(q, to) {
      RebaseInside(q, d, to, from);
      assert Rebase(d, to, from) == c;
    }
    if Inside(q, d) {
      InsideTransitive(q, d, to);
      assert q[|to|..] == [Leaf(c)] + q[|d|..];
    }
  }

  lemma PartCopyStepAt(src: Tree, from: Path, to: Path, done: set<Path>, c: Path, q: Path)
    requires c in Children(src, from) && c !in done
    ensures var more, before := CopiedTree(src, c, to + [Leaf(c)]), PartCopy(src, from, to, done);
            && SameAt(PartCopy(src, from, to, done + {c}), if IsMetaName(Leaf(c)) then before else before + more, q)
            && (q in more && !IsMetaName(Leaf(c)) ==> q !in before)
  {
    PartCopyAt(src, from, to, done, q);
    PartCopyAt(src, from, to, done + {c}, q);
    CopiedAt(src, c, to + [Leaf(c)], q);
    RebaseChild(from, to, c, q);
    if Inside(q, to) {
      var p := Rebase(q, to, from);
      if p != from {
        ReachedChild(from, p);
        if Inside(p, c) {
          ChildOf(from, c, p);
        }
      }
    }
  }

  lemma PartCopySkip(src: Tree, from: Path, to: Path, done: set<Path>, c: Path)
    requires c in Children(src, from) && c !in done && IsMetaName(Leaf(c))
    ensures PartCopy(src, from, to, done + {c}) == PartCopy(src, from, to, done)
  {
    var before, after := PartCopy(src, from, to, done), PartCopy(src, from, to, done + {c});
    forall q
      ensures SameAt(after, before, q)
    {
      PartCopyStepAt(src, from, to, done, c, q);
    }
    SameEverywhere(after, before);
  }

  /** Copying one more child extends the part by exactly that child's copy. */
  lemma PartCopyStep(src: Tree, from: Path, to: Path, done: set<Path>, c: Path, more: Tree)
    requires c in Children(src, from) && c !in done && !IsMetaName(Leaf(c))
    requires more == CopiedTree(src, c, to + [Leaf(c)])
    ensures PartCopy(src, from, to, done + {c}) == PartCopy(src, from, to, done) + more
    ensures forall q | q in more :: q !in PartCopy(src, from, to, done)
  {
    var before, after := PartCopy(src, from, to, done), PartCopy(src, from, to, done + {c});
    forall q
      ensures SameAt(after, before + more, q)
      ensures q in more ==> q !in before
    {
      PartCopyStepAt(src, from, to, done, c, q);
    }
    SameEverywhere(after, before + more);
  }

  lemma PartCopyStart(src: Tree, from: Path, to: Path)
    requires IsDir(src, from)
    ensures PartCopy(src, from, to, {}) == map[to := Dir]
  {
    forall q
      ensures SameAt(PartCopy(src, from, to, {}), map[to := Dir], q)
    {
      PartCopyAt(src, from, to, {}, q);
      assert Reached(from, from);
      if Inside(q, to) && Rebase(q, to, from) == from {
        RebaseInverse(q, to, from);
        assert q == to;
      }
      assert Rebase(to, to, from) == from;
    }
    SameEverywhere(PartCopy(src, from, to, {}), map[to := Dir]);
  }

  lemma PartCopyAll(src: Tree, from: Path, to: Path)
    requires Closed(src) && from in src
    ensures PartCopy(src, from, to, Children(src, from)) == CopiedTree(src, from, to)
  {
    var all := Children(src, from);
    forall q
      ensures SameAt(PartCopy(src, from, to, all), CopiedTree(src, from, to), q)
    {
      PartCopyAt(src, from, to, all, q);
      CopiedAt(src, from, to, q);
      if q in CopiedTree(src, from, to) {
        var p := Rebase(q, to, from);
        if p != from {
          ReachedChild(from, p);
          assert ChildOn(from, p) == p || ChildOn(from, p) in src;
        }
      }
    }
    SameEverywhere(PartCopy(src, from, to, all), CopiedTree(src, from, to));
  }

  lemma FileCopied(src: Tree, from: Path, to: Path)
    requires Closed(src) && IsFile(src, from)
    ensures CopiedTree(src, from, to) == map[to := src[from]]
  {
    forall q
      ensures SameAt(CopiedTree(src, from, to), map[to := src[from]], q)
    {
      CopiedAt(src, from, to, q);
      assert Rebase(to, to, from) == from && Reached(from, from) && Inside(to, to);
      if q in CopiedTree(src, from, to) {
        var p := Rebase(q, to, from);
        assert p == from;
        RebaseInverse(q, to, from);
        assert q == Rebase(from, from, to) == to;
      }
    }
    SameEverywhere(CopiedTree(src, from, to), map[to := src[from]]);
  }

  lemma SameChildren(a: Tree, b: Tree, d: Path)
    requires SameBelow(a, b, d)
    ensures Children(a, d) == Children(b, d)
  {
    forall p
      ensures p in Children(a, d) <==> p in Children(b, d)
    {
      if Inside(p, d) {
        assert SameAt(a, b, p);
      }
    }
  }

  /** Nothing written below `to` is seen below `from`. */
  lemma CopyElsewhere(src: Tree, start: Tree, from: Path, to: Path, done: set<Path>, c: Path)
    requires Apart(from, to) && SameBelow(src, start, from) && Inside(c, from)
    ensures SameBelow(src, start + PartCopy(src, from, to, done), c)
  {
    forall p | Inside(p, c)
      ensures SameAt(src, start + PartCopy(src, from, to, done), p)
    {
      InsideTransitive(p, c, from);
      ApartInside(p, from, to);
      PartCopyAt(src, from, to, done, p);
      assert SameAt(src, start, p);
    }
  }

  /** Everything copied lies at or below `to`. */
  lemma CopyStaysBelow(src: Tree, start: Tree, from: Path, to: Path, done: set<Path>)
    ensures Without(start + PartCopy(src, from, to, done), to) == Without(start, to)
  {
    forall q
      ensures SameAt(Without(start + PartCopy(src, from, to, done), to), Without(start, to), q)
    {
      PartCopyAt(src, from, to, done, q);
    }
    SameEverywhere(Without(start + PartCopy(src, from, to, done), to), Without(start, to));
  }

  lemma WithoutBelow(a: Tree, b: Tree, d: Path, to: Path)
    requires Without(a, d) == Without(b, d) && Inside(d, to)
    ensures Without(a, to) == Without(b, to)
  {
    forall q
      ensures SameAt(Without(a, to), Without(b, to), q)
    {
      if !Inside(q, to) {
        if Inside(q, d) {
          InsideTransitive(q, d, to);
        }
        assert q in a <==> q in Without(a, d);
        assert q in b <==> q in Without(b, d);
      }
    }
    SameEverywhere(Without(a, to), Without(b, to));
  }

  /** A child's copy clashes with the tree so far exactly when it clashes with the tree at the start, and then so does
      the whole copy. */
  lemma ClashOfChild(src: Tree, start: Tree, from: Path, to: Path, done: set<Path>, c: Path)
    requires c in Children(src, from) && c !in done && !IsMetaName(Leaf(c))
    ensures var child := CopiedTree(src, c, to + [Leaf(c)]);
            && (NoClash(start + PartCopy(src, from, to, done), child) <==> NoClash(start, child))
            && (NoClash(start, CopiedTree(src, from, to)) ==> NoClash(start, child))
  {
    var d := to + [Leaf(c)];
    var child := CopiedTree(src, c, d);
    var whole := CopiedTree(src, from, to);
    PartCopyStep(src, from, to, done, c, child);
    forall q | q in child
      ensures q in whole && whole[q] == child[q]
    {
      CopiedAt(src, c, d, q);
      CopiedAt(src, from, to, q);
      RebaseChild(from, to, c, q);
      ChildOf(from, c, Rebase(q, to, from));
    }
  }

  /** `copy_tree`.  `src` is the tree the copy reads from, which writing below `to` does not change. */
  method Copy(disk: Disk, from: Path, to: Path, ghost src: Tree) returns (ok: bool)
    requires Closed(src) && from in src && to != [] && Apart(from, to)
    requires SameBelow(src, disk.tree, from)
    modifies disk
    ensures ok <==> IsDir(old(disk.tree), Parent(to)) && NoClash(old(disk.tree), CopiedTree(src, from, to))
    ensures ok ==> disk.tree == old(disk.tree) + CopiedTree(src, from, to)
    ensures !ok ==> Without(disk.tree, to) == Without(old(disk.tree), to)
    decreases |set p | p in src && Inside(p, from)|
  {
    assert SameAt(src, disk.tree, from) && Inside(from, from);
    if IsFile(disk.tree, from) {
      FileCopied(src, from, to);
      ok := IsDir(disk.tree, Parent(to)) && to !in disk.tree;
      if ok {
        disk.tree := disk.tree[to := disk.tree[from]];
      }
      return;
    }
    ok := IsDir(disk.tree, Parent(to)) && !IsFile(disk.tree, to);
    PartCopyAll(src, from, to);
    PartCopyStart(src, from, to);
    if !ok {
      PartCopyAt(src, from, to, Children(src, from), to);
      assert Rebase(to, to, from) == from && Reached(from, from);
      return;
    }
    ok := CopyChildren(disk, from, to, src);
  }

  method CopyChildren(disk: Disk, from: Path, to: Path, ghost src: Tree) returns (ok: bool)
    requires Closed(src) && IsDir(src, from) && to != [] && Apart(from, to)
    requires SameBelow(src, disk.tree, from)
    requires IsDir(disk.tree, Parent(to)) && !IsFile(disk.tree, to)
    modifies disk
    ensures ok <==> NoClash(old(disk.tree), CopiedTree(src, from, to))
    ensures ok ==> disk.tree == old(disk.tree) + CopiedTree(src, from, to)
    ensures !ok ==> Without(disk.tree, to) == Without(old(disk.tree), to)
    decreases |set p | p in src && Inside(p, from)|, 0
  {
    ghost var start := disk.tree;
    PartCopyAll(src, from, to);
    SameChildren(src, disk.tree, from);
    var todo := Children(disk.tree, from);
    disk.tree := disk.tree[to := Dir];
    ghost var done: set<Path> := {};
    MadeFolder(src, start, from, to);
    while todo != {}
      invariant todo + done == Children(src, from) && todo !! done
      invariant disk.tree == start + PartCopy(src, from, to, done)
      invariant NoClash(start, PartCopy(src, from, to, done))
      decreases |todo|
    {
      var child :| child in todo;
      TakeOne(Children(src, from), todo, done, child);
      if IsMetaName(Leaf(child)) {
        PartCopySkip(src, from, to, done, child);
      } else {
        BeforeChild(src, start, from, to, done, child);
        ghost var before := disk.tree;
        var copied := Copy(disk, child, to + [Leaf(child)], src);
        if !copied {
          WithoutBelow(disk.tree, before, to + [Leaf(child)], to);
          return false;
        }
        AfterChild(src, start, from, to, done, child, disk.tree);
      }
      todo, done := todo - {child}, done + {child};
    }
    ok := true;
  }

  lemma MadeFolder(src: Tree, start: Tree, from: Path, to: Path)
    requires IsDir(src, from) && !IsFile(start, to)
    ensures start[to := Dir] == start + PartCopy(src, from, to, {})
    ensures NoClash(start, PartCopy(src, from, to, {}))
  {
    PartCopyStart(src, from, to);
  }

  /** What the copy of one child can rely on. */
  lemma BeforeChild(src: Tree, start: Tree, from: Path, to: Path, done: set<Path>, c: Path)
    requires Closed(src) && IsDir(src, from) && Apart(from, to) && SameBelow(src, start, from)
    requires c in Children(src, from) && c !in done && !IsMetaName(Leaf(c))
    ensures var cur, d := start + PartCopy(src, from, to, done), to + [Leaf(c)];
            && SameBelow(src, cur, c) && Apart(c, d) && d != [] && Inside(d, to)
            && IsDir(cur, Parent(d))
            && (NoClash(cur, CopiedTree(src, c, d)) <==> NoClash(start, CopiedTree(src, c, d)))
            && (NoClash(start, CopiedTree(src, from, to)) ==> NoClash(start, CopiedTree(src, c, d)))
            && Without(cur, to) == Without(start, to)
    ensures |set p | p in src && Inside(p, c)| < |set p | p in src && Inside(p, from)|
  {
    FewerBelow(src, from, c);
    RebaseChild(from, to, c, to);
    CopyElsewhere(src, start, from, to, done, c);
    ClashOfChild(src, start, from, to, done, c);
    ApartChild(from, to, c);
    CopyStaysBelow(src, start, from, to, done);
    ToIsDir(src, start, from, to, done);
  }

  lemma AfterChild(src: Tree, start: Tree, from: Path, to: Path, done: set<Path>, c: Path, now: Tree)
    requires c in Children(src, from) && c !in done && !IsMetaName(Leaf(c))
    requires now == (start + PartCopy(src, from, to, done)) + CopiedTree(src, c, to + [Leaf(c)])
    requires NoClash(start, PartCopy(src, from, to, done)) && NoClash(start, CopiedTree(src, c, to + [Leaf(c)]))
    ensures now == start + PartCopy(src, from, to, done + {c})
    ensures NoClash(start, PartCopy(src, from, to, done + {c}))
  {
    var a, b := PartCopy(src, from, to, done), CopiedTree(src, c, to + [Leaf(c)]);
    PartCopyStep(src, from, to, done, c, b);
    UnionAssociative(start, a, b);
  }

  lemma UnionAssociative(a: Tree, b: Tree, c: Tree)
    ensures (a + b) + c == a + (b + c)
  {
  }

  lemma ApartChild(from: Path, to: Path, c: Path)
    requires Apart(from, to) && |c| == |from| + 1 && Inside(c, from)
    ensures Apart(c, to + [Leaf(c)])
  {
    var d := to + [Leaf(c)];
    if Inside(c, d) {
      InsideTransitive(c, d, to);
      InsideBoth(c, from, to);
    }
    if Inside(d, c) {
      InsideTransitive(d, c, from);
      InsideBoth(d, from, to);
    }
  }

  lemma ToIsDir(src: Tree, start: Tree, from: Path, to: Path, done: set<Path>)
    requires IsDir(src, from)
    ensures IsDir(start + PartCopy(src, from, to, done), to)
  {
    PartCopyAt(src, from, to, done, to);
    assert Rebase(to, to, from) == from && Reached(from, from);
  }
}
