/** A project directory: every path below it, and the file system operations the editor performs on it.

    A path is the sequence of its names, so `assets/ui/menu.xml` is `["assets", "ui", "menu.xml"]` and the
    project directory itself is `[]`.  There are no links.  An operation either succeeds or changes nothing. */
module FileTree {
  import opened Basics

  type Name = string
  type Path = seq<Name>
  datatype Node = Dir | File(bytes: string)
  type Tree = map<Path, Node>

  /** What a step left behind: whether it succeeded, and the tree afterwards. */
  datatype Ran = Ran(ok: bool, tree: Tree)

  function Parent(p: Path): Path
    requires p != []
  {
    p[..|p| - 1]
  }

  function Leaf(p: Path): Name
    requires p != []
  {
    p[|p| - 1]
  }

  /** `p` is `d` or lies below it. */
  predicate Inside(p: Path, d: Path) {
    d <= p
  }

  /** Every ancestor of a path is a directory of the tree. */
  ghost predicate Closed(t: Tree) {
    && [] in t
    && forall p, d :: p in t && Inside(p, d) && d != p ==> d in t && t[d] == Dir
  }

  predicate IsDir(t: Tree, p: Path) {
    p in t && t[p].Dir?
  }

  predicate IsFile(t: Tree, p: Path) {
    p in t && t[p].File?
  }

  function ReadText(t: Tree, p: Path): Option<string> {
    if IsFile(t, p) then Some(t[p].bytes) else None
  }

  /** The two trees have the same thing, or nothing, at `p`. */
  predicate SameAt(a: Tree, b: Tree, p: Path) {
    (p in a <==> p in b) && (p in a ==> a[p] == b[p])
  }

  lemma SameEverywhere(a: Tree, b: Tree)
    requires forall p :: SameAt(a, b, p)
    ensures a == b
  {
    forall p
      ensures p in a <==> p in b
      ensures p in a ==> a[p] == b[p]
    {
      assert SameAt(a, b, p);
    }
  }

  // Prefix facts.

  lemma InsideParent(p: Path, d: Path)
    requires p != []
    ensures Inside(p, Parent(p))
    ensures Inside(p, d) && p != d ==> Inside(Parent(p), d)
    ensures Inside(Parent(p), d) ==> Inside(p, d)
  {
  }

  lemma InsideTransitive(a: Path, b: Path, c: Path)
    requires Inside(a, b) && Inside(b, c)
    ensures Inside(a, c)
  {
  }

  lemma InsideBoth(p: Path, a: Path, b: Path)
    requires Inside(p, a) && Inside(p, b)
    ensures Inside(a, b) || Inside(b, a)
  {
    assert a == p[..|a|] && b == p[..|b|];
    if |a| <= |b| {
      assert b[..|a|] == a;
    } else {
      assert a[..|b|] == b;
    }
  }

  lemma ParentIsDir(t: Tree, p: Path)
    requires Closed(t) && p in t && p != []
    ensures IsDir(t, Parent(p))
  {
    InsideParent(p, p);
  }

  /** Closedness needs checking one level at a time only. */
  lemma ClosedByParents(t: Tree)
    requires [] in t
    requires forall p | p in t && p != [] :: IsDir(t, Parent(p))
    ensures Closed(t)
  {
    forall p, d | p in t && Inside(p, d) && d != p
      ensures d in t && t[d] == Dir
    {
      AncestorIsDir(t, p, d);
    }
  }

  lemma {:induction false} AncestorIsDir(t: Tree, p: Path, d: Path)
    requires forall p | p in t && p != [] :: IsDir(t, Parent(p))
    requires p in t && Inside(p, d) && d != p
    ensures IsDir(t, d)
  {
    if Parent(p) != d {
      InsideParent(p, d);
      AncestorIsDir(t, Parent(p), d);
    }
  }

  // Moving a path from one place to another.

  function Rebase(p: Path, a: Path, b: Path): (q: Path)
    requires Inside(p, a)
    ensures Inside(q, b) && |q| == |b| + |p| - |a|
  {
    b + p[|a|..]
  }

  lemma RebaseInverse(p: Path, a: Path, b: Path)
    requires Inside(p, a)
    ensures Rebase(Rebase(p, a, b), b, a) == p
  {
    assert a + p[|a|..] == p;
  }

  lemma RebaseInside(p: Path, d: Path, a: Path, b: Path)
    requires Inside(p, a) && Inside(d, a)
    ensures Inside(p, d) <==> Inside(Rebase(p, a, b), Rebase(d, a, b))
  {
    var q, e := Rebase(p, a, b), Rebase(d, a, b);
    if Inside(p, d) {
      assert q[..|e|] == e;
    }
    if Inside(q, e) {
      RebaseInverse(p, a, b);
      RebaseInverse(d, a, b);
      assert p == a + q[|b|..] && d == a + e[|b|..];
      assert p[..|d|] == d;
    }
  }

  lemma RebaseParent(p: Path, a: Path, b: Path)
    requires Inside(p, a) && p != a
    ensures Inside(Parent(p), a)
    ensures Rebase(p, a, b) != [] && Parent(Rebase(p, a, b)) == Rebase(Parent(p), a, b)
    ensures Leaf(Rebase(p, a, b)) == Leaf(p)
  {
    assert Parent(p)[|a|..] == p[|a|..][..|p| - |a| - 1];
  }

  // The operations.

  /** `remove_all`: the tree without `p` and everything below it. */
  function Without(t: Tree, p: Path): Tree {
    map q | q in t && !Inside(q, p) :: t[q]
  }

  /** Everything at or below `from`, seen at `to`. */
  function Grafted(t: Tree, from: Path, to: Path): Tree {
    map q | q in (set p | p in t && Inside(p, from) :: Rebase(p, from, to)) && Inside(q, to) && Rebase(q, to, from) in t
      :: t[Rebase(q, to, from)]
  }

  lemma GraftedAt(t: Tree, from: Path, to: Path, q: Path)
    ensures q in Grafted(t, from, to) <==> Inside(q, to) && Rebase(q, to, from) in t
    ensures q in Grafted(t, from, to) ==> Grafted(t, from, to)[q] == t[Rebase(q, to, from)]
  {
    if Inside(q, to) && Rebase(q, to, from) in t {
      RebaseInverse(q, to, from);
      assert q == Rebase(Rebase(q, to, from), from, to);
    }
  }

  function Moved(t: Tree, from: Path, to: Path): Tree {
    Without(Without(t, from), to) + Grafted(t, from, to)
  }

  lemma MovedAt(t: Tree, from: Path, to: Path, q: Path)
    ensures Inside(q, to) ==> (q in Moved(t, from, to) <==> Rebase(q, to, from) in t)
    ensures Inside(q, to) && q in Moved(t, from, to) ==> Moved(t, from, to)[q] == t[Rebase(q, to, from)]
    ensures !Inside(q, to) ==> (q in Moved(t, from, to) <==> q in t && !Inside(q, from))
    ensures !Inside(q, to) && q in Moved(t, from, to) ==> Moved(t, from, to)[q] == t[q]
  {
    GraftedAt(t, from, to, q);
  }

  /** When POSIX `rename` succeeds: the target's folder exists, a folder does not go into itself, and an existing
      target is a file under a file, or an empty folder under a folder. */
  predicate CanRename(t: Tree, from: Path, to: Path) {
    && from in t && from != []
    && to != [] && IsDir(t, Parent(to))
    && (to == from || !Inside(to, from))
    && (to == from || to !in t
        || (t[from].File? && t[to].File?)
        || (t[from].Dir? && t[to].Dir? && forall q | q in t :: Inside(q, to) ==> q == to))
  }

  function Rename(t: Tree, from: Path, to: Path): Ran {
    if CanRename(t, from, to) then Ran(true, Moved(t, from, to)) else Ran(false, t)
  }

  /** `p` and its ancestors, the project directory included. */
  function Prefixes(p: Path): set<Path> {
    set k | 0 <= k <= |p| :: p[..k]
  }

  lemma PrefixesAt(p: Path, d: Path)
    ensures d in Prefixes(p) <==> Inside(p, d)
  {
    if Inside(p, d) {
      assert d == p[..|d|];
    }
  }

  predicate CanMkDirs(t: Tree, p: Path) {
    forall d | d in Prefixes(p) :: !IsFile(t, d)
  }

  /** `create_directories`: `p` and every missing ancestor. */
  function MkDirs(t: Tree, p: Path): Ran {
    if CanMkDirs(t, p) then Ran(true, t + map d | d in Prefixes(p) :: Dir) else Ran(false, t)
  }

  lemma MkDirsAt(t: Tree, p: Path, q: Path)
    ensures MkDirs(t, p).ok ==> (q in MkDirs(t, p).tree <==> q in t || Inside(p, q))
    ensures MkDirs(t, p).ok && Inside(p, q) ==> MkDirs(t, p).tree[q] == Dir
    ensures MkDirs(t, p).ok && q in t ==> MkDirs(t, p).tree[q] == t[q]
  {
    PrefixesAt(p, q);
  }

  predicate CanWrite(t: Tree, p: Path) {
    p != [] && IsDir(t, Parent(p)) && !IsDir(t, p)
  }

  /** `write_text`: creates or truncates a file in a folder that exists. */
  function WriteText(t: Tree, p: Path, text: string): Ran {
    if CanWrite(t, p) then Ran(true, t[p := File(text)]) else Ran(false, t)
  }

  /** `remove`: one file or one empty folder. */
  function RemoveOne(t: Tree, p: Path): Tree {
    if p in t && (t[p].File? || forall q | q in t :: Inside(q, p) ==> q == p) then t - {p} else t
  }

  lemma {:induction false} MovedBack(t: Tree, from: Path, to: Path)
    requires Closed(t) && to !in t
    requires !Inside(to, from)
    ensures Moved(Moved(t, from, to), to, from) == t
  {
    var m := Moved(t, from, to);
    var r := Moved(m, to, from);
    forall q
      ensures q in r <==> q in t
      ensures q in t ==> r[q] == t[q]
    {
      MovedAt(m, to, from, q);
      if Inside(q, from) {
        MovedAt(t, from, to, Rebase(q, from, to));
        RebaseInverse(q, from, to);
      } else {
        MovedAt(t, from, to, q);
      }
    }
  }

  lemma MovedClosed(t: Tree, from: Path, to: Path)
    requires Closed(t) && CanRename(t, from, to)
    ensures Closed(Moved(t, from, to))
  {
    var m := Moved(t, from, to);
    if Inside([], to) || Inside([], from) {
      assert false;
    }
    MovedAt(t, from, to, []);
    forall p, d | p in m && Inside(p, d) && d != p
      ensures d in m && m[d] == Dir
    {
      MovedAt(t, from, to, p);
      MovedAt(t, from, to, d);
      if Inside(p, to) {
        if Inside(d, to) {
          RebaseInside(p, d, to, from);
          RebaseInverse(p, to, from);
          RebaseInverse(d, to, from);
        } else {
          InsideBoth(p, d, to);
          InsideParent(to, d);
          assert Inside(Parent(to), d);
          if Inside(d, from) {
            InsideTransitive(to, d, from);
            assert false;
          }
        }
      } else {
        if Inside(d, from) {
          InsideTransitive(p, d, from);
        }
        if Inside(d, to) {
          InsideTransitive(p, d, to);
        }
      }
    }
  }
}
