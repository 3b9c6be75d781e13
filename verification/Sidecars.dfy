/** Asset sidecars: the `X.meta` beside an asset `X`, how missing ones are written and orphans deleted. */
module Sidecars {
  import opened FileTree

  /** The 32 hexadecimal digits of an asset id. */
  type Guid = s: string | |s| == 32 witness "00000000000000000000000000000000"

  const ASSETS: Path := ["assets"]

  /** `std::filesystem::path::extension() == extension`, for an extension whose only dot is its first character. */
  predicate HasExtension(name: Name, extension: string) {
    |name| > |extension| && name[|name| - |extension|..] == extension
  }

  predicate IsMetaName(name: Name) {
    HasExtension(name, ".meta")
  }

  function SiblingMeta(p: Path): (m: Path)
    requires p != []
    ensures m != [] && Parent(m) == Parent(p) && Leaf(m) == Leaf(p) + ".meta"
  {
    Parent(p) + [Leaf(p) + ".meta"]
  }

  /** The sidecar's path without its last extension. */
  function SourceOf(m: Path): (p: Path)
    requires m != [] && IsMetaName(Leaf(m))
    ensures p != [] && Leaf(p) != "" && SiblingMeta(p) == m
  {
    var leaf := Leaf(m);
    assert leaf == leaf[..|leaf| - 5] + ".meta";
    Parent(m) + [leaf[..|leaf| - 5]]
  }

  lemma SiblingMetaInjective(p: Path, q: Path)
    requires p != [] && q != [] && SiblingMeta(p) == SiblingMeta(q)
    ensures p == q
  {
    var a, b := Leaf(p), Leaf(q);
    assert a == (a + ".meta")[..|a|] && b == (b + ".meta")[..|b|];
    assert Parent(p) == Parent(q);
    assert p == Parent(p) + [a] && q == Parent(q) + [b];
  }

  lemma SourceOfSibling(p: Path)
    requires p != [] && Leaf(p) != ""
    ensures IsMetaName(Leaf(SiblingMeta(p))) && SourceOf(SiblingMeta(p)) == p
  {
    var leaf := Leaf(p) + ".meta";
    assert leaf[|leaf| - 5..] == ".meta";
    SiblingMetaInjective(p, SourceOf(SiblingMeta(p)));
  }

  lemma SiblingMetaApart(p: Path, d: Path)
    requires p != []
    ensures SiblingMeta(p) != p && !Inside(SiblingMeta(p), p) && !Inside(p, SiblingMeta(p))
    ensures Inside(SiblingMeta(p), d) <==> SiblingMeta(p) == d || Inside(Parent(p), d)
  {
    var m := SiblingMeta(p);
    assert |m| == |p| && Leaf(m) != Leaf(p);
    InsideParent(m, d);
  }

  // Which files get a sidecar, and what is in it.

  function ToLower(s: string): string {
    seq(|s|, i requires 0 <= i < |s| => if 'A' <= s[i] <= 'Z' then s[i] + ' ' else s[i])
  }

  predicate Skippable(name: Name) {
    || name == ""
    || name[0] == '.'
    || ToLower(name) in {"readme.md", "license", "copying", "ofl.txt", "catalog.toml"}
    || "license." <= ToLower(name)
    || HasExtension(name, ".md")
  }

  function Importer(name: Name): string {
    var lower := ToLower(name);
    if HasExtension(lower, ".png") then "texture"
    else if HasExtension(lower, ".wav") then "audio"
    else if HasExtension(lower, ".xml") then "ui"
    else if HasExtension(lower, ".css") then "css"
    else if HasExtension(lower, ".mat") then "material"
    else if HasExtension(lower, ".mesh") then "mesh"
    else if HasExtension(lower, ".shader") then "shader"
    else if HasExtension(lower, ".ttf") then "font"
    else if HasExtension(lower, ".anim") then "animation"
    else if HasExtension(lower, ".strings") then "strings"
    else if HasExtension(lower, ".world") then "world"
    else if HasExtension(lower, ".svg") then "svg"
    else if HasExtension(lower, ".object") then "object"
    else if HasExtension(lower, ".tilemap") then "tilemap"
    else if HasExtension(lower, ".prototype") then "prototype"
    else if HasExtension(lower, ".gltf") || HasExtension(lower, ".glb") then "model"
    else "data"
  }

  const GUID_HEAD := "guid = \""

  function MetaTail(name: Name): string {
    "\"\nimporter = \"" + Importer(name) + "\"\n" +
    if Importer(name) == "audio"
    then "bank = \"sfx\"\nvolume = 1.0\npitch_range = [1.0, 1.0]\nloop = false\n"
    else ""
  }

  /** `default_meta_text`: what a new sidecar holds. */
  function MetaText(guid: Guid, name: Name): string {
    GUID_HEAD + guid + MetaTail(name)
  }

  predicate LacksSidecar(t: Tree, p: Path) {
    && IsDir(t, ASSETS) && Inside(p, ASSETS) && p != ASSETS
    && IsFile(t, p) && !IsMetaName(Leaf(p)) && !Skippable(Leaf(p))
    && SiblingMeta(p) !in t
  }

  function Missing(t: Tree): set<Path> {
    set p | p in t && LacksSidecar(t, p)
  }

  function MissingMetas(t: Tree): set<Path> {
    set p | p in Missing(t) :: SiblingMeta(p)
  }

  lemma MissingMetasAt(t: Tree, m: Path)
    ensures m in MissingMetas(t) ==>
      m != [] && IsMetaName(Leaf(m)) && LacksSidecar(t, SourceOf(m)) && m !in t && Inside(m, ASSETS) && m != ASSETS
    ensures m != [] && IsMetaName(Leaf(m)) && LacksSidecar(t, SourceOf(m)) ==> m in MissingMetas(t)
  {
    if m in MissingMetas(t) {
      var p :| p in Missing(t) && SiblingMeta(p) == m;
      SourceOfSibling(p);
      InsideParent(p, ASSETS);
      InsideParent(m, ASSETS);
    }
    if m != [] && IsMetaName(Leaf(m)) && LacksSidecar(t, SourceOf(m)) {
      assert SourceOf(m) in Missing(t);
    }
  }

  function NewMeta(m: Path, g: Path -> Guid): Node {
    if m != [] && IsMetaName(Leaf(m)) then File(MetaText(g(SourceOf(m)), Leaf(SourceOf(m)))) else Dir
  }

  /** `write_missing_metas(root / "assets")`, where `g` is what the random generator draws for each file. */
  function WithMetas(t: Tree, g: Path -> Guid): Tree {
    t + map m | m in MissingMetas(t) :: NewMeta(m, g)
  }

  lemma WithMetasAt(t: Tree, g: Path -> Guid, p: Path)
    ensures p in WithMetas(t, g) <==> p in t || p in MissingMetas(t)
    ensures p in t ==> WithMetas(t, g)[p] == t[p]
    ensures p in MissingMetas(t) ==> WithMetas(t, g)[p] == NewMeta(p, g) && WithMetas(t, g)[p].File?
  {
    MissingMetasAt(t, p);
  }

  lemma WithMetasClosed(t: Tree, g: Path -> Guid)
    requires Closed(t)
    ensures Closed(WithMetas(t, g))
  {
    var w := WithMetas(t, g);
    forall p, d | p in w && Inside(p, d) && d != p
      ensures d in w && w[d] == Dir
    {
      if p !in t {
        MissingMetasAt(t, p);
        var s := SourceOf(p);
        InsideParent(p, d);
        InsideParent(s, d);
      }
    }
  }

  // Sync.

  predicate IsOrphan(t: Tree, m: Path) {
    && IsDir(t, ASSETS) && Inside(m, ASSETS) && m != ASSETS
    && IsFile(t, m) && IsMetaName(Leaf(m)) && SourceOf(m) !in t
  }

  function Orphans(t: Tree): set<Path> {
    set m | m in t && IsOrphan(t, m)
  }

  /** `sync_assets`: missing sidecars are written, then sidecars without a source are deleted. */
  function Synced(t: Tree, g: Path -> Guid): Tree {
    WithMetas(t, g) - Orphans(WithMetas(t, g))
  }

  lemma WithMetasNoneMissing(t: Tree, g: Path -> Guid)
    ensures Missing(WithMetas(t, g)) == {}
  {
    var w := WithMetas(t, g);
    forall p | p in w && LacksSidecar(w, p)
      ensures false
    {
      WithMetasAt(t, g, p);
      WithMetasAt(t, g, SiblingMeta(p));
      WithMetasAt(t, g, ASSETS);
      MissingMetasAt(t, p);
      MissingMetasAt(t, ASSETS);
    }
  }

  /** After a sync every asset file has its sidecar. */
  lemma SyncCoversEveryAsset(t: Tree, g: Path -> Guid)
    ensures Missing(Synced(t, g)) == {}
  {
    var w := WithMetas(t, g);
    var s := Synced(t, g);
    forall p | p in s && LacksSidecar(s, p)
      ensures false
    {
      WithMetasNoneMissing(t, g);
      assert p !in Missing(w);
      assert SiblingMeta(p) in Orphans(w);
      SourceOfSibling(p);
    }
  }

  lemma OrphanAt(t: Tree, g: Path -> Guid, m: Path)
    requires m in Orphans(WithMetas(t, g)) && IsFile(WithMetas(t, g), SiblingMeta(m))
    ensures SiblingMeta(m) in Orphans(Synced(t, g))
  {
    var w := WithMetas(t, g);
    var n := SiblingMeta(m);
    SourceOfSibling(m);
    SiblingMetaApart(m, ASSETS);
    InsideParent(m, ASSETS);
    assert n !in Orphans(w);
    assert !IsFile(w, ASSETS);
    assert IsDir(Synced(t, g), ASSETS);
  }

  lemma OrphanFrom(t: Tree, g: Path -> Guid, n: Path)
    requires n in Orphans(Synced(t, g))
    ensures IsMetaName(Leaf(n)) && SourceOf(n) in Orphans(WithMetas(t, g))
  {
    var w := WithMetas(t, g);
    assert n !in Orphans(w);
  }

  /** A sync leaves no sidecar without a source exactly when no sidecar it deletes is itself the source of one. */
  lemma SyncLeavesNoOrphan(t: Tree, g: Path -> Guid)
    ensures Orphans(Synced(t, g)) == {} <==>
            forall m | m in Orphans(WithMetas(t, g)) :: !IsFile(WithMetas(t, g), SiblingMeta(m))
  {
    var w := WithMetas(t, g);
    if m :| m in Orphans(w) && IsFile(w, SiblingMeta(m)) {
      OrphanAt(t, g, m);
    }
    if n :| n in Orphans(Synced(t, g)) {
      OrphanFrom(t, g, n);
      assert IsFile(w, SiblingMeta(SourceOf(n)));
    }
  }

  /** The concrete case the lemma above excludes: `x.meta` loses its source and takes the source of `x.meta.meta`. */
  lemma SyncCanLeaveAnOrphan(g: Path -> Guid)
    ensures exists t: Tree :: Closed(t) && Orphans(Synced(t, g)) != {}
  {
    var x, a, b := ["assets", "x"], ["assets", "x.meta"], ["assets", "x.meta.meta"];
    var t: Tree := map[[] := Dir, ASSETS := Dir, a := File(""), b := File("")];
    assert Parent(x) == Parent(a) == Parent(b) == ASSETS && Parent(ASSETS) == [];
    ClosedByParents(t);
    assert "x" + ".meta" == "x.meta" && "x.meta" + ".meta" == "x.meta.meta";
    assert SiblingMeta(x) == a && SiblingMeta(a) == b;
    SourceOfSibling(x);
    SourceOfSibling(a);
    assert Missing(t) == {};
    assert MissingMetas(t) == {};
    assert WithMetas(t, g) == t;
    assert a in Orphans(t) && IsFile(t, SiblingMeta(a));
    SyncLeavesNoOrphan(t, g);
  }

  /** Another sync changes nothing exactly when no sidecar the first one deleted was itself the source of one. */
  lemma SyncSettles(t: Tree, g: Path -> Guid, h: Path -> Guid)
    ensures Synced(Synced(t, g), h) == Synced(t, g) <==>
            forall m | m in Orphans(WithMetas(t, g)) :: !IsFile(WithMetas(t, g), SiblingMeta(m))
  {
    var s := Synced(t, g);
    SyncLeavesNoOrphan(t, g);
    SyncCoversEveryAsset(t, g);
    CoveredStays(s, h);
    WithoutOrphans(s);
  }

  lemma CoveredStays(s: Tree, h: Path -> Guid)
    requires Missing(s) == {}
    ensures WithMetas(s, h) == s
  {
    assert MissingMetas(s) == {};
  }

  lemma WithoutOrphans(s: Tree)
    ensures s - Orphans(s) == s <==> Orphans(s) == {}
  {
    if m :| m in Orphans(s) {
      assert m in s && m !in s - Orphans(s);
    }
  }
}
