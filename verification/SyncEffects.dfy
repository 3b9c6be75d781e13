/** What a sync of the asset files does to every path, and which files it takes for assets. */
module SyncEffects {
  import opened FileTree
  import opened Sidecars

  predicate Ends(name: Name, ending: string) {
    |name| > |ending| && name[|name| - |ending|..] == ending
  }

  /** A name an asset file has: not hidden, not a sidecar, and none of the texts that come with a folder of assets. */
  predicate AssetName(name: Name) {
    var lower := ToLower(name);
    && name != "" && name[0] != '.' && !Ends(name, ".meta") && !Ends(name, ".md")
    && lower != "readme.md" && lower != "license" && lower != "copying" && lower != "ofl.txt" && lower != "catalog.toml"
    && (|lower| < 8 || lower[..8] != "license.")
  }

  /** An asset file below a folder `assets`. */
  predicate IsAsset(t: Tree, p: Path) {
    ["assets"] in t && t[["assets"]].Dir? && |p| >= 2 && p[0] == "assets" && p in t && t[p].File?
    && AssetName(p[|p| - 1])
  }

  function Beside(p: Path): Path
    requires p != []
  {
    p[..|p| - 1] + [p[|p| - 1] + ".meta"]
  }

  /** The sidecars a sync writes. */
  ghost predicate Added(t: Tree, q: Path) {
    q !in t && exists p :: p in t && p != [] && IsAsset(t, p) && q == Beside(p)
  }

  /** A sidecar below `assets` without its source beside it, be it there before or just written. */
  ghost predicate Stray(t: Tree, q: Path) {
    ["assets"] in t && t[["assets"]].Dir? && |q| >= 2 && q[0] == "assets" && q in t && t[q].File?
    && Ends(q[|q| - 1], ".meta")
    && var source := q[..|q| - 1] + [q[|q| - 1][..|q[|q| - 1]| - 5]]; source !in t && !Added(t, source)
  }

  lemma LicenseStart(lower: string)
    ensures "license." <= lower <==> |lower| >= 8 && lower[..8] == "license."
  {
  }

  lemma AssetNameIs(name: Name)
    ensures AssetName(name) <==> !IsMetaName(name) && !Skippable(name)
  {
    hide ToLower;
    LicenseStart(ToLower(name));
  }

  lemma AssetIs(t: Tree, p: Path)
    requires p != [] && Beside(p) !in t
    ensures p in t && IsAsset(t, p) <==> p in Missing(t)
  {
    hide Skippable, AssetName, IsMetaName;
    AssetNameIs(p[|p| - 1]);
    assert Beside(p) == SiblingMeta(p);
  }

  lemma AddedIs(t: Tree, q: Path)
    ensures Added(t, q) <==> q in MissingMetas(t)
  {
    hide IsAsset, LacksSidecar;
    if Added(t, q) {
      var p :| p in t && p != [] && IsAsset(t, p) && q == Beside(p);
      AssetIs(t, p);
      assert q == SiblingMeta(p);
    }
    if q in MissingMetas(t) {
      MissingMetasAt(t, q);
      var p := SourceOf(q);
      FromMissing(t, p);
      AssetIs(t, p);
    }
  }

  lemma NotTop(t: Tree, p: Path)
    requires IsAsset(t, p)
    ensures p != []
  {
  }

  lemma FromMissing(t: Tree, p: Path)
    requires p != [] && LacksSidecar(t, p)
    ensures p in Missing(t) && Beside(p) !in t && Beside(p) == SiblingMeta(p)
  {
  }

  /** A sync writes a sidecar beside each asset file that has none, removes the strays, and leaves every other path as
      it was. */
  lemma SyncEffect(t: Tree, g: Path -> Guid, q: Path)
    ensures var u := Synced(t, g);
      && (q in u <==> (q in t && !Stray(t, q)) || Added(t, q))
      && (q in u && q in t ==> u[q] == t[q])
  {
    hide MissingMetas, Missing, Added, IsAsset;
    var w := WithMetas(t, g);
    WithMetasAt(t, g, q);
    MissingMetasAt(t, q);
    AddedIs(t, q);
    AssetsStay(t, g);
    if |q| >= 2 && Ends(q[|q| - 1], ".meta") {
      var source := SourceOf(q);
      WithMetasAt(t, g, source);
      AddedIs(t, source);
      assert source == q[..|q| - 1] + [q[|q| - 1][..|q[|q| - 1]| - 5]];
    }
    if Added(t, q) {
      SourceIsThere(t, g, q);
    }
  }

  lemma AssetsStay(t: Tree, g: Path -> Guid)
    ensures IsDir(WithMetas(t, g), ASSETS) <==> IsDir(t, ASSETS)
  {
    WithMetasAt(t, g, ASSETS);
    MissingMetasAt(t, ASSETS);
  }

  lemma SourceIsThere(t: Tree, g: Path -> Guid, q: Path)
    requires q in MissingMetas(t)
    ensures q !in Orphans(WithMetas(t, g))
  {
    MissingMetasAt(t, q);
    WithMetasAt(t, g, SourceOf(q));
  }

  // What a new sidecar says.

  /** A sidecar written for an asset names its GUID and how it is imported. */
  lemma NewSidecarText(t: Tree, g: Path -> Guid, p: Path)
    requires p in t && IsAsset(t, p) && Beside(p) !in t
    ensures var tail := if Importer(p[|p| - 1]) == "audio"
        then "bank = \"sfx\"\nvolume = 1.0\npitch_range = [1.0, 1.0]\nloop = false\n" else "";
      Beside(p) in Synced(t, g)
      && Synced(t, g)[Beside(p)]
         == File("guid = \"" + (g(p) + ("\"\nimporter = \"" + (Importer(p[|p| - 1]) + ("\"\n" + tail)))))
  {
    hide Importer, IsAsset, Skippable;
    NotTop(t, p);
    assert Added(t, Beside(p));
    SyncEffect(t, g, Beside(p));
    AddedIs(t, Beside(p));
    WithMetasAt(t, g, Beside(p));
    assert Beside(p) == SiblingMeta(p);
    MissingMetasAt(t, Beside(p));
    SiblingMetaInjective(p, SourceOf(Beside(p)));
  }

  /** A dot, then no other dot. */
  predicate Dotted(e: string) {
    e != "" && e[0] == '.' && forall i | 1 <= i < |e| :: e[i] != '.'
  }

  lemma OneEnding(a: string, l: string, e: string)
    requires a != "" && Dotted(l) && Dotted(e)
    ensures HasExtension(a + l, e) <==> l == e
  {
    var s := a + l;
    if HasExtension(s, e) {
      assert s[|s| - |e|] == e[0] && s[|a|] == l[0];
      assert forall k | |a| <= k < |s| :: s[k] == l[k - |a|];
      assert forall k | |s| - |e| <= k < |s| :: s[k] == e[k - |s| + |e|];
      assert s[|a|..] == l;
    } else {
      assert s[|a|..] == l;
    }
  }

  /** The importer that goes with an ending. */
  function EndingKind(l: string): string {
    if l == ".png" then "texture"
    else if l == ".wav" then "audio"
    else if l == ".xml" then "ui"
    else if l == ".css" then "css"
    else if l == ".mat" then "material"
    else if l == ".mesh" then "mesh"
    else if l == ".shader" then "shader"
    else if l == ".ttf" then "font"
    else if l == ".anim" then "animation"
    else if l == ".strings" then "strings"
    else if l == ".world" then "world"
    else if l == ".svg" then "svg"
    else if l == ".object" then "object"
    else if l == ".tilemap" then "tilemap"
    else if l == ".prototype" then "prototype"
    else if l == ".gltf" || l == ".glb" then "model"
    else "data"
  }

  lemma EndingsDotted()
    ensures Dotted(".png") && Dotted(".wav") && Dotted(".xml") && Dotted(".css") && Dotted(".mat") && Dotted(".mesh")
    ensures Dotted(".shader") && Dotted(".ttf") && Dotted(".anim") && Dotted(".strings") && Dotted(".world")
    ensures Dotted(".svg") && Dotted(".object") && Dotted(".tilemap") && Dotted(".prototype") && Dotted(".gltf")
    ensures Dotted(".glb")
  {
  }

  lemma LowerJoins(a: string, b: string)
    ensures ToLower(a + b) == ToLower(a) + ToLower(b)
  {
  }

  /** The importer goes by the ending of the name, in any case. */
  lemma ImporterByEnding(stem: string, ending: string)
    requires stem != "" && Dotted(ToLower(ending))
    ensures Importer(stem + ending) == EndingKind(ToLower(ending))
  {
    hide ToLower, HasExtension, Dotted;
    LowerJoins(stem, ending);
    EndingsDotted();
    var a, l := ToLower(stem), ToLower(ending);
    assert a != "" by {
      LowerCase(stem);
    }
    OneEnding(a, l, ".png");
    OneEnding(a, l, ".wav");
    OneEnding(a, l, ".xml");
    OneEnding(a, l, ".css");
    OneEnding(a, l, ".mat");
    OneEnding(a, l, ".mesh");
    OneEnding(a, l, ".shader");
    OneEnding(a, l, ".ttf");
    OneEnding(a, l, ".anim");
    OneEnding(a, l, ".strings");
    OneEnding(a, l, ".world");
    OneEnding(a, l, ".svg");
    OneEnding(a, l, ".object");
    OneEnding(a, l, ".tilemap");
    OneEnding(a, l, ".prototype");
    OneEnding(a, l, ".gltf");
    OneEnding(a, l, ".glb");
  }

  /** Names are compared in lower case, ASCII letters only. */
  lemma LowerCase(s: string)
    ensures |ToLower(s)| == |s|
    ensures forall i | 0 <= i < |s| ::
      ToLower(s)[i] as int == s[i] as int + if 65 <= s[i] as int <= 90 then 32 else 0
  {
  }
}
