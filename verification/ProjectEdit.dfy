/** One undoable edit of the project tree: what `apply`, `revert` and `matches_one` do to it, as functions.

    The methods of `ProjectStep` are proved to compute these functions; the theorems are in `EditRoundTrip`. */
module ProjectEdit {
  import opened Basics
  import opened FileTree
  import opened Sidecars

  datatype Kind = Relocate | Copy | CreateFile | CreateDir | Delete

  /** A file or folder below a deleted folder, by its path relative to that folder. */
  datatype StoredFile = StoredFile(relative: Path, directory: bool, bytes: string)

  /** A sidecar a step recorded.  `guid` is empty when the text has none. */
  datatype MetaExpect = MetaExpect(sibling: bool, relative: Path, guid: string, text: string)

  datatype Edit = Edit(
    kind: Kind, from: Path, to: Path, bytes: string,
    files: seq<StoredFile>, metas: seq<MetaExpect>, applied: bool)

  /** The GUID a sidecar text parses to, empty when it does not parse. */
  type GuidReader = string -> string

  // What a step records.

  function MetaFile(asset: Path, meta: MetaExpect): Path
    requires asset != []
  {
    if meta.sibling then SiblingMeta(asset) else asset + meta.relative
  }

  /** The sidecars `collect_metas` looks for: the one beside the asset and every one below it. */
  predicate IsSidecarOf(t: Tree, asset: Path, p: Path)
    requires asset != []
  {
    && IsFile(t, p)
    && (p == SiblingMeta(asset) || (Inside(p, asset) && p != asset && IsMetaName(Leaf(p))))
  }

  predicate RecordsMeta(t: Tree, asset: Path, meta: MetaExpect, guidOf: GuidReader)
    requires asset != []
  {
    && (meta.sibling <==> MetaFile(asset, meta) == SiblingMeta(asset))
    && IsSidecarOf(t, asset, MetaFile(asset, meta))
    && meta.text == t[MetaFile(asset, meta)].bytes
    && meta.guid == guidOf(meta.text)
  }

  /** `metas` is what `collect_metas` finds: every sidecar of `asset`, once. */
  ghost predicate Collected(t: Tree, asset: Path, metas: seq<MetaExpect>, guidOf: GuidReader)
    requires asset != []
  {
    && (forall i | 0 <= i < |metas| :: RecordsMeta(t, asset, metas[i], guidOf))
    && (forall p | p in t && IsSidecarOf(t, asset, p) :: exists i :: 0 <= i < |metas| && MetaFile(asset, metas[i]) == p)
    && (forall i, j | 0 <= i < j < |metas| :: MetaFile(asset, metas[i]) != MetaFile(asset, metas[j]))
  }

  /** `p` is at or below `root`, and no name between them is a sidecar name: `capture_tree` and `copy_tree` reach it. */
  predicate Reached(root: Path, p: Path) {
    Inside(p, root) && forall i | |root| <= i < |p| :: !IsMetaName(p[i])
  }

  predicate RecordsFile(t: Tree, root: Path, top: Path, file: StoredFile) {
    var p := root + file.relative;
    && p in t && Reached(top, p)
    && file.directory == t[p].Dir?
    && file.bytes == (if t[p].Dir? then "" else t[p].bytes)
  }

  /** `files` is what `capture_tree` finds from `top` down, named relative to `root`: everything reached, once,
      folders before what is in them. */
  ghost predicate CapturedFrom(t: Tree, root: Path, top: Path, files: seq<StoredFile>) {
    && (forall i | 0 <= i < |files| :: RecordsFile(t, root, top, files[i]))
    && (forall p | p in t && Reached(top, p) :: exists i :: 0 <= i < |files| && root + files[i].relative == p)
    && (forall i, j | 0 <= i < j < |files| :: !Inside(files[i].relative, files[j].relative))
  }

  ghost predicate Captured(t: Tree, root: Path, files: seq<StoredFile>) {
    CapturedFrom(t, root, root, files)
  }

  /** What `apply` leaves in the step that took the tree from `t` to `u`. */
  ghost predicate Recorded(e: Edit, t: Tree, u: Tree, guidOf: GuidReader)
    requires WellMade(e)
  {
    && e.applied
    && match e.kind
       case Delete =>
         && e.from in t
         && (if t[e.from].Dir? then Captured(t, e.from, e.files) else e.files == [] && e.bytes == t[e.from].bytes)
         && Collected(t, e.from, e.metas, guidOf)
       case CreateDir => true
       case _ => Collected(u, e.to, e.metas, guidOf)
  }

  // Apply.

  /** What every factory established before it built the edit. */
  predicate WellMade(e: Edit) {
    match e.kind
    case Delete => e.from != []
    case CreateFile => e.to != []
    case CreateDir => e.to != []
    case Relocate => e.from != [] && e.to != [] && e.from != e.to && !Inside(e.to, e.from)
    case Copy => e.from != [] && e.to != [] && !Inside(e.to, e.from) && !Inside(e.from, e.to)
  }

  function RelocatePair(t: Tree, from: Path, to: Path): Ran
    requires from != [] && to != []
  {
    var main := Rename(t, from, to);
    if !main.ok || SiblingMeta(from) !in t then main
    else
      var side := Rename(main.tree, SiblingMeta(from), SiblingMeta(to));
      if side.ok then side else Ran(false, Rename(main.tree, to, from).tree)
  }

  function CopiedTree(t: Tree, from: Path, to: Path): Tree {
    map q | q in Grafted(t, from, to) && Reached(to, q) :: Grafted(t, from, to)[q]
  }

  /** No copied file meets something that is there, and no copied folder meets a file. */
  predicate CanCopy(t: Tree, from: Path, to: Path) {
    && from in t && to != [] && IsDir(t, Parent(to))
    && forall q | q in CopiedTree(t, from, to) :: q !in t || (t[q].Dir? && CopiedTree(t, from, to)[q].Dir?)
  }

  /** Where a created file makes the editor look for missing sidecars. */
  predicate SyncsAfterCreate(to: Path) {
    to != [] && to[0] == "assets"
  }

  /** The same test for a copy, which the source writes on the text of the parent key. */
  predicate SyncsAfterCopy(to: Path) {
    |to| >= 2 && "assets" <= to[0]
  }

  function Deleted(t: Tree, from: Path): Tree
    requires from != []
  {
    Without(t, from) - (if IsFile(t, SiblingMeta(from)) then {SiblingMeta(from)} else {})
  }

  /** The step forwards; `g` is what the generator draws for each sidecar that gets written. */
  function Apply(e: Edit, t: Tree, g: Path -> Guid): Ran
    requires WellMade(e)
  {
    match e.kind
    case Delete =>
      if e.from in t then Ran(true, Deleted(t, e.from)) else Ran(false, t)
    case CreateDir =>
      if IsDir(t, Parent(e.to)) && e.to !in t then Ran(true, t[e.to := Dir]) else Ran(false, t)
    case CreateFile =>
      if CanWrite(t, e.to) then Ran(true, AfterCreate(e, t, g)) else Ran(false, t)
    case Relocate =>
      if e.from in t then RelocatePair(t, e.from, e.to) else Ran(false, t)
    case Copy =>
      if e.from !in t then Ran(false, t)
      else if CanCopy(t, e.from, e.to) then Ran(true, AfterCopy(e, t, g))
      else Ran(false, Without(t, e.to))
  }

  function AfterCreate(e: Edit, t: Tree, g: Path -> Guid): Tree {
    var u := t[e.to := File(e.bytes)];
    if SyncsAfterCreate(e.to) then WithMetas(u, g) else u
  }

  function AfterCopy(e: Edit, t: Tree, g: Path -> Guid): Tree {
    var u := t + CopiedTree(t, e.from, e.to);
    if SyncsAfterCopy(e.to) then WithMetas(u, g) else u
  }

  // Revert.

  function RestoreFile(t: Tree, asset: Path, file: StoredFile): Ran
    requires asset != []
  {
    var dest := asset + file.relative;
    if file.directory then MkDirs(t, dest)
    else
      var made := MkDirs(t, Parent(dest));
      if made.ok then WriteText(made.tree, dest, file.bytes) else made
  }

  function RestoreFiles(t: Tree, asset: Path, files: seq<StoredFile>): Ran
    requires asset != []
    decreases |files|
  {
    if files == [] then Ran(true, t)
    else
      var r := RestoreFile(t, asset, files[0]);
      if r.ok then RestoreFiles(r.tree, asset, files[1..]) else r
  }

  function RestoreMeta(t: Tree, asset: Path, meta: MetaExpect): Ran
    requires asset != []
  {
    var dest := MetaFile(asset, meta);
    if meta.text == "" then Ran(true, t)
    else
      var made := MkDirs(t, Parent(dest));
      if made.ok then WriteText(made.tree, dest, meta.text) else made
  }

  function RestoreMetas(t: Tree, asset: Path, metas: seq<MetaExpect>): Ran
    requires asset != []
    decreases |metas|
  {
    if metas == [] then Ran(true, t)
    else
      var r := RestoreMeta(t, asset, metas[0]);
      if r.ok then RestoreMetas(r.tree, asset, metas[1..]) else r
  }

  function RestoreDeleted(t: Tree, asset: Path, e: Edit): Ran
    requires asset != []
  {
    var files := if e.files == [] then WriteText(t, asset, e.bytes) else RestoreFiles(t, asset, e.files);
    if files.ok then RestoreMetas(files.tree, asset, e.metas) else files
  }

  /** Removes recorded sidecars: all of them, or only the one beside the asset. */
  function DropMetas(t: Tree, asset: Path, metas: seq<MetaExpect>, siblingOnly: bool): Tree
    requires asset != []
    decreases |metas|
  {
    if metas == [] then t
    else
      var rest := if siblingOnly && !metas[0].sibling then t else RemoveOne(t, MetaFile(asset, metas[0]));
      DropMetas(rest, asset, metas[1..], siblingOnly)
  }

  /** `metas_match`: a sidecar with a GUID must still have it, any other must have the same text. */
  predicate MetasMatch(t: Tree, asset: Path, metas: seq<MetaExpect>, guidOf: GuidReader)
    requires asset != []
  {
    forall i | 0 <= i < |metas| :: MetaMatches(t, MetaFile(asset, metas[i]), metas[i], guidOf)
  }

  predicate MetaMatches(t: Tree, p: Path, meta: MetaExpect, guidOf: GuidReader) {
    && IsFile(t, p)
    && if meta.guid == "" then t[p].bytes == meta.text else guidOf(t[p].bytes) == meta.guid
  }

  /** The step backwards. */
  function Revert(e: Edit, t: Tree, guidOf: GuidReader): Ran
    requires WellMade(e)
  {
    match e.kind
    case Delete =>
      if e.from in t then Ran(false, t)
      else
        var r := RestoreDeleted(t, e.from, e);
        if r.ok then r else Ran(false, DropMetas(Without(r.tree, e.from), e.from, e.metas, true))
    case CreateDir =>
      if IsDir(t, e.to) && forall q | q in t :: Inside(q, e.to) ==> q == e.to then Ran(true, t - {e.to})
      else Ran(false, t)
    case CreateFile =>
      if ReadText(t, e.to) == Some(e.bytes) && MetasMatch(t, e.to, e.metas, guidOf)
      then Ran(true, DropMetas(t - {e.to}, e.to, e.metas, false))
      else Ran(false, t)
    case Copy =>
      Ran(true, DropMetas(Without(t, e.to), e.to, e.metas, false))
    case Relocate =>
      RelocatePair(t, e.to, e.from)
  }

  // Valid.

  predicate FileMatches(t: Tree, root: Path, file: StoredFile) {
    var p := root + file.relative;
    if file.directory then IsDir(t, p) else ReadText(t, p) == Some(file.bytes)
  }

  /** `matches_one`: the tree is as the step left it, applied or reverted. */
  predicate Matches(e: Edit, t: Tree, guidOf: GuidReader)
    requires WellMade(e)
  {
    match e.kind
    case Delete =>
      if e.applied then e.from !in t && forall i | 0 <= i < |e.metas| :: MetaFile(e.from, e.metas[i]) !in t
      else
        && e.from in t
        && (if e.files == [] then ReadText(t, e.from) == Some(e.bytes)
            else forall i | 0 <= i < |e.files| :: FileMatches(t, e.from, e.files[i]))
        && MetasMatch(t, e.from, e.metas, guidOf)
    case Relocate =>
      var here := if e.applied then e.to else e.from;
      var there := if e.applied then e.from else e.to;
      here in t && there !in t && MetasMatch(t, here, e.metas, guidOf)
    case CreateDir =>
      if e.applied then IsDir(t, e.to) else e.to !in t
    case CreateFile =>
      if e.applied then ReadText(t, e.to) == Some(e.bytes) && MetasMatch(t, e.to, e.metas, guidOf)
      else e.to !in t
    case Copy =>
      if e.applied then e.to in t && MetasMatch(t, e.to, e.metas, guidOf) else e.to !in t
  }
}
