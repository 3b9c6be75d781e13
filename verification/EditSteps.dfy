/** The step methods and the four factories, on the disk.  The disk and the step end exactly where `Apply`, `Revert`
    and `Matches` say. */
module EditSteps {
  import opened Basics
  import opened FileTree
  import opened Sidecars
  import opened ProjectEdit
  import opened EditRoundTrip
  import opened EditTheorems
  import opened FailedSteps
  import opened ProjectStep
  import C = CopyTree

  method MoveWithMeta(disk: Disk, from: Path, to: Path) returns (ok: bool)
    requires from != [] && to != []
    modifies disk
    ensures Ran(ok, disk.tree) == RelocatePair(old(disk.tree), from, to)
  {
    var meta := SiblingMeta(from) in disk.tree;
    ok := disk.RenamePath(from, to);
    if !ok {
      return;
    }
    if meta {
      ok := disk.RenamePath(SiblingMeta(from), SiblingMeta(to));
      if !ok {
        var _ := disk.RenamePath(to, from);
      }
    }
  }

  /** `ProjectStep::apply`: runs the step and records in it what the reverse step needs. */
  method ApplyStep(disk: Disk, edit: Edit, g: Path -> Guid, guidOf: GuidReader) returns (ok: bool, out: Edit)
    requires Closed(disk.tree) && WellMade(edit)
    modifies disk
    ensures Ran(ok, disk.tree) == Apply(edit, old(disk.tree), g)
    ensures SameStep(out, edit) && WellMade(out) && (!ok ==> out == edit)
    ensures ok ==> Recorded(out, old(disk.tree), disk.tree, guidOf)
  {
    ghost var t := disk.tree;
    out := edit;
    match edit.kind {
      case Delete =>
        ok := edit.from in disk.tree;
        if !ok {
          return;
        }
        var directory := IsDir(disk.tree, edit.from);
        var files: seq<StoredFile> := [];
        var bytes := "";
        if directory {
          files := CaptureTree(disk.tree, edit.from, [], edit.from);
        } else {
          bytes := disk.tree[edit.from].bytes;
        }
        var metas := CollectMetas(disk.tree, edit.from, directory, guidOf);
        disk.RemoveAll(edit.from);
        DropMetasLoop(disk, edit.from, metas, true);
        DropCollected(t, edit.from, metas, guidOf, true);
        out := edit.(files := files, bytes := bytes, metas := metas, applied := true);
      case CreateDir =>
        ok := IsDir(disk.tree, Parent(edit.to)) && edit.to !in disk.tree;
        if ok {
          disk.tree := disk.tree[edit.to := Dir];
          out := edit.(applied := true);
        }
      case CreateFile =>
        ok := disk.WriteFile(edit.to, edit.bytes);
        if ok {
          if SyncsAfterCreate(edit.to) {
            var _ := WriteMissingMetas(disk, g);
          }
          ApplyClosed(edit, t, g);
          assert IsFile(disk.tree, edit.to) by {
            WithMetasAt(t[edit.to := File(edit.bytes)], g, edit.to);
          }
          var metas := CollectMetas(disk.tree, edit.to, false, guidOf);
          out := edit.(metas := metas, applied := true);
        }
      case Relocate =>
        ok := edit.from in disk.tree;
        if !ok {
          return;
        }
        ok := MoveWithMeta(disk, edit.from, edit.to);
        if ok {
          ApplyClosed(edit, t, g);
          var metas := CollectMetas(disk.tree, edit.to, IsDir(disk.tree, edit.to), guidOf);
          out := edit.(metas := metas, applied := true);
        }
      case Copy =>
        ok := edit.from in disk.tree;
        if !ok {
          return;
        }
        ok := C.Copy(disk, edit.from, edit.to, disk.tree);
        if !ok {
          disk.RemoveAll(edit.to);
          return;
        }
        if SyncsAfterCopy(edit.to) {
          var _ := WriteMissingMetas(disk, g);
        }
        ApplyClosed(edit, t, g);
        var metas := CollectMetas(disk.tree, edit.to, IsDir(disk.tree, edit.to), guidOf);
        out := edit.(metas := metas, applied := true);
    }
  }

  /** The two values are one step, before and after a run: only what it recorded may differ. */
  predicate SameStep(a: Edit, b: Edit) {
    && a.kind == b.kind && a.from == b.from && a.to == b.to
    && (a.kind != Delete ==> a.bytes == b.bytes)
  }

  method DropMetasLoop(disk: Disk, asset: Path, metas: seq<MetaExpect>, siblingOnly: bool)
    requires asset != []
    modifies disk
    ensures disk.tree == DropMetas(old(disk.tree), asset, metas, siblingOnly)
  {
    for i := 0 to |metas|
      invariant DropMetas(disk.tree, asset, metas[i..], siblingOnly)
        == DropMetas(old(disk.tree), asset, metas, siblingOnly)
    {
      assert metas[i..][0] == metas[i] && metas[i..][1..] == metas[i + 1..];
      if !siblingOnly || metas[i].sibling {
        disk.Remove(MetaFile(asset, metas[i]));
      }
    }
  }

  method RestoreDeletedStep(disk: Disk, asset: Path, edit: Edit) returns (ok: bool)
    requires asset != []
    modifies disk
    ensures Ran(ok, disk.tree) == RestoreDeleted(old(disk.tree), asset, edit)
  {
    if edit.files == [] {
      ok := disk.WriteFile(asset, edit.bytes);
      if !ok {
        return;
      }
    } else {
      ok := RestoreFilesLoop(disk, asset, edit.files);
      if !ok {
        return;
      }
    }
    ok := RestoreMetasLoop(disk, asset, edit.metas);
  }

  method RestoreFilesLoop(disk: Disk, asset: Path, files: seq<StoredFile>) returns (ok: bool)
    requires asset != []
    modifies disk
    ensures Ran(ok, disk.tree) == RestoreFiles(old(disk.tree), asset, files)
  {
    ok := true;
    for i := 0 to |files|
      invariant ok && RestoreFiles(disk.tree, asset, files[i..]) == RestoreFiles(old(disk.tree), asset, files)
    {
      assert files[i..][0] == files[i] && files[i..][1..] == files[i + 1..];
      var dest := asset + files[i].relative;
      if files[i].directory {
        ok := disk.CreateDirectories(dest);
      } else {
        ok := disk.CreateDirectories(Parent(dest));
        if ok {
          ok := disk.WriteFile(dest, files[i].bytes);
        }
      }
      if !ok {
        return;
      }
    }
  }

  method RestoreMetasLoop(disk: Disk, asset: Path, metas: seq<MetaExpect>) returns (ok: bool)
    requires asset != []
    modifies disk
    ensures Ran(ok, disk.tree) == RestoreMetas(old(disk.tree), asset, metas)
  {
    ok := true;
    for i := 0 to |metas|
      invariant ok && RestoreMetas(disk.tree, asset, metas[i..]) == RestoreMetas(old(disk.tree), asset, metas)
    {
      assert metas[i..][0] == metas[i] && metas[i..][1..] == metas[i + 1..];
      if metas[i].text == "" {
        continue;
      }
      var dest := MetaFile(asset, metas[i]);
      ok := disk.CreateDirectories(Parent(dest));
      if ok {
        ok := disk.WriteFile(dest, metas[i].text);
      }
      if !ok {
        return;
      }
    }
  }

  /** `ProjectStep::revert`. */
  method RevertStep(disk: Disk, edit: Edit, guidOf: GuidReader) returns (ok: bool, out: Edit)
    requires WellMade(edit)
    modifies disk
    ensures Ran(ok, disk.tree) == Revert(edit, old(disk.tree), guidOf)
    ensures out == if ok then edit.(applied := false) else edit
  {
    out := edit;
    match edit.kind {
      case Delete =>
        ok := edit.from !in disk.tree;
        if !ok {
          return;
        }
        ok := RestoreDeletedStep(disk, edit.from, edit);
        if !ok {
          disk.RemoveAll(edit.from);
          DropMetasLoop(disk, edit.from, edit.metas, true);
        }
      case CreateDir =>
        ok := IsDir(disk.tree, edit.to) && forall q | q in disk.tree :: Inside(q, edit.to) ==> q == edit.to;
        if ok {
          disk.Remove(edit.to);
        }
      case CreateFile =>
        ok := ReadText(disk.tree, edit.to) == Some(edit.bytes);
        if ok {
          ok := MetasMatchLoop(disk.tree, edit.to, edit.metas, guidOf);
        }
        if ok {
          disk.Remove(edit.to);
          DropMetasLoop(disk, edit.to, edit.metas, false);
        }
      case Copy =>
        ok := true;
        disk.RemoveAll(edit.to);
        DropMetasLoop(disk, edit.to, edit.metas, false);
      case Relocate =>
        ok := MoveWithMeta(disk, edit.to, edit.from);
    }
    if ok {
      out := edit.(applied := false);
    }
  }

  method MetasMatchLoop(t: Tree, asset: Path, metas: seq<MetaExpect>, guidOf: GuidReader) returns (ok: bool)
    requires asset != []
    ensures ok <==> MetasMatch(t, asset, metas, guidOf)
  {
    for i := 0 to |metas|
      invariant forall k | 0 <= k < i :: MetaMatches(t, MetaFile(asset, metas[k]), metas[k], guidOf)
    {
      var text := ReadText(t, MetaFile(asset, metas[i]));
      if text == None {
        return false;
      }
      if metas[i].guid == "" {
        if text.value != metas[i].text {
          return false;
        }
      } else if guidOf(text.value) != metas[i].guid {
        return false;
      }
    }
    ok := true;
  }

  /** `ProjectStep::matches_one`. */
  method MatchesOne(t: Tree, edit: Edit, guidOf: GuidReader) returns (ok: bool)
    requires WellMade(edit)
    ensures ok <==> Matches(edit, t, guidOf)
  {
    if edit.kind == Delete {
      if edit.applied {
        if edit.from in t {
          return false;
        }
        for i := 0 to |edit.metas|
          invariant forall k | 0 <= k < i :: MetaFile(edit.from, edit.metas[k]) !in t
        {
          if MetaFile(edit.from, edit.metas[i]) in t {
            return false;
          }
        }
        return true;
      }
      if edit.from !in t {
        return false;
      }
      if edit.files == [] {
        if ReadText(t, edit.from) != Some(edit.bytes) {
          return false;
        }
      } else {
        for i := 0 to |edit.files|
          invariant forall k | 0 <= k < i :: FileMatches(t, edit.from, edit.files[k])
        {
          if !FileMatches(t, edit.from, edit.files[i]) {
            return false;
          }
        }
      }
      ok := MetasMatchLoop(t, edit.from, edit.metas, guidOf);
      return;
    }
    if edit.kind != Relocate && !edit.applied {
      return edit.to !in t;
    }
    var here := if edit.applied then edit.to else edit.from;
    var there := if edit.applied then edit.from else edit.to;
    if here !in t || (edit.kind == Relocate && there in t) {
      return false;
    }
    if edit.kind == CreateFile && ReadText(t, here) != Some(edit.bytes) {
      return false;
    }
    if edit.kind == CreateDir {
      return IsDir(t, here);
    }
    ok := MetasMatchLoop(t, here, edit.metas, guidOf);
  }

  // The factories.

  datatype Notice = Quiet | Occupied | Outside | IntoSelf | ProjectFile | BadName | NotThere | Failed | NotInBuild

  /** What starting an edit did.  There is a step to push exactly when something changed. */
  datatype Outcome = Outcome(ok: bool, notice: Notice, step: Option<Edit>)

  datatype CreateKind = Directory | World | Header | Source

  const PROJECT_FILE: Path := ["wind_project.toml"]
  const WORLD_BYTES := "version = 1\n"

  /** `project_name_ok`. */
  predicate NameOk(name: Name) {
    && name != "" && name != "." && name != ".."
    && name[|name| - 1] != '.' && name[|name| - 1] != ' '
    && forall c | c in name :: c as int >= 32 && c !in "/\\<>:\"|?*"
  }

  /** `under_root`, on a key that is already split into its names. */
  predicate UnderRoot(key: Path) {
    key != [] && forall name | name in key :: name != ".." && ':' !in name && '\\' !in name
  }

  function LeafName(key: Path): Name {
    if key == [] then "" else Leaf(key)
  }

  /** `inside_key`, on split keys; `Keys.InsideKeyIsInside` ties it to the text test. */
  predicate InsideKey(key: Path, directory: Path) {
    directory != [] && Inside(key, directory)
  }

  predicate MayRelocate(t: Tree, from: Path, to: Path) {
    && from != PROJECT_FILE && to != PROJECT_FILE && NameOk(LeafName(to)) && !InsideKey(to, from)
    && UnderRoot(from) && UnderRoot(to)
    && from in t && to !in t && Parent(to) in t
  }

  predicate MayCopy(t: Tree, from: Path, to: Path) {
    && NameOk(LeafName(to)) && !InsideKey(to, from)
    && UnderRoot(from) && UnderRoot(to)
    && from in t && to !in t && Parent(to) in t
  }

  predicate MayCreate(t: Tree, key: Path) {
    NameOk(LeafName(key)) && key != PROJECT_FILE && UnderRoot(key) && key !in t && Parent(key) in t
  }

  predicate MayRemove(t: Tree, key: Path) {
    key != PROJECT_FILE && NameOk(LeafName(key)) && UnderRoot(key) && key in t
  }

  /** A last name one may give: not empty, not a dot or two, not ending in a dot or a blank, and without a control
      character, a slash of either kind or one of the characters a file system may refuse. */
  predicate GoodLeaf(key: Path) {
    key != [] && var name := key[|key| - 1];
    name != "" && name[|name| - 1] != '.' && name[|name| - 1] != ' '
    && forall c | c in name ::
         c as int >= 32 && c != '/' && c != '\\' && c != '<' && c != '>' && c != ':' && c != '"' && c != '|' && c != '?'
         && c != '*'
  }

  /** A key that stays below the project. */
  predicate Below(key: Path) {
    key != [] && forall name | name in key :: name != ".." && forall c | c in name :: c != ':' && c != '\\'
  }

  /** What each factory asks of the project before it starts. */
  lemma FactoriesAccept(t: Tree, from: Path, to: Path)
    ensures MayRelocate(t, from, to) <==>
      && from != ["wind_project.toml"] && to != ["wind_project.toml"] && GoodLeaf(to) && Below(from) && Below(to)
      && !(from <= to) && from in t && to !in t && to[..|to| - 1] in t
    ensures MayCopy(t, from, to) <==>
      GoodLeaf(to) && Below(from) && Below(to) && !(from <= to) && from in t && to !in t && to[..|to| - 1] in t
    ensures MayCreate(t, to) <==>
      GoodLeaf(to) && to != ["wind_project.toml"] && Below(to) && to !in t && to[..|to| - 1] in t
    ensures MayRemove(t, from) <==>
      from != ["wind_project.toml"] && GoodLeaf(from) && Below(from) && from in t
  {
    LeafIs(from);
    LeafIs(to);
    BelowIs(from);
    BelowIs(to);
  }

  lemma LeafIs(key: Path)
    ensures NameOk(LeafName(key)) <==> GoodLeaf(key)
  {
    if key != [] {
      var name := Leaf(key);
      assert forall c | c in "/\\<>:\"|?*" ::
        c == '/' || c == '\\' || c == '<' || c == '>' || c == ':' || c == '"' || c == '|' || c == '?' || c == '*';
      assert forall c | c == '/' || c == '\\' || c == '<' || c == '>' || c == ':' || c == '"' || c == '|' || c == '?'
        || c == '*' :: c in "/\\<>:\"|?*";
    }
  }

  lemma BelowIs(key: Path)
    ensures UnderRoot(key) <==> Below(key)
  {
  }

  /** The step in hand did its work on `t`, and the tree is `u`. */
  ghost predicate Started(step: Edit, t: Tree, u: Tree, g: Path -> Guid, guidOf: GuidReader) {
    WellMade(step) && Apply(step, t, g) == Ran(true, u) && Recorded(step, t, u, guidOf)
  }

  /** A refusal says why, changes nothing on disk, and leaves nothing to push. */
  ghost predicate Refused(o: Outcome, t: Tree, u: Tree) {
    !o.ok && o.notice != Quiet && o.step == None && u == t
  }

  method Run(disk: Disk, edit: Edit, g: Path -> Guid, guidOf: GuidReader, notice: Notice) returns (o: Outcome)
    requires Closed(disk.tree) && WellMade(edit) && (edit.kind != Delete ==> edit.to !in disk.tree)
    modifies disk
    ensures o.ok <==> Apply(edit, old(disk.tree), g).ok
    ensures o.ok ==>
      && o.step.Some? && SameStep(o.step.value, edit)
      && Started(o.step.value, old(disk.tree), disk.tree, g, guidOf)
    ensures !o.ok ==> Refused(o, old(disk.tree), disk.tree)
  {
    ghost var t := disk.tree;
    var ok, out := ApplyStep(disk, edit, g, guidOf);
    if !ok {
      FailedApplyChangesNothing(edit, t, g);
      return Outcome(false, Failed, None);
    }
    o := Outcome(true, notice, Some(out));
  }

  method RelocateEntry(disk: Disk, from: Path, to: Path, g: Path -> Guid, guidOf: GuidReader) returns (o: Outcome)
    requires Closed(disk.tree)
    modifies disk
    ensures from == to ==> o == Outcome(true, Quiet, None) && disk.tree == old(disk.tree)
    ensures from != to ==>
      (o.ok <==> MayRelocate(old(disk.tree), from, to) && RelocatePair(old(disk.tree), from, to).ok)
    ensures from != to && o.ok ==>
      && o.step.Some? && o.step.value.kind == Relocate && o.step.value.from == from && o.step.value.to == to
      && Started(o.step.value, old(disk.tree), disk.tree, g, guidOf)
    ensures !o.ok ==> Refused(o, old(disk.tree), disk.tree)
  {
    if from == to {
      return Outcome(true, Quiet, None);
    }
    if from == PROJECT_FILE || to == PROJECT_FILE {
      return Outcome(false, ProjectFile, None);
    }
    if !NameOk(LeafName(to)) {
      return Outcome(false, BadName, None);
    }
    if InsideKey(to, from) {
      return Outcome(false, IntoSelf, None);
    }
    if !UnderRoot(from) || !UnderRoot(to) {
      return Outcome(false, Outside, None);
    }
    if from !in disk.tree {
      return Outcome(false, NotThere, None);
    }
    if to in disk.tree {
      return Outcome(false, Occupied, None);
    }
    if Parent(to) !in disk.tree {
      return Outcome(false, NotThere, None);
    }
    o := Run(disk, Edit(Relocate, from, to, "", [], [], false), g, guidOf, Quiet);
  }

  method CopyEntry(disk: Disk, from: Path, to: Path, g: Path -> Guid, guidOf: GuidReader) returns (o: Outcome)
    requires Closed(disk.tree)
    modifies disk
    ensures o.ok <==> MayCopy(old(disk.tree), from, to) && CanCopy(old(disk.tree), from, to)
    ensures o.ok ==>
      && o.step.Some? && o.step.value.kind == Copy && o.step.value.from == from && o.step.value.to == to
      && Started(o.step.value, old(disk.tree), disk.tree, g, guidOf)
    ensures !o.ok ==> Refused(o, old(disk.tree), disk.tree)
  {
    if !NameOk(LeafName(to)) {
      return Outcome(false, BadName, None);
    }
    if InsideKey(to, from) {
      return Outcome(false, IntoSelf, None);
    }
    if !UnderRoot(from) || !UnderRoot(to) {
      return Outcome(false, Outside, None);
    }
    if from !in disk.tree || to in disk.tree || Parent(to) !in disk.tree {
      return Outcome(false, if to in disk.tree then Occupied else NotThere, None);
    }
    o := Run(disk, Edit(Copy, from, to, "", [], [], false), g, guidOf, Quiet);
  }

  method CreateEntry(disk: Disk, key: Path, kind: CreateKind, g: Path -> Guid, guidOf: GuidReader) returns (o: Outcome)
    requires Closed(disk.tree)
    modifies disk
    ensures o.ok <==> MayCreate(old(disk.tree), key) && IsDir(old(disk.tree), Parent(key))
    ensures o.ok ==>
      && o.step.Some? && o.step.value.kind == (if kind == Directory then CreateDir else CreateFile)
      && o.step.value.to == key && o.step.value.bytes == (if kind == World then "version = 1\n" else "")
      && Started(o.step.value, old(disk.tree), disk.tree, g, guidOf)
    ensures !o.ok ==> Refused(o, old(disk.tree), disk.tree)
  {
    if !NameOk(LeafName(key)) || key == PROJECT_FILE {
      return Outcome(false, if key == PROJECT_FILE then ProjectFile else BadName, None);
    }
    if !UnderRoot(key) {
      return Outcome(false, Outside, None);
    }
    if key in disk.tree || Parent(key) !in disk.tree {
      return Outcome(false, if key in disk.tree then Occupied else NotThere, None);
    }
    var notice := if kind == Header || kind == Source then NotInBuild else Quiet;
    var bytes := if kind == World then WORLD_BYTES else "";
    var edit := Edit(if kind == Directory then CreateDir else CreateFile, [], key, bytes, [], [], false);
    o := Run(disk, edit, g, guidOf, notice);
  }

  method RemoveEntry(disk: Disk, key: Path, g: Path -> Guid, guidOf: GuidReader) returns (o: Outcome)
    requires Closed(disk.tree)
    modifies disk
    ensures o.ok <==> MayRemove(old(disk.tree), key)
    ensures o.ok ==>
      && o.step.Some? && o.step.value.kind == Delete && o.step.value.from == key
      && Started(o.step.value, old(disk.tree), disk.tree, g, guidOf)
    ensures !o.ok ==> Refused(o, old(disk.tree), disk.tree)
  {
    if key == PROJECT_FILE {
      return Outcome(false, ProjectFile, None);
    }
    if !NameOk(LeafName(key)) {
      return Outcome(false, BadName, None);
    }
    if !UnderRoot(key) {
      return Outcome(false, Outside, None);
    }
    if key !in disk.tree {
      return Outcome(false, NotThere, None);
    }
    o := Run(disk, Edit(Delete, key, [], "", [], [], false), g, guidOf, Quiet);
  }
}
