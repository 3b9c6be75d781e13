# Proofs about the editor, the command line interface and the audio mixer

A Dafny model of five parts of the engine and its editor, and proofs of what they are for.

1. **Undoable edits of a project tree.** The project directory is a map from paths to folders and files. A
   `ProjectStep` moves, copies, creates or deletes an entry together with its `.meta` sidecars and remembers what it
   needs to go back; one history of file steps and entity steps walks them back and forth. Modules `FileTree`,
   `Sidecars`, `SyncEffects`, `ProjectEdit`, `Restore`, `EditRoundTrip`, `EditTheorems`, `WellFormedSteps`,
   `FailedSteps`, `StepEffects`, `StaleSteps`, `ProjectStep`, `CopyTree`, `EditSteps`, `Keys`, `Fields`, `History`,
   `Zipper`, `HistoryRuns`, `CommandHistory`, `FactoryRuns`.
2. **The JSON writer and the request scanner** of the command line interface, tied together over all value trees.
   Modules `JsonText`, `JsonWriter`, `JsonScanner`, `JsonForms`, `CliRequests`, `RequestFields`, `RequestBlanks`. What
   is written follows RFC 8259, sections 2 to 7; what is read is only what the hand-written scanner takes.
3. **Inspector paths**: a nested component table is flattened into rows keyed by paths, and an edit follows such a path
   back. Modules `InspectorPaths`, `PathSpellings`, `InspectorRows`, `RowTheorems`, `RowForms`, `InspectorEdit`,
   `RowEdits`, `TypedNumbers`, `NumberTexts`.
4. **The thumbnail worker protocol** between the editor thread and one worker. Modules `Thumbnails`, `ThumbnailRuns`,
   `ThumbnailTextures`, `ThumbnailCounts`, `ThumbnailLimit`, `ThumbnailRequests`.
5. **Two timed machines**: the mixer with its fades and crossfades (`Mixer`, `MixerRuns`, `MixerCalls`, `AudioSystem`)
   and the asset watch that waits until a change has settled (`AssetWatch`).

In each part the operations that update state are methods on classes, and each is proved to do exactly what a function
of the old state says; the lemmas then prove properties of those functions, over every input, every run or every
reachable state. The table below leaves out the methods that only assign; their contracts name the function whose
properties the lemmas prove. `dafny verify dfyconfig.toml` checks everything.

## How to read the main results

* Tree edits. `EditTheorems.RoundTrip` says for all five kinds of step exactly when a successful `apply` followed by
  `revert` gives back the same tree, every path and every byte; `WellFormedReversible` shows that on a tree where every
  sidecar has its source and every asset its sidecar, it always does. The condition is needed: in an arbitrary tree a
  sidecar inside a folder that is itself named `x.meta`, an empty sidecar or a leftover sidecar of the new name is not
  brought back. A redo writes new GUIDs, so redone states are equal up to generated sidecar texts (`Alike`); undo is
  exact. `WellFormedSteps.ApplyKeepsWellFormed` says, by a test on the tree before the step, exactly when a step leaves
  such a tree behind again.
* What a step does. The round trips say that undo takes back what a step did; the lemmas of `StepEffects` say what that
  is, path by path, for each kind, and `UndoOfCreation`, `UndoOfCopy` and `UndoOfMove` what undoing does in any later
  tree: a created file is deleted only while it still holds its bytes, a copy is removed whatever has become of it. The
  lemmas of `StaleSteps` say when a step is valid, from the trees it was run between; `SyncEffects.SyncEffect` says
  what a sync does to every path.
* Undo in a later tree. `FailedSteps.UndoOfDeletion` gives the whole outcome of undoing a recorded deletion in any
  tree, whatever has changed there since: when it is refused, when it succeeds and what it then brings back, and what a
  failing one leaves. `Restore.DeletionComesBack` is the if-and-only-if behind it.
* Steps that fail. `FailedApplyLeaves` gives the tree a failing `apply` leaves; `FailedApplyChangesNothing` and
  `FailedUndoChangesNothing` say exactly when a failing step has left the tree as it was, with an input for each kind
  of loss, made of steps that `apply` recorded.
* History. `Zipper.Zip` relates the two stacks to one chain of states. Every undo, redo and ordinary push keeps it. A
  merging push leaves `push` before the redo stack is cleared; `Zipper.MergeUnderRedo` says exactly when the stacks are
  a zipper all the same, and `HistoryRuns.MergeCanBreakTheChain` is a run where they are not.
  `FactoryRuns.EveryEditorRunIsAZipper` is the theorem for whole runs with the steps the factories hand over.
* Sidecar sync. `SyncLeavesNoOrphan` and `SyncSettles` are exact conditions, because the list of orphans is made before
  the first deletion.
* Scanner. `SkipWritten`: skipping passes over exactly one written value although one kind of bracket is counted.
  `ParseWritten`: parsing a written object is the fold of its members, whatever follows the object. `LastValueWins` and
  `NotGivenStays` say, by the literal keys and fields, what a request holds; `ErrorExactly` when it is refused.
  `StringExactly` and `NumberExactly` say exactly which texts are read as a string or a number, and as which.
* Inspector. `KeyLeadsToValue`, `KeysDiffer` and `OneRowForEachScalar` make rows and paths inverse to each other;
  `TypingChangesOneRow` says an edit through a row changes that row and no other. `IntegerLeaf`, `NumberTyped` and
  `ReadExactly` say exactly which typed texts are taken, for which value, and which texts are read as a path.
* Thumbnails. `EveryRunKeeps` holds for all interleavings of the two threads; `EveryRequestSettles` and
  `AnswerIsCurrent` are what the editor gets from it. `CountIsReadyAndRepeats`, `ReadyWithinLimit` and `LimitIsKept`
  say what the count of ready images is worth, and `RoomKeepsLimit` how the editor can keep the limit. `RequestExactly`
  says when a question makes a request and `RequestAnswered` that the request is answered.
* Mixer. `OnlyTimeCounts`: how time is cut into updates does not matter. `MusicStopsInTime`, `HandleReleasedInTime` and
  `CrossfadeEnds` follow. `MusicStarts`, `EffectStarts`, `LoopStarts` and `VolumesFollow` say what each call does to
  the tracks, in every state a run reaches; `SteadyGains` is where every gain stands, in numbers.
* Asset watch. `TrueMeansTwoWalksAgree`, `SettledBySecondWalk` and `SyncIsQuiet` over every interleaving of tree
  changes, notices and polls.

Where the code and its own comments disagree, the model follows the code:

* `editor/src/entity_edit.h` says `assign_text` leaves the table unchanged when the text is not that value. With a slot
  below 0 a flag, an array or a table becomes a number when the text is one (`InspectorEdit.FitsKeepsShape`).
* `editor/src/command_history.h` says `push` drops the redo stack. A merging push keeps it (`Zipper.MergeUnderRedo`).
* `editor/src/thumbnail_cache.h` speaks of at most `kMaxThumbnails` images. The count is compared when a request is
  made, so requests already on their way are not limited by it: for every number there is a run that ends with so many
  images (`ThumbnailLimit.LimitCanBePassed`). The limit is kept if and only if no result becomes an image while the
  count is at it (`ThumbnailCounts.LimitIsKept`), and it is passed by less than what is on its way
  (`ReadyWithinLimit`). The count can also run ahead of the images, by exactly the number of results for entries that
  were ready already (`CountIsReadyAndRepeats`).
* The id of a thumbnail is made from the GUID and the stamp, not the key. When the sidecars of two files name one GUID,
  the answer for one can show the image of the other (`ThumbnailTextures.TwoKeysShareATexture`); `AnswerIsCurrent` says
  exactly when it does. A build looks for the image kept on disk for that GUID and stamp first
  (`editor/src/thumbnail_cache.cpp:176`), so it takes a second build that did not find the first one's image there:
  then the images can differ. `AnswerShowsOwnImage` says that otherwise they do not. Previews are not affected.
* `editor/src/project_edit.h` says a result that is not `ok` changed nothing on disk. A redo calls `apply` without
  looking at the new name: a failing copy then removes what has taken it (`FailedSteps.FailedRedoLosesAFile`), and a
  failing move has overwritten it (`FailedRedoOverwritesAFile`). An undo of a deletion that fails drops an empty folder
  that has taken the name of the sidecar (`FailedUndoLosesAFolder`), and changes nothing else (`UndoOfDeletion`).
* The test for "under `assets`" that follows a copy also lets `assets2/x` through (`Keys.CopySyncTest`).

## Model

| member | source | states |
|---|---|---|
| Sidecars.SyncCoversEveryAsset | editor/src/asset_sync.cpp:58-67 | after a sync every asset file has its sidecar, whatever the tree was |
| Sidecars.SyncLeavesNoOrphan | editor/src/asset_sync.cpp:20-67 | a sync leaves no sidecar without a source if and only if no sidecar it deletes is itself the source of one |
| Sidecars.SyncCanLeaveAnOrphan | editor/src/asset_sync.cpp:20-54 | a concrete tree in which a sync leaves an orphan |
| Sidecars.SyncSettles | editor/src/asset_sync.cpp:58-67 | a second sync changes nothing if and only if no sidecar the first deletes is itself the source of one |
| SyncEffects.SyncEffect | editor/src/asset_sync.cpp:20-67 | a sync writes a sidecar beside each asset file that has none, whatever case the names are in, removes the strays and leaves every other path as it was |
| SyncEffects.NewSidecarText | src/resources/asset_guid.cpp:116-130 | what a new sidecar says, to the letter |
| SyncEffects.ImporterByEnding | src/resources/asset_guid.cpp:49-100 | the importer goes by the ending of the name, for any stem and any case |
| FileTree.MovedBack | editor/src/project_edit.cpp:109-148 | moving a subtree to a free place and back gives the same tree |
| FileTree.MovedClosed | editor/src/project_edit.cpp:109-131 | a rename keeps every entry inside a folder |
| ProjectStep.WriteMissingMetas | src/resources/asset_guid.cpp:146-189 | writes a sidecar for exactly the asset files that had none, changes nothing else, and counts them, in any listing order |
| ProjectStep.CollectOrphans | editor/src/asset_sync.cpp:20-41 | lists every sidecar under `assets` without a source, each once |
| ProjectStep.RemoveOrphanMetas | editor/src/asset_sync.cpp:20-54 | removes exactly the sidecars that had no source when the list was made, and counts them |
| ProjectStep.SyncAssets | editor/src/asset_sync.cpp:58-67 | the tree and both counts after a sync |
| ProjectStep.CollectMetas | editor/src/project_edit.cpp:580-620 | records every sidecar beside and below an asset once, with its text and GUID, and nothing else |
| ProjectStep.CaptureTree | editor/src/project_edit.cpp:640-672 | records everything reached below a path without passing a sidecar name, once each, folders before what is in them |
| CopyTree.Copy | editor/src/project_edit.cpp:150-190 | succeeds exactly when nothing clashes, adds exactly the copy without sidecars, and on failure has touched nothing outside the target |
| CopyTree.CopyChildren | editor/src/project_edit.cpp:164-183 | the same for the entries of a folder, in any order |
| CopyTree.PartCopyStep | editor/src/project_edit.cpp:170-181 | copying one more child extends the copy by that child's copy alone, and they do not overlap |
| EditSteps.ApplyStep | editor/src/project_edit.cpp:474-569 | runs a step of any of the five kinds, and records in it exactly what the reverse step needs; a step that fails records nothing |
| EditSteps.RevertStep | editor/src/project_edit.cpp:713-797 | runs the reverse step and marks it as not applied, or leaves the step as it was |
| EditSteps.RestoreDeletedStep | editor/src/project_edit.cpp:674-711 | writes back what a deletion recorded, files before sidecars, stopping at the first failure |
| EditSteps.RestoreFilesLoop | editor/src/project_edit.cpp:682-697 | the files and folders part of a restore, in the recorded order |
| EditSteps.RestoreMetasLoop | editor/src/project_edit.cpp:698-710 | the sidecar part, which skips sidecars recorded without a text |
| EditSteps.DropMetasLoop | editor/src/project_edit.cpp:727-782 | removes the recorded sidecars, all of them or the one beside the asset |
| EditSteps.MetasMatchLoop | editor/src/project_edit.cpp:622-638 | true if and only if every recorded sidecar is there with its GUID, or with its text when it has none |
| EditSteps.MatchesOne | editor/src/project_edit.cpp:799-867 | true if and only if the tree is as the step left it, applied or reverted |
| EditSteps.Run | editor/src/project_edit.cpp:284-292 | hands over the step exactly when it ran; a refusal leaves the disk as it was |
| EditSteps.RelocateEntry | editor/src/project_edit.cpp:323-363 | when a move is refused and what a started one has done, for every pair of keys |
| EditSteps.CopyEntry | editor/src/project_edit.cpp:365-390 | the same for a copy |
| EditSteps.CreateEntry | editor/src/project_edit.cpp:392-417 | the same for a new folder, file or world |
| EditSteps.RemoveEntry | editor/src/project_edit.cpp:419-442 | the same for a deletion |
| EditRoundTrip.DropCollected | editor/src/project_edit.cpp:762-784 | dropping an asset and the sidecars collected for it is exactly the deletion |
| Restore.FilesRebuild | editor/src/project_edit.cpp:674-697 | in any tree that has the folder, or can have it, the files part of a restore never fails and brings back exactly what `capture_tree` reaches and the folders above it |
| Restore.DeletionComesBack | editor/src/project_edit.cpp:674-711 | in any later tree where the name is free, a recorded deletion is restored if and only if its folder is there, or can be made for a folder, and no folder has the name of a sidecar recorded with text; then exactly what is recoverable comes back, and nothing besides changes |
| EditRoundTrip.RestoreRebuilds | editor/src/project_edit.cpp:580-711 | the same in the tree the deletion left: what was captured and collected rebuilds the subtree and its sidecars, and nothing besides |
| EditRoundTrip.DeleteRoundTrip | editor/src/project_edit.cpp:475-736 | deleting and undoing gives back the tree if and only if every entry in it is recoverable |
| EditRoundTrip.CreateDirRoundTrip | editor/src/project_edit.cpp:474-797 | creating a folder and undoing gives back the tree |
| EditRoundTrip.CreateFileRoundTrip | editor/src/project_edit.cpp:474-797 | the exact condition for creating a file: nothing had its name or its sidecar's, and the sync that follows wrote no other sidecar |
| EditRoundTrip.CopyRoundTrip | editor/src/project_edit.cpp:474-797 | the exact condition for copying |
| EditRoundTrip.RelocateRoundTrip | editor/src/project_edit.cpp:133-148 | moving a pair there and back gives the same tree if and only if nothing had the new name, nor its sidecar's name unless that is the entry itself, moved without a sidecar of its own |
| EditRoundTrip.TakenBack | editor/src/project_edit.cpp:762-784 | taking away what was added below a name gives back the tree exactly when the addition was a clean one |
| EditTheorems.RoundTrip | editor/src/project_edit.cpp:474-797 | for all five kinds, a successful `apply` then `revert` gives back the starting tree if and only if the step is reversible there |
| EditTheorems.ValidAfterApplyAndRevert | editor/src/project_edit.cpp:470-867 | a reversible step is valid in the tree its `apply` just left and again in the tree its `revert` just left, sidecars in moved folders included |
| EditTheorems.WellFormedReversible | editor/src/project_edit.cpp:474-797 | on a well-formed tree every step that succeeds on plain, free names is reversible |
| EditTheorems.UndoIsExact | editor/src/project_edit.cpp:713-797 | so on a well-formed tree undo is exact |
| EditTheorems.ApplyKeepsPairs | editor/src/project_edit.cpp:474-569 | every step keeps each sidecar beside its source |
| WellFormedSteps.ApplyKeepsWellFormed | editor/src/project_edit.cpp:474-569 | on a well-formed tree a step on plain, free names keeps the tree well formed if and only if, in the tree before it, no file is one that a move takes to a place where it needs a sidecar it does not have, or that a copy named `assets` takes there |
| WellFormedSteps.MoveKeepsWellFormed | editor/src/project_edit.cpp:133-148 | the condition for a move, folders and a folder renamed to `assets` included |
| WellFormedSteps.CopyKeepsWellFormed | editor/src/project_edit.cpp:559-568 | the condition for a copy named `assets`, after which no sidecar is written |
| WellFormedSteps.RelocateCanUnsync | editor/src/project_edit.cpp:133-148 | each such file is missing its sidecar after the move |
| FailedSteps.FailedApplyLeaves | editor/src/project_edit.cpp:474-569 | what a failing step leaves, for all kinds: a copy or move that has started has taken away what had the new name, and nothing else ever changes |
| FailedSteps.FailedApplyChangesNothing | editor/src/project_edit.cpp:474-569 | a step that fails leaves the tree as it was if and only if nothing was in its way, for all kinds |
| FailedSteps.FailedRedoLosesAFile | editor/src/project_edit.cpp:457-468 | for any two names: a copy recorded and undone, then done again after its name was taken, fails and removes the file that took it |
| FailedSteps.FailedRedoOverwritesAFile | editor/src/project_edit.cpp:133-148 | for any two names: a move recorded and undone, then done again after its name and the sidecar's were taken, fails and has overwritten the file |
| FailedSteps.UndoOfDeletion | editor/src/project_edit.cpp:713-736 | the outcome of undoing a recorded deletion in any later tree: refused where the name is taken, done where nothing stops it, and otherwise a failure that drops at most an empty folder with the sidecar's name |
| FailedSteps.ValidDeletionUndone | editor/src/project_edit.cpp:713-736 | a deletion that is valid can be undone if and only if its folder is there, or can be made for a folder; if not, nothing changes |
| FailedSteps.FailedUndoChangesNothing | editor/src/project_edit.cpp:713-797 | a failing undo of a recorded step leaves the tree as it was if and only if no empty folder had the name of a sidecar to be written and a move back overwrote nothing, for all kinds |
| FailedSteps.FailedRevertChangesNothing | editor/src/project_edit.cpp:713-797 | the same for any edit, whether `apply` recorded it or not: then a restore may also have made folders, or dropped a file with the sidecar's name |
| FailedSteps.FailedUndoDropsAFolder | editor/src/project_edit.cpp:720-733 | undoing any deletion where a folder has the name of a sidecar to be written fails, and an empty one is gone |
| FailedSteps.FailedUndoLosesAFolder | editor/src/project_edit.cpp:720-733 | for any name, a recorded deletion and a later tree for it |
| StepEffects.MoveEffect | editor/src/project_edit.cpp:133-148 | a move takes everything at or below the old name to the same place below the new one and the sidecar to its new name, and nothing else changes |
| StepEffects.MoveSucceeds | editor/src/project_edit.cpp:133-148 | a move to a name with a free sidecar succeeds if and only if the new folder is there, the entry may replace what has the name, and nothing would go into itself |
| StepEffects.CopyEffect | editor/src/project_edit.cpp:150-190 | a copy adds below the new name what is below the old one, sidecars and folders named like one left out, and changes nothing that was there; under `assets` every asset then has a sidecar |
| StepEffects.CopySucceeds | editor/src/project_edit.cpp:150-190 | a copy succeeds if and only if the new folder is there and no file of it meets anything, nor a folder a file |
| StepEffects.FileEffect | editor/src/project_edit.cpp:533-544 | a created file holds its bytes and nothing else changes, except that under `assets` every asset then has a sidecar |
| StepEffects.UndoOfCreation | editor/src/project_edit.cpp:756-773 | in any later tree: undone if and only if the file still holds its bytes and the recorded sidecar is there with its GUID, or its text if it had none; then the two are gone and nothing else changed, and otherwise nothing has |
| StepEffects.UndoOfCopy | editor/src/project_edit.cpp:774-785 | in any later tree: always undone, and all that is now at or below the copy is gone with its recorded sidecar, changed since or not; nothing else changes |
| StepEffects.UndoOfMove | editor/src/project_edit.cpp:786-797 | in any later tree: all that is now at or below the new name comes back to the old one, with the sidecar that is beside it now |
| StaleSteps.DeletionValid | editor/src/project_edit.cpp:800-815 | a deletion is valid if and only if neither the entry nor any sidecar it had is there |
| StaleSteps.UndoneDeletionValid | editor/src/project_edit.cpp:816-840 | an undone deletion is valid if and only if all it had captured is there with the same bytes and every sidecar is kept |
| StaleSteps.CreationValid | editor/src/project_edit.cpp:841-867 | a created file is valid if and only if it holds its bytes and its sidecar is kept |
| StaleSteps.CopyValid | editor/src/project_edit.cpp:841-867 | a copy is valid if and only if it is there with every sidecar it had after the step |
| StaleSteps.MoveValid | editor/src/project_edit.cpp:841-867 | a move is valid if and only if the entry is at one name only, the one it was left at, with every sidecar it had |
| EditSteps.FactoriesAccept | editor/src/project_edit.cpp:222-237 | what each factory asks of the keys and of the project before it starts, character by character |
| EditTheorems.ApplyAlike | editor/src/project_edit.cpp:474-569 | on trees that differ in generated GUIDs only, a step does the same, whatever is generated |
| EditTheorems.ReversibleAlike | editor/src/project_edit.cpp:713-797 | and is reversible in both or in neither |
| Keys.SplitJoin | editor/src/project_edit.cpp:252-260 | splitting a joined key gives back its names |
| Keys.InsideKeyIsInside | editor/src/project_edit.cpp:210-218 | the text test of `inside_key` holds if and only if the path lies at or below the directory |
| Keys.ParentAndLeaf | editor/src/project_edit.cpp:239-250 | the parent key and the leaf name cut a key at its last name |
| Keys.CreateSyncTest | editor/src/project_edit.cpp:538-540 | the text test that follows a create, in terms of paths |
| Keys.CopySyncTest | editor/src/project_edit.cpp:563-565 | the text test that follows a copy, in terms of paths, `assets2/x` included |
| History.EntityEditLinks | editor/src/entity_edit.cpp:337-370 | an inspector edit is undone if and only if its `before` is what the component really was |
| History.EntityEffect | editor/src/entity_edit.cpp:337-370 | what an entity step leaves of every component, forwards and backwards, with the defaults an empty table stands for, and when it fails |
| History.UndoLinked | editor/src/command_history.cpp:20-32 | undoing the step that led here succeeds and goes back exactly |
| History.RedoAhead | editor/src/command_history.cpp:34-46 | redoing it succeeds, reaches what was there up to generated GUIDs, and can be undone exactly again |
| History.AheadAlike | editor/src/command_history.cpp:34-46 | a step can be redone as well from a state that differs in generated GUIDs |
| CommandHistory.CommandHistory.Undo | editor/src/command_history.cpp:20-32 | undoes the newest step on the disk or in the world; a step that fails leaves both stacks exactly as they were |
| CommandHistory.CommandHistory.Redo | editor/src/command_history.cpp:34-46 | the same for redo |
| CommandHistory.CommandHistory.Validate | editor/src/command_history.cpp:59-66 | discards a kind when any of its steps, deep ones included, is stale, and otherwise changes nothing |
| CommandHistory.CommandHistory.Count | editor/src/command_history.cpp:68-76 | the number of steps of a kind on the undo stack |
| CommandHistory.EraseKind | editor/src/command_history.cpp:53-57 | keeps exactly the steps of other kinds, in order |
| CommandHistory.HasStale | editor/src/command_history.cpp:59-66 | true if and only if some step of the kind is stale |
| CommandHistory.FactoryStepLinks | editor/src/project_edit.cpp:284-292 | the step a factory hands over on a well-formed tree extends the chain of states |
| CommandHistory.InspectorStepLinks | editor/src/entity_edit.cpp:325-343 | so does an inspector edit that starts from what the component was |
| Zipper.UndoStep | editor/src/command_history.cpp:20-32 | on a zipper undo succeeds and moves back exactly one state |
| Zipper.RedoStep | editor/src/command_history.cpp:34-46 | redo succeeds and moves ahead one state, up to generated GUIDs |
| Zipper.PushStep | editor/src/command_history.cpp:8-18 | an ordinary push drops what was ahead and keeps the chain behind |
| Zipper.MergeStep | editor/src/command_history.cpp:8-16 | a merging push with nothing to redo keeps the chain; one undo restores what was before the first keystroke |
| Zipper.MergeUnderRedo | editor/src/command_history.cpp:8-16 | with steps waiting to be redone, a merging push leaves a zipper if and only if none of them works on that component or the edit changed nothing |
| Zipper.PushesCoalesce | editor/src/command_history.cpp:8-16 | two edits with one coalescing key are one step, from the first `before` to the last `after`; with other keys, or none, they are two |
| HistoryRuns.DiscardStep | editor/src/command_history.cpp:53-57 | after `discard` the other steps are a valid chain over their own half of the state |
| HistoryRuns.DiscardKeepsTheOthers | editor/src/command_history.cpp:53-57 | exactly the steps of the other kind are kept, each as often as it was there |
| HistoryRuns.TopIsValid | editor/src/command_history.cpp:59-66 | the newest step is never stale while only the editor changes the files |
| HistoryRuns.ValidateExactly | editor/src/command_history.cpp:59-66 | `validate` changes nothing if no file step of either stack is stale, and otherwise leaves no file step and every entity step |
| HistoryRuns.ValidateDropsUsableSteps | editor/src/command_history.cpp:59-66 | a concrete history that would undo without trouble and that `validate` drops |
| HistoryRuns.UndoAllReachesBase | editor/src/command_history.cpp:20-32 | undoing everything reaches the base state exactly |
| HistoryRuns.RedoAllReachesLatest | editor/src/command_history.cpp:34-46 | redoing everything reaches the latest state up to generated GUIDs |
| HistoryRuns.UndoAllRedoAll | editor/src/command_history.cpp:20-46 | undo everything, redo everything: the latest state again, from any point of a run |
| HistoryRuns.EveryRunIsAZipper | editor/src/command_history.cpp:8-46 | in every run of pushes, undos and redos, at every point, the two stacks are a zipper over one chain of states |
| HistoryRuns.MergeCanBreakTheChain | editor/src/command_history.cpp:8-16 | a run of two edits, an undo and a merging push after which the stacks are over no chain of states |
| FactoryRuns.EveryEditorRunIsAZipper | editor/src/project_edit.cpp:284-442 | the same for runs from a well-formed tree whose steps are the ones the factories hand over, on plain names and leaving no file bare, with the editor's own syncs between them; the tree stays well formed |
| FactoryRuns.SyncLeavesWellFormed | editor/src/asset_sync.cpp:58-67 | a sync changes nothing on a well-formed tree |
| JsonText.ScanNumberStops | include/engine/core/parse_float.h:20-52 | where a number ends does not depend on what follows it |
| JsonText.ScanDecimal | src/cli/json.h:42-45 | a printed 64-bit integer reads back whole and as itself |
| JsonText.FigureReads | src/cli/json.h:47-54 | whatever `{:.6g}` prints of a finite number reads back whole, as the number its digits and exponent say |
| JsonWriter.DriveWritesRendering | src/cli/json.h:59-85 | driving any value tree writes its rendering after at most one comma and leaves the comma stack at its depth, from any state of the writer |
| JsonWriter.DriveFromStart | src/cli/json.h:13-85 | a whole value driven through a new writer is its rendering and nothing else |
| JsonWriter.Json.WriteQuoted | src/cli/json.h:87-116 | writes the escaped string between quotes |
| JsonWriter.ErrorJson | src/cli/cli_commands.cpp:917-926 | the error body is the rendering of its object |
| JsonWriter.ExecuteHostReply | src/cli/cli_commands.cpp:981-1007 | the reply body is the rendering of its object, for any result |
| JsonScanner.ParseEscaped | src/cli/cli_commands.cpp:42-90 | reading what `raw_string` wrote gives back the string, control characters it cannot read as question marks, and leaves the rest |
| JsonScanner.LossyIsExact | src/cli/cli_commands.cpp:78-84 | the round trip is exact if and only if the string has no control character other than newline, return and tab |
| JsonForms.StringExactly | src/cli/cli_commands.cpp:42-90 | a text is read as a string if and only if it starts with one in quotes, escapes included, and what follows the closing quote is left |
| JsonForms.ListIs | src/cli/json.h:59-85 | items stand in square brackets with commas between them |
| JsonForms.ObjectIs | src/cli/json.h:59-85 | members stand in braces with commas between them and a colon after each key |
| JsonScanner.PastValue | src/cli/cli_commands.cpp:127-160 | inside an open bracket a whole written value leaves the bracket count where it was, whichever kind is counted |
| JsonScanner.SkipWritten | src/cli/cli_commands.cpp:101-162 | `skip_value` on any written value succeeds and leaves exactly the rest, whatever it is, save that a number must not run on into it |
| CliRequests.SkipBlanksAt | src/cli/cli_commands.cpp:35-40 | the loop removes all leading blanks |
| CliRequests.ParseStringAt | src/cli/cli_commands.cpp:42-90 | the loop computes the specified reading of a string, failures included |
| CliRequests.SkipValueAt | src/cli/cli_commands.cpp:101-162 | the loop over depth, string and escape flags computes the specified skip |
| CliRequests.TakeMemberAt | src/cli/cli_commands.cpp:1037-1130 | takes the value of one member, by its key |
| CliRequests.ParseRequest | src/cli/cli_commands.cpp:1010-1136 | computes the specified request and terminates, on every input |
| CliRequests.TakeWritten | src/cli/cli_commands.cpp:1037-1130 | a written member is taken for what it means, and exactly its value is used up |
| CliRequests.ParseWritten | src/cli/cli_commands.cpp:1010-1136 | parsing any written object, with anything after it, is the in-order fold of its members |
| CliRequests.UnknownIgnored | src/cli/cli_commands.cpp:1010-1136 | a member with an unknown key changes nothing, whatever its value |
| CliRequests.LossyKnown | src/cli/cli_commands.cpp:1010-1136 | no control character turns an unknown key into a known one |
| CliRequests.LastCommandWins | src/cli/cli_commands.cpp:1010-1136 | the last command given is the one taken |
| RequestFields.LastValueWins | src/cli/cli_commands.cpp:1042-1126 | over any written object that gives no error, the field each literal key names holds the last value given for it |
| RequestFields.NotGivenStays | src/cli/cli_commands.cpp:1042-1126 | and a field whose key is not given is as in an empty request, so no member changes another field |
| RequestFields.ErrorExactly | src/cli/cli_commands.cpp:1042-1126 | a written object is refused if and only if some member has a value its field does not take |
| RequestBlanks.BlanksDoNotMatter | src/cli/cli_commands.cpp:1010-1041 | a request means the same with blanks around any of its tokens |
| RequestBlanks.BraceNeeded | src/cli/cli_commands.cpp:1012-1016 | a request without its opening brace is refused |
| RequestBlanks.KeyNeeded | src/cli/cli_commands.cpp:1019-1031 | anything else than a key, a comma or the closing brace is refused, and so is the end; what was given before is kept |
| RequestBlanks.ColonNeeded | src/cli/cli_commands.cpp:1032-1036 | anything else than a colon after a key is refused |
| InspectorPaths.ParseFieldPath | editor/src/entity_edit.cpp:114-158 | the cursor loops compute the specified steps, failures and 64-bit wrap of indices included |
| InspectorPaths.ParsePathBack | editor/src/entity_edit.cpp:114-158 | a written path parses back to its steps |
| PathSpellings.ReadExactly | editor/src/entity_edit.cpp:114-158 | a text is read as a path if and only if it spells it, leading zeros and the 64-bit wrap of indices included; any other text is refused |
| InspectorRows.ResolveField | editor/src/entity_edit.cpp:160-185 | follows steps through nested tables and arrays, or finds nothing |
| InspectorRows.NumericArray | editor/src/entity_inspection.cpp:79-89 | true if and only if there are one to four items, all numbers |
| InspectorRows.ArrayLayout | editor/src/entity_inspection.cpp:128-160 | the layout of an array, by what holds of all its items |
| InspectorRows.AppendTable | editor/src/entity_inspection.cpp:312-379 | appends the specified sections and rows: direct rows first, then those of nested tables, recursively |
| InspectorRows.AppendField | editor/src/entity_inspection.cpp:324-351 | the rows of one field |
| InspectorRows.CollectDirect | editor/src/entity_inspection.cpp:324-351 | the rows of all fields that need no section of their own, in field order |
| InspectorRows.AppendNested | editor/src/entity_inspection.cpp:354-378 | the sections of one field |
| RowTheorems.KeyLeadsToValue | editor/src/entity_inspection.cpp:312-379 | every row's key parses, and resolves in the root table to exactly the value the row shows |
| RowTheorems.KeysDiffer | editor/src/entity_inspection.cpp:105-110 | different rows have different keys, and none shows part of what another shows |
| RowTheorems.OneRowForEachScalar | editor/src/entity_inspection.cpp:312-379 | every scalar a path reaches is covered by exactly one row |
| RowTheorems.TableSound | editor/src/entity_inspection.cpp:312-379 | both of the first two for a table at any place, by induction over tables in tables and in arrays |
| RowTheorems.KeyMustBePlain | editor/src/entity_inspection.cpp:105-110 | the row of a lone scalar leads back to it if and only if its key is not empty and has no dot and no bracket |
| RowForms.ScalarsInOrder | editor/src/entity_inspection.cpp:324-351 | a table of scalars has one row for each field, in their order, under its key |
| RowForms.NestedAfter | editor/src/entity_inspection.cpp:312-379 | a table inside comes after the scalars beside it, with its rows under its key |
| RowForms.ArrayRows | editor/src/entity_inspection.cpp:79-160 | up to four numbers are one row; more numbers, strings or flags a row each; tables none of their own; a mixture one row that cannot be edited |
| RowForms.TablesInOrder | editor/src/entity_inspection.cpp:354-378 | the rows of an array of tables are those of its tables in turn, each under its index |
| InspectorEdit.Trim | editor/src/entity_edit.cpp:65-73 | takes blanks off both ends |
| InspectorEdit.ParseNumber | editor/src/entity_edit.cpp:86-103 | reads a whole trimmed text as a 64-bit integer or as a number |
| InspectorEdit.AssignLeafText | editor/src/entity_edit.cpp:187-241 | the leaf after an edit, or a refusal, for every kind of leaf and slot |
| InspectorEdit.Component.AssignText | editor/src/entity_edit.cpp:299-310 | fails and leaves the table equal, or writes the assigned leaf through the path |
| InspectorEdit.Component.AssignBool | editor/src/entity_edit.cpp:312-323 | fails and leaves the table equal, or writes the flag through the path |
| InspectorEdit.PutReadsBack | editor/src/entity_edit.cpp:160-185 | a path that was written reads back what was written |
| InspectorEdit.PutLeavesTheRest | editor/src/entity_edit.cpp:160-185 | every path that parts ways with it reads what it read before |
| InspectorEdit.TextChangesOneLeaf | editor/src/entity_edit.cpp:299-310 | typing changes the leaf its key names and no disjoint path |
| InspectorEdit.FlagChangesOneLeaf | editor/src/entity_edit.cpp:312-323 | the same for a flag |
| InspectorEdit.FitsKeepsShape | editor/src/entity_edit.cpp:187-241 | an accepted text keeps the kind of the leaf if and only if the edit fits it; otherwise a flag, array or table has become a number |
| InspectorEdit.FlagBecomesNumber | editor/src/entity_edit.cpp:189-200 | typing 1 into a flag is accepted and makes it a number |
| TypedNumbers.IntegerLeaf | editor/src/entity_edit.cpp:75-103 | typed into an integer, exactly the texts that write a 64-bit number are taken, blanks around and zeros in front allowed, as that number; any other is refused |
| TypedNumbers.IntegerSlot | editor/src/entity_edit.cpp:230-240 | the same for one integer of an array, and the others stay |
| TypedNumbers.NumberLeaf | editor/src/entity_edit.cpp:75-103 | typed into a number, a figure is what it stands for and a whole number itself, alone or in an array |
| TypedNumbers.FigureStandsFor | include/engine/core/parse_float.h:20-52 | what a figure is read as: its digits times ten to its exponent |
| TypedNumbers.AngleTyped | editor/src/entity_edit.cpp:206-229 | one of the three angles of a rotation turns the quaternion that was there |
| TypedNumbers.IntegerStored | editor/src/entity_edit.cpp:299-310 | typing a whole number into the integer a path leads to stores it there, and every path that parts ways keeps its value |
| TypedNumbers.TextStored | editor/src/entity_edit.cpp:299-310 | the same for a string, which takes any text as it is |
| NumberTexts.NumberExactly | include/engine/core/parse_float.h:20-64 | a text is read whole as a number if and only if it writes it, with a sign, a point and an exponent or without, in fewer than 64 characters |
| NumberTexts.NumberTyped | editor/src/entity_edit.cpp:75-103 | the same for a typed text without the blanks around it |
| RowEdits.TypingChangesOneRow | editor/src/entity_edit.cpp:299-310 | typing that fits a row changes exactly that row of the inspector, and nothing when refused |
| RowEdits.EditableRowsFit | editor/src/entity_inspection.cpp:221-275 | a row can be edited if and only if the component can and it shows a scalar or a short vector of numbers, and then every edit it offers fits its value |
| RowEdits.SwitchingChangesOneRow | editor/src/entity_edit.cpp:312-323 | switching a flag succeeds exactly on a flag's row and changes exactly that row |
| RowEdits.WriteChangesOneRow | editor/src/entity_edit.cpp:160-185 | any write of the same shape through a row's key changes that row and keeps all others and their order |
| Thumbnails.ThumbnailService.Poll | editor/src/thumbnail_cache.cpp:291-319 | takes all results and accepts each one still wanted; true if and only if one became ready |
| ThumbnailRuns.EveryRunKeeps | editor/src/thumbnail_cache.cpp:208-353 | every interleaving of both threads keeps the invariant: each pending entry is on its way, each ready one names an image made for it, a preview's texture is that image, and the count covers the ready ones |
| ThumbnailRuns.StepKeeps | editor/src/thumbnail_cache.cpp:208-353 | every single step keeps it |
| ThumbnailRuns.NoneStuck | editor/src/thumbnail_cache.cpp:291-324 | once nothing is pending and `poll` has drained, no entry is still pending |
| ThumbnailRuns.EveryRequestSettles | editor/src/thumbnail_cache.cpp:326-353 | from every reachable state the worker comes to rest, and the next poll leaves every request ready or failed for the same stamp |
| ThumbnailTextures.AnswerIsCurrent | editor/src/thumbnail_cache.cpp:259-317 | an answer is an image made for that key and stamp, for the open project, since it was opened; under its id is the image of the last result with its GUID and stamp, made since then, which is its own image if and only if that result was for this key or brought the same image, and for a preview always |
| ThumbnailTextures.AnswerShowsOwnImage | editor/src/thumbnail_cache.cpp:161-317 | an answer shows its own image if no other key had another image made with its GUID and stamp since the project was opened |
| ThumbnailTextures.RunFollows | editor/src/thumbnail_cache.cpp:291-319 | every run keeps each ready entry at the last result accepted for its key and each texture at the last one registered under its id |
| ThumbnailTextures.TwoKeysShareATexture | editor/src/thumbnail_cache.cpp:308-312 | a run after which the answer for one key shows the image of another, when two builds with one GUID and stamp brought different images |
| ThumbnailRuns.GuardNeverBlocks | editor/src/thumbnail_cache.cpp:247-250 | when a ready entry is replaced the count is positive |
| ThumbnailRuns.OncePerStamp | editor/src/thumbnail_cache.h:93-100 | a request is not made again while its stamp is asked for, whatever happens in between, unless the project is opened or closed |
| ThumbnailRequests.RequestExactly | editor/src/thumbnail_cache.cpp:243-287 | for both kinds: a question makes a request if and only if a project is open, no entry is for this stamp and there is room; then the entry is pending for this stamp and its job waits, and nothing else changes |
| ThumbnailRequests.RequestAnswered | editor/src/thumbnail_cache.cpp:243-353 | for both kinds: a request that is made is answered, with the image the worker brings, once it has worked off what waits and `poll` has run |
| ThumbnailRequests.OpenedAsksAnew | editor/src/thumbnail_cache.cpp:219-236 | once a project is opened no question is answered from before and every one makes a request |
| ThumbnailRequests.NewsExactly | editor/src/thumbnail_cache.cpp:291-319 | `poll` answers true if and only if some result with an image was still wanted |
| ThumbnailCounts.CountIsReadyAndRepeats | editor/src/thumbnail_cache.cpp:243-316 | after every run the count is the number of ready entries and of results for entries ready already since the project was opened, so it is exact if and only if there was none |
| ThumbnailCounts.ReadyCanOvercount | editor/src/thumbnail_cache.cpp:298-316 | a run after which two images are counted for one entry |
| ThumbnailCounts.ReadyWithinLimit | editor/src/thumbnail_cache.cpp:268-287 | over every run the images pass the limit by less than the jobs and results ever on their way at once |
| ThumbnailCounts.LimitIsKept | editor/src/thumbnail_cache.cpp:268-315 | the count keeps the limit throughout a run if and only if no result becomes an image while it is at the limit |
| ThumbnailCounts.RoomKeepsLimit | editor/src/thumbnail_cache.cpp:268-315 | the count never passes the limit if no request of the kind is made while the ready images and the work on its way fill it |
| ThumbnailLimit.LimitCanBePassed | editor/src/thumbnail_cache.cpp:268-315 | for every number a run that ends with so many ready thumbnails |
| ThumbnailLimit.AllBecomeReady | editor/src/thumbnail_cache.cpp:291-353 | any number of requests made before the first result all become images |
| AudioSystem.System.TickTracks | src/audio/fake_mixer.h:139-145 | every track of an array ticked in place |
| AudioSystem.System.TickLooping | src/audio/fake_mixer.h:146-149 | every looping track ticked, in any order |
| AudioSystem.System.EraseReleased | src/audio/fake_mixer.h:152-160 | erases exactly the released tracks that are silent |
| AudioSystem.System.AcquireSfx | src/audio/fake_mixer.h:100-107 | the first free track of the pool, or none |
| AudioSystem.System.StopMusic | src/audio/audio_system.cpp:382-392 | every playing slot fades out, or stops at once |
| AudioSystem.System.UpdateMusicGains | src/audio/audio_system.cpp:227-240 | every music track retuned in place |
| AudioSystem.System.UpdateSfxGains | src/audio/audio_system.cpp:246-267 | every effect and looping track retuned |
| MixerRuns.StepKeeps | src/audio/audio_system.cpp:284-494 | every call keeps the invariant of slots, fades and gains |
| MixerRuns.MusicTakesTurns | src/audio/audio_system.cpp:343-392 | after any calls, if a music slot plays then the active one does, and the other plays only while it fades out |
| MixerRuns.TickTurns | src/audio/fake_mixer.h:62-78 | an inactive slot that fades out is silent no later than an active one that does too |
| MixerRuns.EveryGainIsInTune | src/audio/audio_system.cpp:227-271 | after any calls, every playing steady track is at its final gain, every fade that does not stop its track aims there, and every gain is between 0 and 1 |
| MixerRuns.TickedTwice | src/audio/fake_mixer.h:62-78 | two ticks of a fade are one tick of the sum |
| MixerRuns.OnlyTimeCounts | src/audio/audio_system.cpp:309-321 | however time is cut into updates, the mixer ends alike |
| MixerRuns.MusicStopsInTime | src/audio/audio_system.cpp:382-392 | after `stop_music(d)` music plays if and only if some did and less than `d` seconds have passed |
| MixerRuns.HandleReleasedInTime | src/audio/audio_system.cpp:450-467 | after `release_looping_sfx(h, d)` there is a track for `h` if and only if there was one and less than `d` seconds have passed |
| MixerRuns.CrossfadeEnds | src/audio/audio_system.cpp:359-380 | a crossfade ends with the new music alone, at its final gain |
| MixerCalls.MusicStarts | src/audio/audio_system.cpp:343-380 | in every state a run reaches, after `play_music` the active slot plays the new music, at its gain at once if nothing played or there is no time to fade, and fading up to it otherwise; the other slot is silent or fades away |
| MixerCalls.EffectStarts | src/audio/audio_system.cpp:323-341 | `play_sfx` plays the sound on the first free track and touches no other |
| MixerCalls.LoopStarts | src/audio/audio_system.cpp:420-437 | `play_looping_sfx` plays the sound over and over on the track of its handle, at once or fading up, and touches no other |
| MixerCalls.HandleMade | src/audio/audio_system.cpp:398-418 | a new handle has a silent track, unless its number was in use, and every other track stays |
| MixerCalls.LoopStopsInTime | src/audio/audio_system.cpp:439-448 | after `stop_looping_sfx(h, d)` the track plays if and only if it did and less than `d` seconds have passed |
| MixerCalls.FadeIsEven | src/audio/fake_mixer.h:62-78 | while a fade goes on the gain moves evenly from where it was to where it goes |
| MixerCalls.CrossfadeIsEven | src/audio/audio_system.cpp:359-380 | during a crossfade, however time is cut, the new music has come up and the old gone down by the same share of the time |
| MixerCalls.VolumesFollow | src/audio/audio_system.cpp:469-483 | each volume is kept between silence and full, and exactly the tracks it is for follow it |
| MixerCalls.SteadyGains | src/audio/audio_system.cpp:227-271 | after any calls every steady track is at the product of the master volume, the volume of its bus and its own, kept between silence and full |
| AssetWatch.AssetWatch.Poll | editor/src/asset_watch.cpp:115-145 | the watch after a poll and when it answers true, with notices that land during it |
| AssetWatch.NoticeIsKept | editor/src/asset_watch.cpp:113-129 | a notice is consumed only by walking the tree |
| AssetWatch.TrueMeansTwoWalksAgree | editor/src/asset_watch.cpp:115-145 | walks are at least an interval apart, and a poll answers true if and only if this walk and the last, which did not sync, agree on a tree other than the synced one |
| AssetWatch.SettledBySecondWalk | editor/src/asset_watch.cpp:131-144 | a change that stays put is synced by the second walk |
| AssetWatch.NoticedChangeIsSynced | editor/src/asset_watch.cpp:113-145 | after a notice two polls an interval apart are enough |
| AssetWatch.SyncIsQuiet | editor/src/asset_watch.cpp:137-142 | a sync's own writes never make a poll true again |
| AssetWatch.OpenedIsQuiet | editor/src/asset_watch.cpp:92-102 | a watch just opened stays quiet while the tree stays as it was, whatever is noticed |
| AssetWatch.OpenedSeesChange | editor/src/asset_watch.cpp:92-145 | and it syncs the first change by two polls 250 milliseconds apart, not by one |
| AssetWatch.NoticedExactly | editor/src/asset_watch.cpp:111-129 | a notice counts also in the middle of a poll and while the watch is closed; only a walk, or opening or closing, takes it away |
| AssetWatch.IdleDoesNotWalk | editor/src/asset_watch.cpp:120-123 | nothing noticed and nothing pending: no walk |

## Left out

- Symbolic links, permissions, the case-insensitive rename fallback, and file operations that fail half way: an
  operation on the disk succeeds or changes nothing, except that a failed copy may leave part of the copy, which the
  step removes.
- EditSteps.ApplyStep: a folder with the name of a sidecar records nothing. `collect_metas` looks only whether the name
  exists; where opening a folder as a file succeeds it would record an empty text for it.
- StepEffects.MoveEffect: not where a folder has the name of the entry's sidecar and the new place is in it, or the new
  name is that of the sidecar; the factories refuse a name that is taken.
- Key text: the model works on keys already split into names; `Keys` ties the text tests to them. `under_root` and its
  lexical normalisation are modelled on split keys only.
- ProjectStep.WriteMissingMetas: the generator of GUIDs is a parameter; that it draws none it has met in the same walk
  is not modelled. The parser of sidecar texts (TOML) is a parameter as well.
- Notices to the listener, the `select`, `moved` and `removed` parts of a result, and the wording of refusals beyond
  the ones that decide something.
- Entity create, delete and reparent commands: they get new handles on redo, so they are not exact inverses. The engine
  world they rest on, the serializers and the entity ids are not part of this model.
- History.EntityEditLinks: a component stores the table it is given, as the next line says.
- CommandHistory.Scene.ApplyEdit: a registered component takes over the table it reads, or its defaults from an empty
  one; a reader that refuses a table or keeps old fields is not modelled.
- The order of a folder listing is any order; no result depends on it.
- JsonText.ScanNumber: numbers are reals, so the range and rounding of `double` are not modelled; the platform without
  `std::from_chars` for floating point is not modelled either.
- JsonWriter.Json.WriteNumber: takes the formatted token; which digits `{:.6g}` chooses is not modelled, only the form
  they take (`JsonText.Formatted`), which is proved to read back whole.
- Characters are single code units; multi-byte text passes through both writer and scanner unchanged.
- The `tree`, `element`, `hit` and `click` commands and the profiler.
- RowEdits.EditableRowsFit: rows with an asset filter, and the colour row that offers three of four numbers, are not
  told apart from the others.
- InspectorRows.AppendTable: headings, kinds, asset filters and display names of rows are left out; a row keeps its
  key, its label, its value and whether it can be edited.
- InspectorEdit.AssignLeafText: the change of one Euler angle of a quaternion is a parameter; numbers are reals; arrays
  are shorter than 2^31, so that a length fits the `int` it is cast to.
- InspectorEdit.Component.AssignText: the write through the found reference is a rebuilt table; aliasing inside one
  table does not occur in the source.
- RowTheorems.OneRowForEachScalar: needs keys that can stand in a path, and arrays no longer than 2^64;
  `RowTheorems.KeyMustBePlain` shows why for keys.
- What an image is built from, the thumbnail cache on disk, and its stale files: the result of a build is any result.
- Thumbnails.ThumbnailService.Poll: the textures of the assets are a field here; the digests behind image ids are taken
  to be distinct.
- Thumbnails.ThumbnailService.Open: the thread itself, its mutex and its condition variable; every locked region is one
  step, and joining the worker is one step.
- AudioSystem.System.Update: a mixer without a device; effects that end by themselves when a device plays them are not
  modelled. Seconds and gains are reals, so rounding is not modelled.
- AudioSystem.System.TickTracks: a track is a value in an array that is replaced in place, not an object with its own
  methods.
- AssetWatch.AssetWatch.Open: the sync it starts with and the walk after it are its parameter.
- AssetWatch.AssetWatch.Poll: what a walk sees and what it sees after the sync are parameters; the thread that waits
  for the operating system is not modelled. Its effect on the tree is `Sidecars.Synced`, proved about separately.
- The "unsaved" mark of the world view, view models, panels, gizmos, bench schedules and option parsing.
