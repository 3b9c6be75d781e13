/** Runs of the editor from the factories on: every step that is pushed is one a factory handed over. */
module FactoryRuns {
  import opened FileTree
  import opened Sidecars
  import opened ProjectEdit
  import opened EditTheorems
  import opened WellFormedSteps
  import opened EditSteps
  import opened History
  import opened Zipper
  import opened HistoryRuns
  import opened CommandHistory

  /** The step in hand was started on `a`, on plain and free names, and leaves no file bare; or it is an inspector edit
      that starts from what the component was. */
  ghost predicate Made(c: Command, a: State, b: State, guidOf: GuidReader) {
    match c
    case ProjectCommand(e) =>
      b.world == a.world
      && (exists g: Path -> Guid :: Started(e, a.tree, b.tree, g, guidOf))
      && Plain(e) && (e.kind != Delete ==> e.to !in a.tree) && (forall p | p in a.tree :: !LeftBare(e, a.tree, p))
    case EntityCommand(e) => StartsFrom(e, a.world) && b == State(a.tree, ApplyEntity(e, a.world, true).world)
  }

  ghost predicate FactoryPush(a: Snapshot, b: Snapshot, c: Command, guidOf: GuidReader) {
    && Made(c, a.state, b.state, guidOf) && b.stacks == Pushed(a.stacks, c)
    && (a.stacks.undo != [] && Merges(Top(a.stacks.undo), c) ==>
          a.stacks.redo == [] && SameField(Top(a.stacks.undo).entity, c.entity))
  }

  ghost predicate Undoes(a: Snapshot, b: Snapshot, guidOf: GuidReader) {
    AllRunnable(a.stacks) && exists ok: bool :: Undone(a.stacks, a.state, guidOf) == Turn(ok, b.stacks, b.state)
  }

  ghost predicate Validates(a: Snapshot, b: Snapshot, kind: StepKind, guidOf: GuidReader) {
    AllRunnable(a.stacks) && b == Snapshot(Validated(a.stacks, kind, a.state.tree, guidOf), a.state)
  }

  /** The sync of the asset files that the editor runs by itself when it has noticed a change. */
  ghost predicate SyncsAssets(a: Snapshot, b: Snapshot) {
    exists g: Path -> Guid :: b == Snapshot(a.stacks, State(Synced(a.state.tree, g), a.state.world))
  }

  /** One step of a run in which only the editor changes the files and the world. */
  ghost predicate FactoryNext(a: Snapshot, b: Snapshot, guidOf: GuidReader) {
    || (exists c :: FactoryPush(a, b, c, guidOf))
    || Undoes(a, b, guidOf)
    || RedoneOnce(a, b, guidOf)
    || SyncsAssets(a, b)
    || (exists kind :: b == Snapshot(Discarded(a.stacks, kind), a.state))
    || (exists kind :: Validates(a, b, kind, guidOf))
    || b == Snapshot(Stacks([], []), a.state)
  }

  ghost predicate AllWellFormed(states: seq<State>) {
    forall i | 0 <= i < |states| :: WellFormed(states[i].tree)
  }

  /** A zipper over a chain of well-formed trees. */
  ghost predicate Sound(x: Snapshot, guidOf: GuidReader) {
    exists back, ahead :: Zip(x.stacks, x.state, back, ahead, guidOf) && AllWellFormed(back) && AllWellFormed(ahead)
  }

  lemma AlikeWellFormed(a: Tree, b: Tree)
    requires Alike(a, b) && WellFormed(a)
    ensures WellFormed(b)
  {
    AlikeClosed(a, b);
    MissingAlike(a, b);
    forall p | p in b
      ensures PairedAt(b, p)
    {
      assert PairedAt(a, p) && NodeAlike(p, a[p], b[p]);
    }
  }

  lemma MadeLinks(c: Command, a: State, b: State, guidOf: GuidReader)
    requires WellFormed(a.tree) && Made(c, a, b, guidOf)
    ensures Linked(c, a, b, guidOf) && WellFormed(b.tree)
  {
    match c
    case ProjectCommand(e) =>
      var g: Path -> Guid :| Started(e, a.tree, b.tree, g, guidOf);
      FactoryStepLinks(e, a.tree, b.tree, a.world, g, guidOf);
      ApplyKeepsWellFormed(e, a.tree, g);
    case EntityCommand(e) => InspectorStepLinks(e, a.tree, a.world, guidOf);
  }

  lemma PushKeeps(a: Snapshot, b: Snapshot, c: Command, guidOf: GuidReader)
    requires Sound(a, guidOf) && FactoryPush(a, b, c, guidOf)
    ensures Sound(b, guidOf)
  {
    var back: seq<State>, ahead: seq<State> :|
      Zip(a.stacks, a.state, back, ahead, guidOf) && AllWellFormed(back) && AllWellFormed(ahead);
    assert WellFormed(back[|back| - 1].tree);
    MadeLinks(c, a.state, b.state, guidOf);
    if a.stacks.undo != [] && Merges(Top(a.stacks.undo), c) {
      MergeStep(a.stacks, a.state, back, ahead, guidOf, c, b.state);
      assert AllWellFormed(Rest(back) + [b.state]) && AllWellFormed([b.state]);
    } else {
      PushStep(a.stacks, a.state, back, ahead, guidOf, c, b.state);
      assert AllWellFormed(back + [b.state]) && AllWellFormed([b.state]);
    }
  }

  lemma UndoKeeps(a: Snapshot, b: Snapshot, guidOf: GuidReader)
    requires Sound(a, guidOf) && Undoes(a, b, guidOf)
    ensures Sound(b, guidOf)
  {
    var back: seq<State>, ahead: seq<State> :|
      Zip(a.stacks, a.state, back, ahead, guidOf) && AllWellFormed(back) && AllWellFormed(ahead);
    if a.stacks.undo != [] {
      UndoOnce(a, b, guidOf, back, ahead);
    }
  }

  lemma UndoOnce(a: Snapshot, b: Snapshot, guidOf: GuidReader, back: seq<State>, ahead: seq<State>)
    requires Zip(a.stacks, a.state, back, ahead, guidOf) && a.stacks.undo != [] && AllRunnable(a.stacks)
    requires AllWellFormed(back) && AllWellFormed(ahead)
    requires var r := Undone(a.stacks, a.state, guidOf); b == Snapshot(r.stacks, r.state)
    ensures Sound(b, guidOf)
  {
    UndoStep(a.stacks, a.state, back, ahead, guidOf);
    RestWellFormed(back);
    ConsWellFormed(b.state, ahead);
  }

  lemma RestWellFormed(states: seq<State>)
    requires AllWellFormed(states) && |states| >= 2
    ensures AllWellFormed(Rest(states)) && WellFormed(states[|states| - 2].tree)
  {
  }

  lemma ConsWellFormed(s: State, states: seq<State>)
    requires WellFormed(s.tree) && AllWellFormed(states)
    ensures AllWellFormed([s] + states)
  {
  }

  lemma RedoKeeps(a: Snapshot, b: Snapshot, guidOf: GuidReader)
    requires Sound(a, guidOf) && RedoneOnce(a, b, guidOf)
    ensures Sound(b, guidOf)
  {
    var back: seq<State>, ahead: seq<State> :|
      Zip(a.stacks, a.state, back, ahead, guidOf) && AllWellFormed(back) && AllWellFormed(ahead);
    var g: Path -> Guid, ok: bool :| Redone(a.stacks, a.state, g, guidOf, Turn(ok, b.stacks, b.state));
    if a.stacks.redo != [] {
      RedoStep(a.stacks, a.state, back, ahead, guidOf, g, Turn(ok, b.stacks, b.state));
      AlikeSymmetric(b.state.tree, ahead[1].tree);
      AlikeWellFormed(ahead[1].tree, b.state.tree);
      assert AllWellFormed(back + [b.state]) && AllWellFormed([b.state] + ahead[2..]);
    }
  }

  lemma {:induction false} KeptWellFormed(cs: seq<Command>, states: seq<State>, kind: StepKind, s: State)
    requires |states| == |cs| + 1 && AllWellFormed(states) && WellFormed(s.tree)
    ensures AllWellFormed(KeptStates(cs, states, kind, s))
    decreases |cs|
  {
    if cs != [] {
      KeptWellFormed(cs[1..], states[1..], kind, s);
    }
  }

  lemma DiscardKeeps(a: Snapshot, kind: StepKind, guidOf: GuidReader)
    requires Sound(a, guidOf)
    ensures Sound(Snapshot(Discarded(a.stacks, kind), a.state), guidOf)
  {
    var back: seq<State>, ahead: seq<State> :|
      Zip(a.stacks, a.state, back, ahead, guidOf) && AllWellFormed(back) && AllWellFormed(ahead);
    assert WellFormed(back[|back| - 1].tree);
    DiscardStep(a.stacks, a.state, back, ahead, guidOf, kind);
    KeptWellFormed(a.stacks.undo, back, kind, a.state);
    KeptWellFormed(Reversed(a.stacks.redo), ahead, kind, a.state);
  }

  lemma ClearKeeps(a: Snapshot, guidOf: GuidReader)
    requires Sound(a, guidOf)
    ensures Sound(Snapshot(Stacks([], []), a.state), guidOf) && WellFormed(a.state.tree)
  {
    var back: seq<State>, ahead: seq<State> :|
      Zip(a.stacks, a.state, back, ahead, guidOf) && AllWellFormed(back) && AllWellFormed(ahead);
    assert WellFormed(back[|back| - 1].tree);
    EmptyZip(a.state, guidOf);
    assert AllWellFormed([a.state]);
  }

  /** On a well-formed tree a sync has nothing to do. */
  lemma SyncLeavesWellFormed(t: Tree, g: Path -> Guid)
    requires WellFormed(t)
    ensures Synced(t, g) == t
  {
    CoveredStays(t, g);
    forall m | m in t
      ensures !IsOrphan(t, m)
    {
      assert PairedAt(t, m);
    }
    WithoutOrphans(t);
  }

  lemma SyncKeeps(a: Snapshot, b: Snapshot, guidOf: GuidReader)
    requires Sound(a, guidOf) && SyncsAssets(a, b)
    ensures b == a
  {
    ClearKeeps(a, guidOf);
    var g: Path -> Guid :| b == Snapshot(a.stacks, State(Synced(a.state.tree, g), a.state.world));
    SyncLeavesWellFormed(a.state.tree, g);
  }

  lemma FactoryNextKeeps(a: Snapshot, b: Snapshot, guidOf: GuidReader)
    requires Sound(a, guidOf) && FactoryNext(a, b, guidOf)
    ensures Sound(b, guidOf)
  {
    if c :| FactoryPush(a, b, c, guidOf) {
      PushKeeps(a, b, c, guidOf);
    } else if Undoes(a, b, guidOf) {
      UndoKeeps(a, b, guidOf);
    } else if RedoneOnce(a, b, guidOf) {
      RedoKeeps(a, b, guidOf);
    } else if SyncsAssets(a, b) {
      SyncKeeps(a, b, guidOf);
    } else if kind :| b == Snapshot(Discarded(a.stacks, kind), a.state) {
      DiscardKeeps(a, kind, guidOf);
    } else if kind :| Validates(a, b, kind, guidOf) {
      DiscardKeeps(a, kind, guidOf);
    } else {
      ClearKeeps(a, guidOf);
    }
  }

  /** In every run of the editor from a well-formed tree and an empty history, with steps from the factories on plain
      names and no move that leaves a file bare, and syncs of the asset files between them, the stacks are at every
      point a zipper over one chain of states, and the tree is well formed. */
  lemma {:induction false} EveryEditorRunIsAZipper(run: seq<Snapshot>, guidOf: GuidReader, i: nat)
    requires i < |run| && run[0].stacks == Stacks([], []) && WellFormed(run[0].state.tree)
    requires forall k | 0 <= k < |run| - 1 :: FactoryNext(run[k], run[k + 1], guidOf)
    ensures Zipped(run[i], guidOf) && WellFormed(run[i].state.tree)
  {
    SoundAt(run, guidOf, i);
    ClearKeeps(run[i], guidOf);
  }

  lemma {:induction false} SoundAt(run: seq<Snapshot>, guidOf: GuidReader, i: nat)
    requires i < |run| && run[0].stacks == Stacks([], []) && WellFormed(run[0].state.tree)
    requires forall k | 0 <= k < |run| - 1 :: FactoryNext(run[k], run[k + 1], guidOf)
    ensures Sound(run[i], guidOf)
  {
    if i == 0 {
      EmptyZip(run[0].state, guidOf);
      assert AllWellFormed([run[0].state]);
    } else {
      SoundAt(run, guidOf, i - 1);
      FactoryNextKeeps(run[i - 1], run[i], guidOf);
    }
  }
}
