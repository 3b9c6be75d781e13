/** Whole runs of the history: discarding a kind of step, validating, and going all the way back and ahead. */
module HistoryRuns {
  import opened Fields
  import opened FileTree
  import opened Sidecars
  import opened ProjectEdit
  import opened EditRoundTrip
  import opened EditTheorems
  import opened History
  import opened Zipper

  // Discard.

  /** `x` with the half that `kind` works on as it is in `s`. */
  function Frozen(x: State, kind: StepKind, s: State): State {
    if kind == ProjectKind then State(s.tree, x.world) else State(x.tree, s.world)
  }

  /** The chain the steps of the other kind keep, in their half of the state. */
  function KeptStates(cs: seq<Command>, states: seq<State>, kind: StepKind, s: State): (kept: seq<State>)
    requires |states| == |cs| + 1
    ensures |kept| == |OtherThan(cs, kind)| + 1 && kept[0] == Frozen(states[0], kind, s)
  {
    if cs == [] then [Frozen(states[0], kind, s)]
    else
      var rest := KeptStates(cs[1..], states[1..], kind, s);
      [Frozen(states[0], kind, s)] + if cs[0].Kind() == kind then rest[1..] else rest
  }

  lemma {:induction false} BackKept(cs: seq<Command>, states: seq<State>, kind: StepKind, s: State, guidOf: GuidReader)
    requires BackChain(cs, states, guidOf)
    ensures BackChain(OtherThan(cs, kind), KeptStates(cs, states, kind, s), guidOf)
    ensures Top(KeptStates(cs, states, kind, s)) == Frozen(Top(states), kind, s)
  {
    if cs != [] {
      TailBack(cs, states, guidOf);
      BackKept(cs[1..], states[1..], kind, s, guidOf);
      var ds, rest := OtherThan(cs[1..], kind), KeptStates(cs[1..], states[1..], kind, s);
      assert Linked(cs[0], states[0], states[1], guidOf);
      var first := Frozen(states[0], kind, s);
      if cs[0].Kind() == kind {
        FrozenSame(cs[0], states[0], states[1], kind, s, guidOf);
        HeadAndTail(rest, first);
        assert [] + ds == ds;
      } else {
        ConsBack(cs[0], first, ds, rest, guidOf);
        TopOfMore(first, rest);
      }
    }
  }

  /** A step of kind `kind` leaves the other half of the state as it was. */
  lemma FrozenSame(c: Command, x: State, y: State, kind: StepKind, s: State, guidOf: GuidReader)
    requires Linked(c, x, y, guidOf) && c.Kind() == kind
    ensures Frozen(x, kind, s) == Frozen(y, kind, s)
  {
  }

  lemma HeadAndTail<T>(s: seq<T>, head: T)
    requires s != [] && s[0] == head
    ensures [head] + s[1..] == s
  {
  }

  lemma TopOfMore<T>(head: T, s: seq<T>)
    requires s != []
    ensures Top([head] + s) == Top(s)
  {
  }

  lemma TailBack(cs: seq<Command>, states: seq<State>, guidOf: GuidReader)
    requires BackChain(cs, states, guidOf) && cs != []
    ensures BackChain(cs[1..], states[1..], guidOf)
  {
    forall i | 0 <= i < |cs| - 1
      ensures Linked(cs[1..][i], states[1..][i], states[1..][i + 1], guidOf)
    {
      assert Linked(cs[i + 1], states[i + 1], states[i + 2], guidOf);
    }
  }

  lemma ConsBack(c: Command, s: State, cs: seq<Command>, states: seq<State>, guidOf: GuidReader)
    requires BackChain(cs, states, guidOf) && Linked(c, s, states[0], guidOf)
    ensures BackChain([c] + cs, [s] + states, guidOf)
  {
    var ds, vs := [c] + cs, [s] + states;
    forall i | 0 <= i < |ds|
      ensures Linked(ds[i], vs[i], vs[i + 1], guidOf)
    {
      if i > 0 {
        assert ds[i] == cs[i - 1] && vs[i] == states[i - 1] && vs[i + 1] == states[i];
      }
    }
  }

  lemma {:induction false} AheadKept(cs: seq<Command>, states: seq<State>, kind: StepKind, s: State)
    requires AheadChain(cs, states)
    ensures AheadChain(OtherThan(cs, kind), KeptStates(cs, states, kind, s))
    ensures StateAlike(Top(KeptStates(cs, states, kind, s)), Frozen(Top(states), kind, s))
  {
    if cs == [] {
      AlikeRefl(Frozen(states[0], kind, s).tree);
    } else {
      TailAhead(cs, states);
      AheadKept(cs[1..], states[1..], kind, s);
      var ds, rest := OtherThan(cs[1..], kind), KeptStates(cs[1..], states[1..], kind, s);
      assert Ahead(cs[0], states[0], states[1]);
      var first := Frozen(states[0], kind, s);
      if cs[0].Kind() == kind {
        FrozenAlike(cs[0], states[0], states[1], kind, s);
        DropAhead(ds, rest, first, Frozen(Top(states), kind, s));
        assert [] + ds == ds;
      } else {
        ConsAhead(cs[0], first, ds, rest);
        TopOfMore(first, rest);
      }
    }
  }

  lemma FrozenAlike(c: Command, x: State, y: State, kind: StepKind, s: State)
    requires Ahead(c, x, y) && c.Kind() == kind
    ensures StateAlike(Frozen(x, kind, s), Frozen(y, kind, s))
  {
    AlikeRefl(s.tree);
    AlikeRefl(x.tree);
  }

  lemma DropAhead(cs: seq<Command>, states: seq<State>, first: State, end: State)
    requires AheadChain(cs, states) && StateAlike(first, states[0]) && StateAlike(Top(states), end)
    ensures AheadChain(cs, [first] + states[1..]) && StateAlike(Top([first] + states[1..]), end)
  {
    ReplaceHead(cs, states, first);
    if |states| == 1 {
      AlikeTransitive(first.tree, states[0].tree, end.tree);
    }
  }

  lemma TailAhead(cs: seq<Command>, states: seq<State>)
    requires AheadChain(cs, states) && cs != []
    ensures AheadChain(cs[1..], states[1..])
  {
    forall i | 0 <= i < |cs| - 1
      ensures Ahead(cs[1..][i], states[1..][i], states[1..][i + 1])
    {
      assert Ahead(cs[i + 1], states[i + 1], states[i + 2]);
    }
  }

  lemma ConsAhead(c: Command, s: State, cs: seq<Command>, states: seq<State>)
    requires AheadChain(cs, states) && Ahead(c, s, states[0])
    ensures AheadChain([c] + cs, [s] + states)
  {
    var ds, vs := [c] + cs, [s] + states;
    forall i | 0 <= i < |ds|
      ensures Ahead(ds[i], vs[i], vs[i + 1])
    {
      if i > 0 {
        assert ds[i] == cs[i - 1] && vs[i] == states[i - 1] && vs[i + 1] == states[i];
      }
    }
  }

  lemma ReplaceHead(cs: seq<Command>, states: seq<State>, r: State)
    requires AheadChain(cs, states) && StateAlike(r, states[0])
    ensures AheadChain(cs, [r] + states[1..])
  {
    var vs := [r] + states[1..];
    forall i | 0 <= i < |cs|
      ensures Ahead(cs[i], vs[i], vs[i + 1])
    {
      assert Ahead(cs[i], states[i], states[i + 1]);
      if i == 0 {
        AheadAlike(cs[0], states[0], r, states[1]);
      }
    }
  }

  lemma {:induction false} OtherThanAppend(a: seq<Command>, b: seq<Command>, kind: StepKind)
    ensures OtherThan(a + b, kind) == OtherThan(a, kind) + OtherThan(b, kind)
  {
    if a == [] {
      assert a + b == b;
    } else {
      assert (a + b)[0] == a[0] && (a + b)[1..] == a[1..] + b;
      OtherThanAppend(a[1..], b, kind);
    }
  }

  lemma {:induction false} OtherThanReversed(cs: seq<Command>, kind: StepKind)
    ensures OtherThan(Reversed(cs), kind) == Reversed(OtherThan(cs, kind))
  {
    if cs != [] {
      var c, rest := Top(cs), Rest(cs);
      assert cs == rest + [c];
      OtherThanAppend(rest, [c], kind);
      OtherThanReversed(rest, kind);
      assert OtherThan([c], kind) == if c.Kind() == kind then [] else [c];
      OtherThanAppend([c], Reversed(rest), kind);
      if c.Kind() != kind {
        ReversedPush(OtherThan(rest, kind), c);
      } else {
        assert OtherThan(rest, kind) + [] == OtherThan(rest, kind);
      }
    }
  }

  /** `discard` removes the steps of one kind.  The others, in order, are still a zipper over their own half of the
      state; the half of the discarded kind stays as it is now. */
  lemma DiscardStep(h: Stacks, s: State, back: seq<State>, ahead: seq<State>, guidOf: GuidReader, kind: StepKind)
    requires Zip(h, s, back, ahead, guidOf)
    ensures var b, a := KeptStates(h.undo, back, kind, s), KeptStates(Reversed(h.redo), ahead, kind, s);
            && Zip(Discarded(h, kind), s, b, a, guidOf)
            && b[0] == Frozen(back[0], kind, s)
            && StateAlike(Top(a), Frozen(Top(ahead), kind, s))
  {
    BackKept(h.undo, back, kind, s, guidOf);
    AheadKept(Reversed(h.redo), ahead, kind, s);
    OtherThanReversed(h.redo, kind);
  }

  /** What is kept is exactly the steps of the other kind. */
  lemma {:induction false} DiscardKeepsTheOthers(cs: seq<Command>, kind: StepKind)
    ensures forall c | c in OtherThan(cs, kind) :: c.Kind() != kind
    ensures forall c: Command | c.Kind() != kind :: multiset(OtherThan(cs, kind))[c] == multiset(cs)[c]
  {
    if cs != [] {
      DiscardKeepsTheOthers(cs[1..], kind);
      assert cs == [cs[0]] + cs[1..];
    }
  }

  // Validate.

  /** `validate` leaves the history alone when no file step of either stack is stale, or when it is asked about entity
      steps; otherwise it leaves no file step, and every entity step. */
  lemma ValidateExactly(h: Stacks, kind: StepKind, t: Tree, guidOf: GuidReader)
    requires AllRunnable(h)
    ensures var v := Validated(h, kind, t, guidOf);
      var valid := forall e | ProjectCommand(e) in h.undo || ProjectCommand(e) in h.redo :: Matches(e, t, guidOf);
      if kind == EntityKind || valid then v == h
      else
        && (forall e :: ProjectCommand(e) !in v.undo && ProjectCommand(e) !in v.redo)
        && (forall e :: multiset(v.undo)[EntityCommand(e)] == multiset(h.undo)[EntityCommand(e)])
        && (forall e :: multiset(v.redo)[EntityCommand(e)] == multiset(h.redo)[EntityCommand(e)])
  {
    hide Matches;
    DiscardKeepsTheOthers(h.undo, kind);
    DiscardKeepsTheOthers(h.redo, kind);
    forall e
      ensures ProjectCommand(e).Kind() == ProjectKind
    {
    }
    if kind == ProjectKind {
      StaleExactly(h, t, guidOf);
    }
  }

  lemma StaleExactly(h: Stacks, t: Tree, guidOf: GuidReader)
    requires AllRunnable(h)
    ensures AnyStale(h, ProjectKind, t, guidOf) <==>
      !forall e | ProjectCommand(e) in h.undo || ProjectCommand(e) in h.redo :: Matches(e, t, guidOf)
  {
    hide Matches;
    forall c | c in h.undo || c in h.redo
      ensures Stale(c, ProjectKind, t, guidOf) <==> c.ProjectCommand? && !Matches(c.edit, t, guidOf)
    {
    }
    if e :| (ProjectCommand(e) in h.undo || ProjectCommand(e) in h.redo) && !Matches(e, t, guidOf) {
      assert Stale(ProjectCommand(e), ProjectKind, t, guidOf);
    }
    forall c | (c in h.undo || c in h.redo) && c.ProjectCommand?
      ensures c == ProjectCommand(c.edit)
    {
    }
  }

  /** The step on top of the undo stack is never stale while nothing else touches the files. */
  lemma TopIsValid(h: Stacks, s: State, back: seq<State>, ahead: seq<State>, guidOf: GuidReader)
    requires Zip(h, s, back, ahead, guidOf) && h.undo != [] && Top(h.undo).ProjectCommand?
    ensures WellMade(Top(h.undo).edit) && Matches(Top(h.undo).edit, s.tree, guidOf)
  {
    var n := |h.undo|;
    var e := Top(h.undo).edit;
    assert Linked(h.undo[n - 1], back[n - 1], back[n], guidOf);
    var g: Path -> Guid :| Apply(e, back[n - 1].tree, g) == Ran(true, s.tree);
    ValidAfterApplyAndRevert(e, back[n - 1].tree, g, guidOf);
  }

  /** Two free plain names, neither of which has anything at the name of its sidecar. */
  ghost predicate FreeNames(t: Tree, a: Path, b: Path) {
    && Closed(t) && PlainName(a) && PlainName(b) && a != b && !Inside(b, a)
    && IsDir(t, Parent(a)) && IsDir(t, Parent(b))
    && a !in t && b !in t && SiblingMeta(a) !in t && SiblingMeta(b) !in t
  }

  function MakeStep(a: Path): Edit {
    Edit(CreateDir, [], a, "", [], [], true)
  }

  function RenameStep(a: Path, b: Path): Edit {
    Edit(Relocate, a, b, "", [], [], true)
  }

  lemma MakeThenRename(t: Tree, a: Path, b: Path, guidOf: GuidReader)
    requires FreeNames(t, a, b)
    ensures var t1 := t[a := Dir];
            var t2 := Moved(t1, a, b);
            && a !in t2
            && Steady(MakeStep(a), t) && Apply(MakeStep(a), t, Zeros()) == Ran(true, t1)
            && Recorded(MakeStep(a), t, t1, guidOf)
            && Steady(RenameStep(a, b), t1) && Apply(RenameStep(a, b), t1, Zeros()) == Ran(true, t2)
            && Recorded(RenameStep(a, b), t1, t2, guidOf)
  {
    var t1 := t[a := Dir];
    var t2 := Moved(t1, a, b);
    SiblingMetaApart(a, a);
    SourceOfSibling(b);
    WrittenClosed(t, a, Dir);
    assert CanRename(t1, a, b);
    RenamedAway(t1, a, b);
    assert Apply(RenameStep(a, b), t1, Zeros()) == Ran(true, t2);
    forall p | p in t2
      ensures !IsSidecarOf(t2, b, p)
    {
      MovedAt(t1, a, b, p);
      SiblingMetaApart(b, b);
      if Inside(p, b) && p != b {
        RebaseParent(p, b, a);
        RebaseInverse(p, b, a);
        assert false;
      }
    }
  }

  lemma {:induction false} AllDiscarded(cs: seq<Command>, kind: StepKind)
    requires forall c | c in cs :: c.Kind() == kind
    ensures OtherThan(cs, kind) == []
  {
    if cs != [] {
      AllDiscarded(cs[1..], kind);
    }
  }

  lemma EmptyZip(s: State, guidOf: GuidReader)
    ensures Zip(Stacks([], []), s, [s], [s], guidOf)
  {
  }

  /** `validate` looks at every step, so it can drop a history that would undo without trouble: after creating a
      folder and renaming it, the create step is no longer where it left its folder. */
  lemma ValidateDropsUsableSteps(t: Tree, w: World, a: Path, b: Path, guidOf: GuidReader)
    requires FreeNames(t, a, b)
    ensures var u := Moved(t[a := Dir], a, b);
            var h := Stacks([ProjectCommand(MakeStep(a)), ProjectCommand(RenameStep(a, b))], []);
            && Zip(h, State(u, w), [State(t, w), State(t[a := Dir], w), State(u, w)], [State(u, w)], guidOf)
            && AllRunnable(h) && Validated(h, ProjectKind, u, guidOf) == Stacks([], [])
  {
    MakeThenRename(t, a, b, guidOf);
    var c1, c2 := ProjectCommand(MakeStep(a)), ProjectCommand(RenameStep(a, b));
    var s0, s1, s2 := State(t, w), State(t[a := Dir], w), State(Moved(t[a := Dir], a, b), w);
    var h := Stacks([c1, c2], []);
    EmptyZip(s0, guidOf);
    PushStep(Stacks([], []), s0, [s0], [s0], guidOf, c1, s1);
    PushStep(Stacks([c1], []), s1, [s0, s1], [s1], guidOf, c2, s2);
    assert [c1] + [c2] == h.undo && [s0, s1] + [s2] == [s0, s1, s2];
    ZipRunnable(h, s2, [s0, s1, s2], [s2], guidOf);
    assert c1 in h.undo && Stale(c1, ProjectKind, s2.tree, guidOf);
    AllDiscarded(h.undo, ProjectKind);
  }

  // All the way.

  /** Undo until there is nothing to undo, or a step fails. */
  ghost function UndoneAll(h: Stacks, s: State, guidOf: GuidReader): Turn
    decreases |h.undo|
  {
    if h.undo == [] || !AllRunnable(h) then Turn(h.undo == [], h, s)
    else
      var r := Undone(h, s, guidOf);
      if r.ok then UndoneAll(r.stacks, r.state, guidOf) else r
  }

  lemma ShiftOne(back: seq<State>, ahead: seq<State>, s: State)
    requires |back| >= 2 && Top(Rest(back)) == s
    ensures Rest(Rest(back)) + ([s] + ahead) == Rest(back) + ahead && Rest(back)[0] == back[0]
  {
    assert Rest(back) == Rest(Rest(back)) + [s];
  }

  /** Undoing everything reaches the base state exactly, and everything then waits to be redone. */
  lemma {:induction false} UndoAllReachesBase(
      h: Stacks, s: State, back: seq<State>, ahead: seq<State>, guidOf: GuidReader)
    requires Zip(h, s, back, ahead, guidOf)
    ensures var r := UndoneAll(h, s, guidOf);
            && r.ok && r.state == back[0] && r.stacks.undo == []
            && |r.stacks.redo| == |h.undo| + |h.redo|
            && Zip(r.stacks, back[0], [back[0]], Rest(back) + ahead, guidOf)
    decreases |h.undo|
  {
    if h.undo == [] {
      assert Rest(back) + ahead == ahead && back == [back[0]];
    } else {
      UndoStep(h, s, back, ahead, guidOf);
      ZipRunnable(h, s, back, ahead, guidOf);
      var r := Undone(h, s, guidOf);
      UndoAllReachesBase(r.stacks, r.state, Rest(back), [r.state] + ahead, guidOf);
      ShiftOne(back, ahead, r.state);
    }
  }

  datatype Snapshot = Snapshot(stacks: Stacks, state: State)

  /** Each snapshot is the one before it after one redo. */
  ghost predicate RedoRun(run: seq<Snapshot>, guidOf: GuidReader) {
    && run != []
    && forall i | 0 <= i < |run| - 1 :: RedoneOnce(run[i], run[i + 1], guidOf)
  }

  ghost predicate RedoneOnce(a: Snapshot, b: Snapshot, guidOf: GuidReader) {
    && AllRunnable(a.stacks)
    && exists g: Path -> Guid, ok: bool :: Redone(a.stacks, a.state, g, guidOf, Turn(ok, b.stacks, b.state))
  }

  /** Redoing as often as there are steps ahead reaches the latest state, up to generated GUIDs, and leaves a chain
      that is exact again for undo. */
  lemma {:induction false} RedoAllReachesLatest(
      run: seq<Snapshot>, back: seq<State>, ahead: seq<State>, guidOf: GuidReader)
    requires RedoRun(run, guidOf) && |run| == |run[0].stacks.redo| + 1
    requires Zip(run[0].stacks, run[0].state, back, ahead, guidOf)
    ensures var last := Top(run);
            && last.stacks.redo == [] && StateAlike(last.state, Top(ahead))
            && exists b :: Zip(last.stacks, last.state, b, [last.state], guidOf) && back <= b
    decreases |run|
  {
    if |run| == 1 {
      AlikeRefl(run[0].state.tree);
      assert ahead == [run[0].state];
    } else {
      assert RedoneOnce(run[0], run[1], guidOf);
      var g: Path -> Guid, ok: bool :|
        Redone(run[0].stacks, run[0].state, g, guidOf, Turn(ok, run[1].stacks, run[1].state));
      RedoStep(run[0].stacks, run[0].state, back, ahead, guidOf, g, Turn(ok, run[1].stacks, run[1].state));
      var ahead1 := [run[1].state] + ahead[2..];
      forall i | 0 <= i < |run| - 2
        ensures RedoneOnce(run[1..][i], run[1..][i + 1], guidOf)
      {
        assert RedoneOnce(run[i + 1], run[i + 2], guidOf);
      }
      RedoneFewer(run[0].stacks, run[0].state, g, guidOf, Turn(ok, run[1].stacks, run[1].state));
      RedoAllReachesLatest(run[1..], back + [run[1].state], ahead1, guidOf);
      assert Top(run[1..]) == Top(run);
      if |ahead| == 2 {
        assert Top(ahead1) == run[1].state;
        AlikeTransitive(Top(run).state.tree, run[1].state.tree, ahead[1].tree);
      } else {
        assert Top(ahead1) == Top(ahead);
      }
      var b :| Zip(Top(run).stacks, Top(run).state, b, [Top(run).state], guidOf) && back + [run[1].state] <= b;
      assert back <= b;
    }
  }

  lemma RedoneFewer(h: Stacks, s: State, g: Path -> Guid, guidOf: GuidReader, r: Turn)
    requires AllRunnable(h) && h.redo != [] && Redone(h, s, g, guidOf, r) && r.ok
    ensures |r.stacks.redo| == |h.redo| - 1
  {
  }

  /** From any point of a run: undo everything, redo everything, and the state is back up to generated GUIDs. */
  lemma UndoAllRedoAll(
      h: Stacks, s: State, back: seq<State>, ahead: seq<State>, guidOf: GuidReader, run: seq<Snapshot>)
    requires Zip(h, s, back, ahead, guidOf)
    requires RedoRun(run, guidOf) && |run| == |h.undo| + |h.redo| + 1
    requires var r := UndoneAll(h, s, guidOf); run[0] == Snapshot(r.stacks, r.state)
    ensures StateAlike(Top(run).state, Top(ahead))
  {
    UndoAllReachesBase(h, s, back, ahead, guidOf);
    RedoAllReachesLatest(run, [back[0]], Rest(back) + ahead, guidOf);
    assert Top(Rest(back) + ahead) == Top(ahead);
  }

  // Every run.

  /** One step of a run in which nothing but the editor changes the files and the world.  A push follows the edit that
      made the step; a push that merges comes only when there is nothing to redo. */
  ghost predicate Next(a: Snapshot, b: Snapshot, guidOf: GuidReader) {
    || (exists c :: PushNext(a, b, c, guidOf))
    || (AllRunnable(a.stacks) && exists ok: bool :: Undone(a.stacks, a.state, guidOf) == Turn(ok, b.stacks, b.state))
    || RedoneOnce(a, b, guidOf)
    || (exists kind :: b == Snapshot(Discarded(a.stacks, kind), a.state))
    || (AllRunnable(a.stacks)
        && exists kind :: b == Snapshot(Validated(a.stacks, kind, a.state.tree, guidOf), a.state))
    || b == Snapshot(Stacks([], []), a.state)
  }

  ghost predicate PushNext(a: Snapshot, b: Snapshot, c: Command, guidOf: GuidReader) {
    && Linked(c, a.state, b.state, guidOf) && b.stacks == Pushed(a.stacks, c)
    && (a.stacks.undo != [] && Merges(Top(a.stacks.undo), c) ==>
          a.stacks.redo == [] && SameField(Top(a.stacks.undo).entity, c.entity))
  }

  ghost predicate Zipped(x: Snapshot, guidOf: GuidReader) {
    exists back, ahead :: Zip(x.stacks, x.state, back, ahead, guidOf)
  }

  lemma NextKeepsZip(a: Snapshot, b: Snapshot, guidOf: GuidReader)
    requires Zipped(a, guidOf) && Next(a, b, guidOf)
    ensures Zipped(b, guidOf)
  {
    var back, ahead :| Zip(a.stacks, a.state, back, ahead, guidOf);
    if c :| PushNext(a, b, c, guidOf) {
      if a.stacks.undo != [] && Merges(Top(a.stacks.undo), c) {
        MergeStep(a.stacks, a.state, back, ahead, guidOf, c, b.state);
      } else {
        PushStep(a.stacks, a.state, back, ahead, guidOf, c, b.state);
      }
    } else if AllRunnable(a.stacks)
        && exists ok: bool :: Undone(a.stacks, a.state, guidOf) == Turn(ok, b.stacks, b.state) {
      if a.stacks.undo != [] {
        UndoStep(a.stacks, a.state, back, ahead, guidOf);
      }
    } else if RedoneOnce(a, b, guidOf) {
      var g: Path -> Guid, ok: bool :| Redone(a.stacks, a.state, g, guidOf, Turn(ok, b.stacks, b.state));
      if a.stacks.redo != [] {
        RedoStep(a.stacks, a.state, back, ahead, guidOf, g, Turn(ok, b.stacks, b.state));
      }
    } else if kind :| b == Snapshot(Discarded(a.stacks, kind), a.state) {
      DiscardStep(a.stacks, a.state, back, ahead, guidOf, kind);
    } else if AllRunnable(a.stacks)
        && exists kind :: b == Snapshot(Validated(a.stacks, kind, a.state.tree, guidOf), a.state) {
      var kind :| b == Snapshot(Validated(a.stacks, kind, a.state.tree, guidOf), a.state);
      DiscardStep(a.stacks, a.state, back, ahead, guidOf, kind);
    } else {
      assert Zip(b.stacks, b.state, [b.state], [b.state], guidOf);
    }
  }

  /** In every run from an empty history, at every point, the two stacks are a zipper over one chain of states. */
  lemma {:induction false} EveryRunIsAZipper(run: seq<Snapshot>, guidOf: GuidReader, i: nat)
    requires i < |run| && run[0].stacks == Stacks([], [])
    requires forall k | 0 <= k < |run| - 1 :: Next(run[k], run[k + 1], guidOf)
    ensures Zipped(run[i], guidOf)
  {
    if i == 0 {
      assert Zip(run[0].stacks, run[0].state, [run[0].state], [run[0].state], guidOf);
    } else {
      EveryRunIsAZipper(run, guidOf, i - 1);
      NextKeepsZip(run[i - 1], run[i], guidOf);
    }
  }

  // A merging push that breaks the chain.

  function Holding(n: int): FieldTable {
    [Field("v", Int(n))]
  }

  /** One entity with one component whose one field holds `n`. */
  function WorldOf(n: int): World {
    History.World.World({0}, map["C" := []], map[(0, "C") := Holding(n)])
  }

  function Setting(from: int, to: int, coalesce: string): Command {
    EntityCommand(EntityEdit(0, "C", Set, Holding(from), Holding(to), coalesce))
  }

  lemma SettingLinks(t: Tree, from: int, to: int, coalesce: string, guidOf: GuidReader)
    ensures Linked(Setting(from, to, coalesce), State(t, WorldOf(from)), State(t, WorldOf(to)), guidOf)
    ensures Ahead(Setting(from, to, coalesce), State(t, WorldOf(from)), State(t, WorldOf(to)))
  {
    AlikeRefl(t);
    var w, v := WorldOf(from), WorldOf(to);
    assert w.components[(0, "C") := Holding(to)] == v.components;
    assert v.components[(0, "C") := Holding(from)] == w.components;
  }

  /** A field set to 1 and then to 2, the second undone, and the field typed into again: 3.  The two stacks are a zipper
      before the last push and over no chain after it. */
  lemma MergeCanBreakTheChain(t: Tree, guidOf: GuidReader)
    ensures var first, second, third := Setting(0, 1, "f"), Setting(1, 2, "g"), Setting(1, 3, "f");
      var h := Pushed(Pushed(Stacks([], []), first), second);
      AllRunnable(h) && var r := Undone(h, State(t, WorldOf(2)), guidOf);
      r.ok && r.state == State(t, WorldOf(1)) && Zipped(Snapshot(r.stacks, r.state), guidOf)
      && Linked(third, r.state, State(t, WorldOf(3)), guidOf)
      && !Zipped(Snapshot(Pushed(r.stacks, third), State(t, WorldOf(3))), guidOf)
  {
    hide Undone, Zip, Pushed, AllRunnable, Setting;
    SecondUndone(t, guidOf);
    SettingLinks(t, 1, 3, "f", guidOf);
    ChainBeforeTheMerge(t, guidOf);
    NoChainAfterTheMerge(t, guidOf);
  }

  lemma SecondUndone(t: Tree, guidOf: GuidReader)
    ensures var first, second := Setting(0, 1, "f"), Setting(1, 2, "g");
      var h := Pushed(Pushed(Stacks([], []), first), second);
      AllRunnable(h)
      && Undone(h, State(t, WorldOf(2)), guidOf) == Turn(true, Stacks([first], [second]), State(t, WorldOf(1)))
  {
    var first, second := Setting(0, 1, "f"), Setting(1, 2, "g");
    SettingLinks(t, 1, 2, "g", guidOf);
    UndoLinked(second, State(t, WorldOf(1)), State(t, WorldOf(2)), guidOf);
    assert Pushed(Pushed(Stacks([], []), first), second) == Stacks([first, second], []);
  }

  lemma ChainBeforeTheMerge(t: Tree, guidOf: GuidReader)
    ensures Zip(Stacks([Setting(0, 1, "f")], [Setting(1, 2, "g")]), State(t, WorldOf(1)),
      [State(t, WorldOf(0)), State(t, WorldOf(1))], [State(t, WorldOf(1)), State(t, WorldOf(2))], guidOf)
  {
    SettingLinks(t, 0, 1, "f", guidOf);
    SettingLinks(t, 1, 2, "g", guidOf);
    var redo := [Setting(1, 2, "g")];
    assert Reversed(redo) == redo;
  }

  lemma NoChainAfterTheMerge(t: Tree, guidOf: GuidReader)
    ensures var h := Pushed(Stacks([Setting(0, 1, "f")], [Setting(1, 2, "g")]), Setting(1, 3, "f"));
      !Zipped(Snapshot(h, State(t, WorldOf(3))), guidOf)
  {
    var h := Stacks([Setting(0, 1, "f")], [Setting(1, 2, "g")]);
    var third, s, u := Setting(1, 3, "f"), State(t, WorldOf(1)), State(t, WorldOf(3));
    SettingLinks(t, 1, 3, "f", guidOf);
    ChainBeforeTheMerge(t, guidOf);
    MergeUnderRedo(h, s, [State(t, WorldOf(0)), s], [s, State(t, WorldOf(2))], guidOf, third, u);
    assert h.redo[0].entity.Slot() == third.entity.Slot();
    assert Holding(3)[0] != Holding(1)[0];
    assert u.world.components[(0, "C")] != s.world.components[(0, "C")];
  }
}
