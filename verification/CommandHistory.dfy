/** The editor's one history, with the two stacks it changes in place. */
module CommandHistory {
  import opened FileTree
  import opened Sidecars
  import opened ProjectEdit
  import opened EditTheorems
  import opened ProjectStep
  import opened EditSteps
  import opened Fields
  import opened History
  import opened Zipper

  /** The world being edited. */
  class Scene {
    var world: World

    constructor (w: World)
      ensures world == w
    {
      world := w;
    }

    method Read(slot: Slot, table: FieldTable) returns (ok: bool)
      modifies this
      ensures Wrote(ok, world) == ReadComponent(old(world), slot, table)
    {
      ok := slot.1 in world.registry && slot.0 in world.alive;
      if ok {
        world := world.(components := world.components[slot := Loaded(world, slot.1, table)]);
      }
    }

    method Erase(slot: Slot) returns (ok: bool)
      modifies this
      ensures Wrote(ok, world) == EraseComponent(old(world), slot)
    {
      ok := slot.1 in world.registry && slot.0 in world.alive && slot in world.components;
      if ok {
        world := world.(components := world.components - {slot});
      }
    }

    method ApplyEdit(e: EntityEdit, forward: bool) returns (ok: bool)
      modifies this
      ensures Wrote(ok, world) == ApplyEntity(e, old(world), forward)
    {
      if e.entity !in world.alive {
        return true;
      }
      var adding := if e.change == Add then forward else if e.change == Remove then !forward else forward;
      if e.change == Set || adding {
        ok := Read(e.Slot(), if forward then e.after else e.before);
      } else {
        ok := Erase(e.Slot());
      }
    }
  }

  class CommandHistory {
    var undoStack: seq<Command>
    var redoStack: seq<Command>

    constructor ()
      ensures Both() == Stacks([], [])
    {
      undoStack, redoStack := [], [];
    }

    function Both(): Stacks
      reads this
    {
      Stacks(undoStack, redoStack)
    }

    method Push(command: Command)
      modifies this
      ensures Both() == Pushed(old(Both()), command)
    {
      if undoStack != [] && Merges(Top(undoStack), command) {
        undoStack := undoStack[|undoStack| - 1 := Merged(Top(undoStack), command)];
        return;
      }
      undoStack := undoStack + [command];
      redoStack := [];
    }

    /** A step that fails leaves both stacks exactly as they were. */
    method Undo(disk: Disk, scene: Scene, guidOf: GuidReader) returns (ok: bool)
      requires AllRunnable(Both())
      modifies this, disk, scene
      ensures Turn(ok, Both(), State(disk.tree, scene.world))
              == Undone(old(Both()), old(State(disk.tree, scene.world)), guidOf)
      ensures !ok ==> undoStack == old(undoStack) && redoStack == old(redoStack)
    {
      if undoStack == [] {
        return false;
      }
      var command := Top(undoStack);
      assert command in undoStack;
      undoStack := Rest(undoStack);
      match command {
        case ProjectCommand(edit) =>
          var after;
          ok, after := RevertStep(disk, edit, guidOf);
          command := ProjectCommand(after);
        case EntityCommand(edit) =>
          ok := scene.ApplyEdit(edit, false);
      }
      if !ok {
        undoStack := undoStack + [command];
        return;
      }
      redoStack := redoStack + [command];
    }

    /** `g` is what the generator draws for the sidecars a file step writes again. */
    method Redo(disk: Disk, scene: Scene, g: Path -> Guid, guidOf: GuidReader) returns (ok: bool)
      requires AllRunnable(Both()) && Closed(disk.tree)
      modifies this, disk, scene
      ensures Redone(old(Both()), old(State(disk.tree, scene.world)), g, guidOf,
                     Turn(ok, Both(), State(disk.tree, scene.world)))
      ensures !ok ==> undoStack == old(undoStack) && redoStack == old(redoStack)
    {
      if redoStack == [] {
        return false;
      }
      var command := Top(redoStack);
      assert command in redoStack;
      redoStack := Rest(redoStack);
      match command {
        case ProjectCommand(edit) =>
          var after;
          ok, after := ApplyStep(disk, edit, g, guidOf);
          command := ProjectCommand(after);
        case EntityCommand(edit) =>
          ok := scene.ApplyEdit(edit, true);
      }
      ghost var d := Done(ok, command, State(disk.tree, scene.world));
      assert RedoCommand(Top(old(redoStack)), old(State(disk.tree, scene.world)), g, guidOf, d);
      if !ok {
        redoStack := redoStack + [command];
        return;
      }
      undoStack := undoStack + [command];
    }

    method Clear()
      modifies this
      ensures Both() == Stacks([], [])
    {
      undoStack, redoStack := [], [];
    }

    method Discard(kind: StepKind)
      modifies this
      ensures Both() == Discarded(old(Both()), kind)
    {
      undoStack := EraseKind(undoStack, kind);
      redoStack := EraseKind(redoStack, kind);
    }

    method Validate(kind: StepKind, disk: Disk, guidOf: GuidReader)
      requires AllRunnable(Both())
      modifies this
      ensures Both() == Validated(old(Both()), kind, disk.tree, guidOf)
    {
      var stale := HasStale(undoStack, kind, disk.tree, guidOf);
      if !stale {
        stale := HasStale(redoStack, kind, disk.tree, guidOf);
      }
      if stale {
        Discard(kind);
      }
    }

    method Count(kind: StepKind) returns (total: nat)
      ensures total == |undoStack| - |OtherThan(undoStack, kind)|
    {
      total := 0;
      for i := 0 to |undoStack|
        invariant total + |undoStack[i..]| - |OtherThan(undoStack[i..], kind)|
          == |undoStack| - |OtherThan(undoStack, kind)|
      {
        assert undoStack[i..][0] == undoStack[i] && undoStack[i..][1..] == undoStack[i + 1..];
        if undoStack[i].Kind() == kind {
          total := total + 1;
        }
      }
    }
  }

  /** `std::erase_if` on the kind. */
  method EraseKind(cs: seq<Command>, kind: StepKind) returns (kept: seq<Command>)
    ensures kept == OtherThan(cs, kind)
  {
    kept := [];
    for i := 0 to |cs|
      invariant kept + OtherThan(cs[i..], kind) == OtherThan(cs, kind)
    {
      KeepOne(kept, cs, i, kind);
      if cs[i].Kind() != kind {
        kept := kept + [cs[i]];
      }
    }
    assert OtherThan(cs[|cs|..], kind) == [];
  }

  lemma KeepOne(kept: seq<Command>, cs: seq<Command>, i: nat, kind: StepKind)
    requires i < |cs|
    ensures kept + OtherThan(cs[i..], kind)
      == (if cs[i].Kind() == kind then kept else kept + [cs[i]]) + OtherThan(cs[i + 1..], kind)
  {
    var rest := OtherThan(cs[i + 1..], kind);
    assert cs[i..][0] == cs[i] && cs[i..][1..] == cs[i + 1..];
    Regroup(kept, if cs[i].Kind() == kind then [] else [cs[i]], rest);
    assert kept + [] == kept;
  }

  lemma Regroup(a: seq<Command>, b: seq<Command>, c: seq<Command>)
    ensures a + (b + c) == (a + b) + c
  {
  }

  method HasStale(cs: seq<Command>, kind: StepKind, t: Tree, guidOf: GuidReader) returns (stale: bool)
    requires forall c | c in cs :: Runnable(c)
    ensures stale <==> exists c | c in cs :: Stale(c, kind, t, guidOf)
  {
    for i := 0 to |cs|
      invariant forall c | c in cs[..i] :: !Stale(c, kind, t, guidOf)
    {
      assert cs[i] in cs && cs[..i + 1] == cs[..i] + [cs[i]];
      if cs[i].Kind() == kind && cs[i].ProjectCommand? {
        var valid := MatchesOne(t, cs[i].edit, guidOf);
        if !valid {
          return true;
        }
      }
    }
    assert cs[..|cs|] == cs;
    stale := false;
  }

  // Where the steps of the chain come from.

  /** The step a factory hands over on a well-formed tree, for plain names, extends the chain. */
  lemma FactoryStepLinks(step: Edit, t: Tree, u: Tree, w: World, g: Path -> Guid, guidOf: GuidReader)
    requires Started(step, t, u, g, guidOf) && WellFormed(t) && Plain(step)
    requires step.kind != Delete ==> step.to !in t
    ensures Linked(ProjectCommand(step), State(t, w), State(u, w), guidOf)
  {
    WellFormedReversible(step, t, g);
  }

  /** So does the step of an inspector edit whose `before` is what the component was. */
  lemma InspectorStepLinks(e: EntityEdit, t: Tree, w: World, guidOf: GuidReader)
    requires StartsFrom(e, w)
    ensures Linked(EntityCommand(e), State(t, w), State(t, ApplyEntity(e, w, true).world), guidOf)
  {
    EntityEditLinks(e, w);
  }
}
