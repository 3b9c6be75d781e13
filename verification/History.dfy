/** What the steps of the editor's one history do to the project tree and the world, and what ties the two stacks to
    a chain of states. */
module History {
  import opened FileTree
  import opened Sidecars
  import opened ProjectEdit
  import opened EditTheorems
  import opened EditSteps
  import opened Fields

  // Entity steps.

  type Slot = (nat, string)

  /** The components of the entities that are alive.  `registry` maps each registered component to the table of its
      defaults, which an empty table stands for. */
  datatype World = World(alive: set<nat>, registry: map<string, FieldTable>, components: map<Slot, FieldTable>)

  datatype Wrote = Wrote(ok: bool, world: World)

  datatype Change = Set | Add | Remove

  datatype EntityEdit = EntityEdit(
    entity: nat, component: string, change: Change, before: FieldTable, after: FieldTable, coalesce: string)
  {
    function Slot(): Slot {
      (entity, component)
    }
  }

  function Loaded(w: World, name: string, table: FieldTable): FieldTable
    requires name in w.registry
  {
    if table == [] then w.registry[name] else table
  }

  function ReadComponent(w: World, slot: Slot, table: FieldTable): Wrote {
    if slot.1 !in w.registry || slot.0 !in w.alive then Wrote(false, w)
    else Wrote(true, w.(components := w.components[slot := Loaded(w, slot.1, table)]))
  }

  function EraseComponent(w: World, slot: Slot): Wrote {
    if slot.1 !in w.registry || slot.0 !in w.alive || slot !in w.components then Wrote(false, w)
    else Wrote(true, w.(components := w.components - {slot}))
  }

  /** `EntityEditCommand::apply`.  A step of an entity that is gone is skipped. */
  function ApplyEntity(e: EntityEdit, w: World, forward: bool): Wrote {
    if e.entity !in w.alive then Wrote(true, w)
    else if e.change == Set || (e.change == Add) == forward
    then ReadComponent(w, e.Slot(), if forward then e.after else e.before)
    else EraseComponent(w, e.Slot())
  }

  /** The step takes `w` to `v`, and taking it back gives `w` again. */
  predicate EntityLinked(e: EntityEdit, w: World, v: World) {
    ApplyEntity(e, w, true) == Wrote(true, v) && ApplyEntity(e, v, false) == Wrote(true, w)
  }

  /** `before` is what the component was, or the component is absent when the step adds it. */
  predicate StartsFrom(e: EntityEdit, w: World) {
    e.entity in w.alive ==>
      && e.component in w.registry
      && match e.change
         case Add => e.Slot() !in w.components
         case _ => e.Slot() in w.components && w.components[e.Slot()] == Loaded(w, e.component, e.before)
  }

  /** An inspector edit is undone exactly when its `before` table is what the component really was. */
  lemma EntityEditLinks(e: EntityEdit, w: World)
    ensures EntityLinked(e, w, ApplyEntity(e, w, true).world) <==> StartsFrom(e, w)
  {
    if e.entity in w.alive && e.component in w.registry {
      var slot := e.Slot();
      var m := w.components;
      var v := ApplyEntity(e, w, true).world;
      match e.change
      case Set =>
        var set1 := m[slot := Loaded(w, e.component, e.after)];
        var set2 := set1[slot := Loaded(w, e.component, e.before)];
        if StartsFrom(e, w) {
          assert set2 == m;
        }
        if set2 == m {
          assert slot in m;
        }
      case Add =>
        if StartsFrom(e, w) {
          assert m[slot := Loaded(w, e.component, e.after)] - {slot} == m;
        }
      case Remove =>
        if slot in m {
          var put := (m - {slot})[slot := Loaded(w, e.component, e.before)];
          if StartsFrom(e, w) {
            assert put == m;
          }
        }
    }
  }

  /** What an entity step leaves of every component, forwards and backwards.  Nothing of an entity that is gone; nothing
      where the component is not registered, and that is a failure.  Otherwise setting puts the table of its direction,
      adding puts `after` and is undone by removing, removing is undone by putting `before`; an empty table stands for
      the defaults, and removing what is not there is a failure. */
  lemma EntityEffect(e: EntityEdit, w: World, forward: bool, other: Slot)
    ensures var r, slot := ApplyEntity(e, w, forward), (e.entity, e.component);
      var puts := e.change == Set || (e.change == Add && forward) || (e.change == Remove && !forward);
      var table := if forward then e.after else e.before;
      && r.world.alive == w.alive && r.world.registry == w.registry
      && (other != slot && other in w.components ==>
            other in r.world.components && r.world.components[other] == w.components[other])
      && (other != slot && other !in w.components ==> other !in r.world.components)
      && if e.entity !in w.alive then r == Wrote(true, w)
         else if e.component !in w.registry then r == Wrote(false, w)
         else if puts then
           r.ok && slot in r.world.components
           && r.world.components[slot] == if table == [] then w.registry[e.component] else table
         else if slot in w.components then r.ok && slot !in r.world.components
         else r == Wrote(false, w)
  {
  }

  // Steps of either kind.

  datatype StepKind = ProjectKind | EntityKind

  datatype Command = ProjectCommand(edit: Edit) | EntityCommand(entity: EntityEdit) {
    function Kind(): StepKind {
      if ProjectCommand? then ProjectKind else EntityKind
    }
  }

  datatype State = State(tree: Tree, world: World)

  /** What a command or the history did: success, the command as it is afterwards, and the state. */
  datatype Done = Done(ok: bool, command: Command, state: State)

  predicate Runnable(c: Command) {
    c.ProjectCommand? ==> WellMade(c.edit)
  }

  function UndoCommand(c: Command, s: State, guidOf: GuidReader): Done
    requires Runnable(c)
  {
    match c
    case ProjectCommand(e) =>
      var r := Revert(e, s.tree, guidOf);
      Done(r.ok, if r.ok then ProjectCommand(e.(applied := false)) else c, s.(tree := r.tree))
    case EntityCommand(e) =>
      var r := ApplyEntity(e, s.world, false);
      Done(r.ok, c, s.(world := r.world))
  }

  /** `d` is a possible outcome of redoing `c` in `s` when the generator draws `g`.  A file step records the tree it
      finds anew. */
  ghost predicate RedoCommand(c: Command, s: State, g: Path -> Guid, guidOf: GuidReader, d: Done)
    requires Runnable(c)
  {
    match c
    case ProjectCommand(e) =>
      && Ran(d.ok, d.state.tree) == Apply(e, s.tree, g) && d.state.world == s.world
      && d.command.ProjectCommand? && SameStep(d.command.edit, e) && WellMade(d.command.edit)
      && (if d.ok then Recorded(d.command.edit, s.tree, d.state.tree, guidOf) else d.command == c)
    case EntityCommand(e) =>
      && Wrote(d.ok, d.state.world) == ApplyEntity(e, s.world, true) && d.state.tree == s.tree
      && d.command == c
  }

  // The chain.

  ghost predicate StateAlike(a: State, b: State) {
    a.world == b.world && Alike(a.tree, b.tree)
  }

  /** `c`, as it stands, took the state from `s` to `u`, and undoing it in `u` gives back `s` exactly. */
  ghost predicate Linked(c: Command, s: State, u: State, guidOf: GuidReader) {
    match c
    case ProjectCommand(e) =>
      && u.world == s.world
      && Steady(e, s.tree)
      && Recorded(e, s.tree, u.tree, guidOf)
      && exists g: Path -> Guid :: Apply(e, s.tree, g) == Ran(true, u.tree)
    case EntityCommand(e) =>
      u.tree == s.tree && EntityLinked(e, s.world, u.world)
  }

  /** A file step that can run in this tree and be taken back exactly. */
  ghost predicate Steady(e: Edit, t: Tree) {
    WellMade(e) && Plain(e) && Closed(t) && Reversible(e, t)
  }

  function Zeros(): Path -> Guid {
    _ => "00000000000000000000000000000000"
  }

  /** Redoing `c` in `s` leads to `u`, up to the GUIDs of sidecars it generates. */
  ghost predicate Ahead(c: Command, s: State, u: State) {
    match c
    case ProjectCommand(e) =>
      && u.world == s.world
      && Steady(e, s.tree)
      && Apply(e, s.tree, Zeros()).ok
      && Alike(Apply(e, s.tree, Zeros()).tree, u.tree)
    case EntityCommand(e) =>
      Alike(s.tree, u.tree) && EntityLinked(e, s.world, u.world)
  }

  lemma SameStepSame(a: Edit, b: Edit, t: Tree, g: Path -> Guid)
    requires SameStep(a, b) && WellMade(a) && WellMade(b)
    ensures Apply(a, t, g) == Apply(b, t, g)
    ensures Steady(a, t) <==> Steady(b, t)
  {
    if a.kind != Delete {
      assert AfterCreate(a, t, g) == AfterCreate(b, t, g);
      assert AfterCopy(a, t, g) == AfterCopy(b, t, g);
    }
  }

  lemma AlikeRefl(t: Tree)
    ensures Alike(t, t)
  {
  }

  /** Undoing a linked step is exact, and leaves a step that can be redone. */
  lemma UndoLinked(c: Command, s: State, u: State, guidOf: GuidReader)
    requires Linked(c, s, u, guidOf)
    ensures Runnable(c) && var d := UndoCommand(c, u, guidOf);
            d.ok && d.state == s && Ahead(d.command, s, u)
  {
    match c
    case ProjectCommand(e) =>
      var g: Path -> Guid :| Apply(e, s.tree, g) == Ran(true, u.tree);
      RoundTrip(e, s.tree, g, guidOf);
      var f := e.(applied := false);
      SameStepSame(f, e, s.tree, g);
      SameStepSame(f, e, s.tree, Zeros());
      AlikeRefl(s.tree);
      ApplyAlike(e, s.tree, s.tree, Zeros(), g);
    case EntityCommand(e) =>
      AlikeRefl(s.tree);
  }

  /** Redoing a step that is ahead succeeds, links it, and reaches what was there up to generated GUIDs. */
  lemma RedoAhead(c: Command, s: State, u: State, g: Path -> Guid, guidOf: GuidReader, d: Done)
    requires Ahead(c, s, u) && RedoCommand(c, s, g, guidOf, d)
    ensures d.ok && Linked(d.command, s, d.state, guidOf) && StateAlike(d.state, u)
  {
    match c
    case ProjectCommand(e) =>
      AlikeRefl(s.tree);
      ApplyAlike(e, s.tree, s.tree, g, Zeros());
      AlikeTransitive(d.state.tree, Apply(e, s.tree, Zeros()).tree, u.tree);
      SameStepSame(d.command.edit, e, s.tree, g);
    case EntityCommand(e) =>
  }

  lemma AheadAlike(c: Command, s: State, r: State, u: State)
    requires Ahead(c, s, u) && StateAlike(r, s)
    ensures Ahead(c, r, u)
  {
    match c
    case ProjectCommand(e) =>
      AlikeSymmetric(r.tree, s.tree);
      AlikeClosed(s.tree, r.tree);
      ReversibleAlike(e, s.tree, r.tree);
      ApplyAlike(e, r.tree, s.tree, Zeros(), Zeros());
      AlikeTransitive(Apply(e, r.tree, Zeros()).tree, Apply(e, s.tree, Zeros()).tree, u.tree);
    case EntityCommand(e) =>
      AlikeTransitive(r.tree, s.tree, u.tree);
  }
}
