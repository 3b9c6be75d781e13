/** The two stacks of the history, and the chain of states they are a zipper over. */
module Zipper {
  import opened FileTree
  import opened Sidecars
  import opened ProjectEdit
  import opened Fields
  import opened History

  /** The end of each sequence is the top of the stack. */
  datatype Stacks = Stacks(undo: seq<Command>, redo: seq<Command>)

  datatype Turn = Turn(ok: bool, stacks: Stacks, state: State)

  function Top<T>(s: seq<T>): T
    requires s != []
  {
    s[|s| - 1]
  }

  function Rest<T>(s: seq<T>): seq<T>
    requires s != []
  {
    s[..|s| - 1]
  }

  function Reversed<T>(s: seq<T>): seq<T> {
    if s == [] then [] else [Top(s)] + Reversed(Rest(s))
  }

  lemma ReversedPush<T>(s: seq<T>, x: T)
    ensures Reversed(s + [x]) == [x] + Reversed(s)
  {
    assert Rest(s + [x]) == s;
  }

  // What the history does to its stacks.

  /** `merges_with`: only the coalescing key is compared. */
  predicate Merges(older: Command, newer: Command) {
    older.EntityCommand? && newer.EntityCommand?
    && older.entity.coalesce != "" && older.entity.coalesce == newer.entity.coalesce
  }

  function Merged(older: Command, newer: Command): Command
    requires Merges(older, newer)
  {
    EntityCommand(older.entity.(after := newer.entity.after))
  }

  /** A merging push replaces the top and keeps the redo stack; any other push clears it. */
  function Pushed(h: Stacks, c: Command): Stacks {
    if h.undo != [] && Merges(Top(h.undo), c) then h.(undo := Rest(h.undo) + [Merged(Top(h.undo), c)])
    else Stacks(h.undo + [c], [])
  }

  predicate AllRunnable(h: Stacks) {
    (forall c | c in h.undo :: Runnable(c)) && (forall c | c in h.redo :: Runnable(c))
  }

  function Undone(h: Stacks, s: State, guidOf: GuidReader): Turn
    requires AllRunnable(h)
  {
    if h.undo == [] then Turn(false, h, s)
    else
      var d := UndoCommand(Top(h.undo), s, guidOf);
      Turn(d.ok, if d.ok then Stacks(Rest(h.undo), h.redo + [d.command]) else h, d.state)
  }

  ghost predicate Redone(h: Stacks, s: State, g: Path -> Guid, guidOf: GuidReader, r: Turn)
    requires AllRunnable(h)
  {
    if h.redo == [] then r == Turn(false, h, s)
    else
      exists d :: (
        && RedoCommand(Top(h.redo), s, g, guidOf, d)
        && r == Turn(d.ok, if d.ok then Stacks(h.undo + [d.command], Rest(h.redo)) else h, d.state))
  }

  function OtherThan(cs: seq<Command>, kind: StepKind): seq<Command> {
    if cs == [] then []
    else (if cs[0].Kind() == kind then [] else [cs[0]]) + OtherThan(cs[1..], kind)
  }

  function Discarded(h: Stacks, kind: StepKind): Stacks {
    Stacks(OtherThan(h.undo, kind), OtherThan(h.redo, kind))
  }

  /** Only a file step can be stale; an entity step never is. */
  predicate Stale(c: Command, kind: StepKind, t: Tree, guidOf: GuidReader)
    requires Runnable(c)
  {
    c.Kind() == kind && c.ProjectCommand? && !Matches(c.edit, t, guidOf)
  }

  predicate AnyStale(h: Stacks, kind: StepKind, t: Tree, guidOf: GuidReader)
    requires AllRunnable(h)
  {
    (exists c | c in h.undo :: Stale(c, kind, t, guidOf)) || (exists c | c in h.redo :: Stale(c, kind, t, guidOf))
  }

  function Validated(h: Stacks, kind: StepKind, t: Tree, guidOf: GuidReader): Stacks
    requires AllRunnable(h)
  {
    if AnyStale(h, kind, t, guidOf) then Discarded(h, kind) else h
  }

  /** Two inspector edits pushed one after the other: with one coalescing key they are one step, from the first `before`
      to the last `after`; with different keys, or none, they are two. */
  lemma PushesCoalesce(h: Stacks, first: EntityEdit, next: EntityEdit)
    requires h.undo == [] || !Merges(Top(h.undo), EntityCommand(first))
    ensures var p := Pushed(Pushed(h, EntityCommand(first)), EntityCommand(next));
      && p.redo == []
      && p.undo == if first.coalesce == next.coalesce && next.coalesce != ""
                   then h.undo + [EntityCommand(EntityEdit(first.entity, first.component, first.change, first.before,
                                                           next.after, first.coalesce))]
                   else h.undo + [EntityCommand(first), EntityCommand(next)]
  {
    var once := Pushed(h, EntityCommand(first));
    assert Rest(once.undo) == h.undo;
    assert h.undo + [EntityCommand(first)] + [EntityCommand(next)]
      == h.undo + [EntityCommand(first), EntityCommand(next)];
  }

  // The chain.

  ghost predicate BackChain(cs: seq<Command>, states: seq<State>, guidOf: GuidReader) {
    |states| == |cs| + 1 && forall i | 0 <= i < |cs| :: Linked(cs[i], states[i], states[i + 1], guidOf)
  }

  ghost predicate AheadChain(cs: seq<Command>, states: seq<State>) {
    |states| == |cs| + 1 && forall i | 0 <= i < |cs| :: Ahead(cs[i], states[i], states[i + 1])
  }

  /** `back` is the states from the base to the current one, `ahead` those from the current one to the latest. */
  ghost predicate Zip(h: Stacks, s: State, back: seq<State>, ahead: seq<State>, guidOf: GuidReader) {
    && BackChain(h.undo, back, guidOf) && Top(back) == s
    && AheadChain(Reversed(h.redo), ahead) && ahead[0] == s
  }

  lemma ZipRunnable(h: Stacks, s: State, back: seq<State>, ahead: seq<State>, guidOf: GuidReader)
    requires Zip(h, s, back, ahead, guidOf)
    ensures AllRunnable(h)
  {
    forall c | c in h.undo
      ensures Runnable(c)
    {
      var i :| 0 <= i < |h.undo| && h.undo[i] == c;
      assert Linked(c, back[i], back[i + 1], guidOf);
    }
    forall c | c in h.redo
      ensures Runnable(c)
    {
      InReversed(h.redo, c);
      var i :| 0 <= i < |Reversed(h.redo)| && Reversed(h.redo)[i] == c;
      assert Ahead(c, ahead[i], ahead[i + 1]);
    }
  }

  lemma {:induction false} InReversed<T>(s: seq<T>, x: T)
    requires x in s
    ensures x in Reversed(s)
  {
    if Top(s) != x {
      InReversed(Rest(s), x);
    }
  }

  /** Undo succeeds whenever there is something to undo, and goes back exactly one state. */
  lemma UndoStep(h: Stacks, s: State, back: seq<State>, ahead: seq<State>, guidOf: GuidReader)
    requires Zip(h, s, back, ahead, guidOf) && h.undo != []
    ensures AllRunnable(h) && var r := Undone(h, s, guidOf);
            r.ok && r.state == back[|back| - 2] && Zip(r.stacks, r.state, Rest(back), [r.state] + ahead, guidOf)
  {
    ZipRunnable(h, s, back, ahead, guidOf);
    var n := |h.undo|;
    var c := Top(h.undo);
    UndoLinked(c, back[n - 1], back[n], guidOf);
    var d := UndoCommand(c, s, guidOf);
    ReversedPush(h.redo, d.command);
    var cs, states := [d.command] + Reversed(h.redo), [back[n - 1]] + ahead;
    forall i | 0 <= i < |cs|
      ensures Ahead(cs[i], states[i], states[i + 1])
    {
      if i > 0 {
        assert cs[i] == Reversed(h.redo)[i - 1] && states[i] == ahead[i - 1] && states[i + 1] == ahead[i];
      }
    }
  }

  /** The chain ahead starts as well from a state that differs in generated GUIDs. */
  lemma ShiftAhead(cs: seq<Command>, states: seq<State>, r: State)
    requires AheadChain(cs, states) && cs != [] && StateAlike(r, states[1])
    ensures AheadChain(cs[1..], [r] + states[2..])
  {
    var ds, vs := cs[1..], [r] + states[2..];
    forall i | 0 <= i < |ds|
      ensures Ahead(ds[i], vs[i], vs[i + 1])
    {
      assert Ahead(cs[i + 1], states[i + 1], states[i + 2]);
      assert ds[i] == cs[i + 1] && vs[i + 1] == states[i + 2];
      if i == 0 {
        AheadAlike(ds[0], states[1], r, states[2]);
      } else {
        assert vs[i] == states[i + 1];
      }
    }
  }

  /** Redo succeeds whenever there is something to redo, and goes ahead one state, up to generated GUIDs. */
  lemma RedoStep(h: Stacks, s: State, back: seq<State>, ahead: seq<State>, guidOf: GuidReader, g: Path -> Guid, r: Turn)
    requires Zip(h, s, back, ahead, guidOf) && h.redo != []
    requires AllRunnable(h) && Redone(h, s, g, guidOf, r)
    ensures r.ok && StateAlike(r.state, ahead[1])
    ensures Zip(r.stacks, r.state, back + [r.state], [r.state] + ahead[2..], guidOf)
  {
    var c := Top(h.redo);
    var cs := Reversed(h.redo);
    assert cs[0] == c && cs[1..] == Reversed(Rest(h.redo));
    assert Ahead(cs[0], ahead[0], ahead[1]);
    var d :| RedoCommand(c, s, g, guidOf, d)
      && r == Turn(d.ok, if d.ok then Stacks(h.undo + [d.command], Rest(h.redo)) else h, d.state);
    RedoAhead(c, s, ahead[1], g, guidOf, d);
    BackPush(h.undo, back, d.command, d.state, guidOf);
    ShiftAhead(cs, ahead, d.state);
  }

  lemma BackPush(cs: seq<Command>, states: seq<State>, c: Command, u: State, guidOf: GuidReader)
    requires BackChain(cs, states, guidOf) && Linked(c, Top(states), u, guidOf)
    ensures BackChain(cs + [c], states + [u], guidOf)
  {
    var ds, vs := cs + [c], states + [u];
    forall i | 0 <= i < |ds|
      ensures Linked(ds[i], vs[i], vs[i + 1], guidOf)
    {
      if i < |cs| {
        assert ds[i] == cs[i] && vs[i] == states[i] && vs[i + 1] == states[i + 1];
      }
    }
  }

  /** Pushing a step that was just done, when it does not merge: the redo half is gone, everything else stands. */
  lemma PushStep(h: Stacks, s: State, back: seq<State>, ahead: seq<State>, guidOf: GuidReader, c: Command, u: State)
    requires Zip(h, s, back, ahead, guidOf) && Linked(c, s, u, guidOf)
    requires h.undo == [] || !Merges(Top(h.undo), c)
    ensures Zip(Pushed(h, c), u, back + [u], [u], guidOf)
  {
    BackPush(h.undo, back, c, u, guidOf);
  }

  // Merging.

  /** What the inspector's coalescing keys guarantee: they name one field of one component of one entity, and only
      edits of a value have one. */
  predicate SameField(older: EntityEdit, newer: EntityEdit) {
    && older.change == Set && newer.change == Set
    && older.entity == newer.entity && older.component == newer.component
  }

  lemma OverwrittenTwice(m: map<Slot, FieldTable>, slot: Slot, x: FieldTable, y: FieldTable)
    ensures m[slot := x][slot := y] == m[slot := y]
  {
  }

  lemma MergedLinks(older: EntityEdit, newer: EntityEdit, w0: World, w1: World, w2: World)
    requires SameField(older, newer) && EntityLinked(older, w0, w1) && EntityLinked(newer, w1, w2)
    ensures EntityLinked(older.(after := newer.after), w0, w2)
  {
    if older.entity in w0.alive {
      var slot := older.Slot();
      var m := w0.components;
      var x, y := Loaded(w0, older.component, older.after), Loaded(w0, older.component, newer.after);
      var z := Loaded(w0, older.component, older.before);
      OverwrittenTwice(m, slot, x, y);
      OverwrittenTwice(m, slot, x, z);
      OverwrittenTwice(m, slot, y, z);
    }
  }

  lemma MergeBack(h: Stacks, s: State, back: seq<State>, guidOf: GuidReader, c: Command, u: State)
    requires BackChain(h.undo, back, guidOf) && Top(back) == s && Linked(c, s, u, guidOf)
    requires h.undo != [] && Merges(Top(h.undo), c) && SameField(Top(h.undo).entity, c.entity)
    ensures BackChain(Pushed(h, c).undo, Rest(back) + [u], guidOf)
  {
    var older := Top(h.undo);
    BackPop(h.undo, back, guidOf);
    MergedLinked(older, c, Top(Rest(back)), s, u, guidOf);
    BackPush(Rest(h.undo), Rest(back), Merged(older, c), u, guidOf);
  }

  /** Two linked edits of one field, one after the other, are one linked edit. */
  lemma MergedLinked(older: Command, newer: Command, r: State, s: State, u: State, guidOf: GuidReader)
    requires Linked(older, r, s, guidOf) && Linked(newer, s, u, guidOf)
    requires Merges(older, newer) && SameField(older.entity, newer.entity)
    ensures Linked(Merged(older, newer), r, u, guidOf)
  {
    MergedLinks(older.entity, newer.entity, r.world, s.world, u.world);
  }

  lemma BackPop(cs: seq<Command>, states: seq<State>, guidOf: GuidReader)
    requires BackChain(cs, states, guidOf) && cs != []
    ensures BackChain(Rest(cs), Rest(states), guidOf)
    ensures Linked(Top(cs), Top(Rest(states)), Top(states), guidOf)
  {
    forall i | 0 <= i < |cs| - 1
      ensures Linked(Rest(cs)[i], Rest(states)[i], Rest(states)[i + 1], guidOf)
    {
      assert Linked(cs[i], states[i], states[i + 1], guidOf);
    }
    var n := |cs|;
    assert Linked(cs[n - 1], states[n - 1], states[n], guidOf);
  }

  /** With nothing to redo, a merging push keeps the chain: one undo restores what was before the first keystroke. */
  lemma MergeStep(h: Stacks, s: State, back: seq<State>, ahead: seq<State>, guidOf: GuidReader, c: Command, u: State)
    requires Zip(h, s, back, ahead, guidOf) && Linked(c, s, u, guidOf) && h.redo == []
    requires h.undo != [] && Merges(Top(h.undo), c) && SameField(Top(h.undo).entity, c.entity)
    ensures Zip(Pushed(h, c), u, Rest(back) + [u], [u], guidOf)
  {
    MergeBack(h, s, back, guidOf, c, u);
  }

  // Merging while there is something to redo.

  /** Some step waiting to be redone works on the component. */
  ghost predicate Touched(cs: seq<Command>, slot: Slot) {
    exists i :: 0 <= i < |cs| && cs[i].EntityCommand? && cs[i].entity.Slot() == slot
  }

  function With(w: World, slot: Slot, table: FieldTable): World {
    w.(components := w.components[slot := table])
  }

  lemma WithSame(w: World, slot: Slot)
    requires slot in w.components
    ensures With(w, slot, w.components[slot]) == w
  {
    assert w.components[slot := w.components[slot]] == w.components;
  }

  lemma ElsewhereLinked(e: EntityEdit, w: World, v: World, slot: Slot, table: FieldTable)
    requires EntityLinked(e, w, v) && e.Slot() != slot
    ensures EntityLinked(e, With(w, slot, table), With(v, slot, table))
  {
    if e.entity in w.alive {
      var m, k := w.components, e.Slot();
      EntityEditLinks(e, w);
      EntityEditLinks(e, With(w, slot, table));
      assert ApplyEntity(e, With(w, slot, table), true).world.components == With(v, slot, table).components;
    }
  }

  lemma AheadWith(c: Command, s: State, u: State, slot: Slot, table: FieldTable)
    requires Ahead(c, s, u)
    requires c.EntityCommand? ==> c.entity.Slot() != slot
    ensures Ahead(c, s.(world := With(s.world, slot, table)), u.(world := With(u.world, slot, table)))
  {
    if c.EntityCommand? {
      ElsewhereLinked(c.entity, s.world, u.world, slot, table);
    }
  }

  function AllWith(states: seq<State>, slot: Slot, table: FieldTable): seq<State> {
    seq(|states|, i requires 0 <= i < |states| => states[i].(world := With(states[i].world, slot, table)))
  }

  /** A step that works on the component cannot be ahead of two states that differ there. */
  lemma TouchedOnce(e: EntityEdit, w: World, v: World, x: FieldTable, u: World)
    requires e.entity in w.alive && e.Slot() in w.components
    requires EntityLinked(e, w, v) && EntityLinked(e, With(w, e.Slot(), x), u)
    ensures w.components[e.Slot()] == x
  {
    EntityEditLinks(e, w);
    EntityEditLinks(e, With(w, e.Slot(), x));
  }

  lemma {:induction false} ReversedIn<T>(s: seq<T>, x: T)
    ensures x in Reversed(s) <==> x in s
  {
    if s != [] {
      ReversedIn(Rest(s), x);
    }
  }

  /** Up to the first step that works on the component, both chains do the same around it. */
  lemma {:induction false} SameUntil(cs: seq<Command>, a: seq<State>, b: seq<State>, slot: Slot, x: FieldTable, k: nat)
    requires AheadChain(cs, a) && AheadChain(cs, b) && k <= |cs|
    requires b[0].world == With(a[0].world, slot, x)
    requires forall j | 0 <= j < k :: cs[j].EntityCommand? ==> cs[j].entity.Slot() != slot
    ensures b[k].world == With(a[k].world, slot, x)
    ensures a[k].world.alive == a[0].world.alive
    ensures slot in a[0].world.components ==>
      slot in a[k].world.components && a[k].world.components[slot] == a[0].world.components[slot]
  {
    if k > 0 {
      SameUntil(cs, a, b, slot, x, k - 1);
      assert Ahead(cs[k - 1], a[k - 1], a[k]) && Ahead(cs[k - 1], b[k - 1], b[k]);
      if cs[k - 1].EntityCommand? {
        ElsewhereLinked(cs[k - 1].entity, a[k - 1].world, a[k].world, slot, x);
      }
    }
  }

  lemma {:induction false} FirstTouch(cs: seq<Command>, slot: Slot, n: nat) returns (k: nat)
    requires n < |cs| && cs[n].EntityCommand? && cs[n].entity.Slot() == slot
    ensures k < |cs| && cs[k].EntityCommand? && cs[k].entity.Slot() == slot
    ensures forall j | 0 <= j < k :: cs[j].EntityCommand? ==> cs[j].entity.Slot() != slot
  {
    k := 0;
    while !(cs[k].EntityCommand? && cs[k].entity.Slot() == slot)
      invariant k <= n && forall j | 0 <= j < k :: cs[j].EntityCommand? ==> cs[j].entity.Slot() != slot
      decreases n - k
    {
      k := k + 1;
    }
  }

  /** A merging push that changes the value breaks the chain if a step on the same component waits to be redone. */
  lemma MergeBreaks(cs: seq<Command>, a: seq<State>, b: seq<State>, slot: Slot, x: FieldTable)
    requires AheadChain(cs, a) && AheadChain(cs, b) && Touched(cs, slot)
    requires slot.0 in a[0].world.alive && slot in a[0].world.components
    requires b[0].world == With(a[0].world, slot, x)
    ensures a[0].world.components[slot] == x
  {
    var n :| 0 <= n < |cs| && cs[n].EntityCommand? && cs[n].entity.Slot() == slot;
    var k := FirstTouch(cs, slot, n);
    SameUntil(cs, a, b, slot, x, k);
    assert Ahead(cs[k], a[k], a[k + 1]) && Ahead(cs[k], b[k], b[k + 1]);
    TouchedOnce(cs[k].entity, a[k].world, a[k + 1].world, x, b[k + 1].world);
  }

  lemma TouchedReversed(cs: seq<Command>, slot: Slot)
    ensures Touched(Reversed(cs), slot) <==> Touched(cs, slot)
  {
    if Touched(cs, slot) {
      var i :| 0 <= i < |cs| && cs[i].EntityCommand? && cs[i].entity.Slot() == slot;
      ReversedIn(cs, cs[i]);
      var j :| 0 <= j < |Reversed(cs)| && Reversed(cs)[j] == cs[i];
    }
    if Touched(Reversed(cs), slot) {
      var i :| 0 <= i < |Reversed(cs)| && Reversed(cs)[i].EntityCommand? && Reversed(cs)[i].entity.Slot() == slot;
      ReversedIn(cs, Reversed(cs)[i]);
      var j :| 0 <= j < |cs| && cs[j] == Reversed(cs)[i];
    }
  }

  /** What a linked value edit does to the world. */
  lemma SetWrites(e: EntityEdit, w: World, v: World)
    requires e.change == Set && EntityLinked(e, w, v) && v != w
    ensures e.entity in w.alive && e.Slot() in w.components && e.component in w.registry
    ensures v == With(w, e.Slot(), Loaded(w, e.component, e.after))
  {
    EntityEditLinks(e, w);
  }

  lemma MergeKeeps(cs: seq<Command>, a: seq<State>, slot: Slot, x: FieldTable)
    requires AheadChain(cs, a) && !Touched(cs, slot)
    ensures AheadChain(cs, AllWith(a, slot, x))
  {
    var b := AllWith(a, slot, x);
    forall i | 0 <= i < |cs|
      ensures Ahead(cs[i], b[i], b[i + 1])
    {
      AheadWith(cs[i], a[i], a[i + 1], slot, x);
    }
  }

  /** `push` returns from its merge branch before it clears the redo stack.  The stacks are still a zipper over some
      chain exactly when no step waiting to be redone works on the component, or the edit changed nothing. */
  lemma MergeUnderRedo(
    h: Stacks, s: State, back: seq<State>, ahead: seq<State>, guidOf: GuidReader, c: Command, u: State)
    requires Zip(h, s, back, ahead, guidOf) && Linked(c, s, u, guidOf)
    requires h.undo != [] && Merges(Top(h.undo), c) && SameField(Top(h.undo).entity, c.entity)
    ensures (exists b, a :: Zip(Pushed(h, c), u, b, a, guidOf)) <==> !Touched(h.redo, c.entity.Slot()) || u == s
  {
    var slot := c.entity.Slot();
    var cs := Reversed(h.redo);
    TouchedReversed(h.redo, slot);
    MergeBack(h, s, back, guidOf, c, u);
    var b := Rest(back) + [u];
    if u == s {
      assert Zip(Pushed(h, c), u, b, ahead, guidOf);
    } else {
      assert u.world != s.world;
      SetWrites(c.entity, s.world, u.world);
      var x := Loaded(s.world, c.entity.component, c.entity.after);
      if !Touched(h.redo, slot) {
        MergeKeeps(cs, ahead, slot, x);
        assert Zip(Pushed(h, c), u, b, AllWith(ahead, slot, x), guidOf);
      }
      if b2, a2 :| Zip(Pushed(h, c), u, b2, a2, guidOf) {
        if Touched(cs, slot) {
          MergeBreaks(cs, ahead, a2, slot, x);
          WithSame(s.world, slot);
          assert false;
        }
      }
    }
  }
}
