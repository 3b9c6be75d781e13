/** The watch over a project's assets: notices arrive at any time, polls walk the tree now and then, and a change is
    synced once two walks in a row agree on it. What a walk sees is up to whoever changes the tree. */
module AssetWatch {
  import opened Basics

  /** Milliseconds. */
  const SAMPLE_INTERVAL: int := 250

  datatype FileMark = FileMark(path: string, directory: bool, size: nat, modified: int)
  datatype Fingerprint = Fingerprint(present: bool, marks: seq<FileMark>)

  datatype Watch = Watch(
    open: bool, baseline: Fingerprint, pending: Option<Fingerprint>, sampled: Option<int>, dirty: bool)

  const NOTHING := Fingerprint(false, [])

  function Closed(): Watch {
    Watch(false, NOTHING, None, None, false)
  }

  /** `taken` is what a walk of the tree sees now, and `synced` what one sees after the sync, if there is one. A notice
      may land `during` the poll. */
  datatype Event =
    | Open(mark: Fingerprint)
    | Close
    | Notice
    | Poll(now: int, taken: Fingerprint, synced: Fingerprint, during: bool)

  /** The poll walks the tree. */
  predicate Samples(w: Watch, now: int) {
    w.open && (w.dirty || w.pending.Some?) && !(w.sampled.Some? && now < w.sampled.value + SAMPLE_INTERVAL)
  }

  /** The poll syncs, and answers that the project should be scanned again. */
  predicate Settles(w: Watch, now: int, taken: Fingerprint) {
    Samples(w, now) && taken != w.baseline && w.pending == Some(taken)
  }

  function Polled(w: Watch, now: int, taken: Fingerprint, synced: Fingerprint, during: bool): Watch {
    if !Samples(w, now) then w.(dirty := w.dirty || during)
    else
      var walked := w.(sampled := Some(now), dirty := during);
      if taken == w.baseline then walked.(pending := None)
      else if w.pending == Some(taken) then walked.(baseline := synced, pending := None)
      else walked.(pending := Some(taken))
  }

  function Step(w: Watch, e: Event): Watch {
    match e
    case Open(mark) => Watch(true, mark, None, None, false)
    case Close => w.(open := false, pending := None, sampled := None, dirty := false)
    case Notice => w.(dirty := true)
    case Poll(now, taken, synced, during) => Polled(w, now, taken, synced, during)
  }

  function Run(w: Watch, events: seq<Event>): Watch
    decreases |events|
  {
    if events == [] then w else Run(Step(w, events[0]), events[1..])
  }

  class AssetWatch {
    var open: bool
    var baseline: Fingerprint
    var pending: Option<Fingerprint>
    var sampled: Option<int>
    var dirty: bool

    ghost function View(): Watch
      reads this
    {
      Watch(open, baseline, pending, sampled, dirty)
    }

    constructor ()
      ensures View() == Closed()
    {
      open, baseline, pending, sampled, dirty := false, NOTHING, None, None, false;
    }

    method Open(mark: Fingerprint)
      modifies this
      ensures View() == Step(old(View()), Event.Open(mark))
    {
      Close();
      baseline := mark;
      open := true;
    }

    method Close()
      modifies this
      ensures View() == Step(old(View()), Event.Close)
    {
      open, pending, sampled, dirty := false, None, None, false;
    }

    method Notice()
      modifies this
      ensures View() == Step(old(View()), Event.Notice)
    {
      dirty := true;
    }

    method Poll(now: int, taken: Fingerprint, synced: Fingerprint, during: bool) returns (settled: bool)
      modifies this
      ensures View() == Step(old(View()), Event.Poll(now, taken, synced, during))
      ensures settled == Settles(old(View()), now, taken)
    {
      settled := false;
      if !open {
        dirty := dirty || during;
        return;
      }
      var wasDirty := dirty;
      dirty := during;
      if !wasDirty && pending == None {
        return;
      }
      if sampled.Some? && now < sampled.value + SAMPLE_INTERVAL {
        if wasDirty {
          dirty := true;
        }
        return;
      }
      sampled := Some(now);
      if taken == baseline {
        pending := None;
        return;
      }
      if pending == Some(taken) {
        baseline := synced;
        pending := None;
        return true;
      }
      pending := Some(taken);
    }
  }

  // Runs.

  /** A step that neither opens nor closes the watch. */
  predicate Stays(e: Event) {
    e.Notice? || e.Poll?
  }

  predicate SamplesAt(w: Watch, e: Event) {
    e.Poll? && Samples(w, e.now)
  }

  predicate SettlesAt(w: Watch, e: Event) {
    e.Poll? && Settles(w, e.now, e.taken)
  }

  function SampleCount(w: Watch, events: seq<Event>): nat
    decreases |events|
  {
    if events == [] then 0
    else (if SamplesAt(w, events[0]) then 1 else 0) + SampleCount(Step(w, events[0]), events[1..])
  }

  predicate EverSettles(w: Watch, events: seq<Event>)
    decreases |events|
  {
    events != [] && (SettlesAt(w, events[0]) || EverSettles(Step(w, events[0]), events[1..]))
  }

  datatype Sample = Sample(now: int, taken: Fingerprint, settled: bool)

  /** The last walk of a run since the watch was opened, given the last one before it. */
  function LastSample(w: Watch, last: Option<Sample>, events: seq<Event>): Option<Sample>
    decreases |events|
  {
    if events == [] then last else LastSample(Step(w, events[0]), Noted(w, last, events[0]), events[1..])
  }

  function Noted(w: Watch, last: Option<Sample>, e: Event): Option<Sample> {
    if !Stays(e) then None else if SamplesAt(w, e) then Some(Sample(e.now, e.taken, SettlesAt(w, e))) else last
  }

  /** A notice is consumed only by walking the tree, or by opening or closing the watch. */
  lemma {:induction false} NoticeIsKept(w: Watch, events: seq<Event>)
    requires w.dirty && (forall e | e in events :: Stays(e)) && SampleCount(w, events) == 0
    ensures Run(w, events).dirty
    decreases |events|
  {
    if events != [] {
      assert events[0] in events;
      NoticeIsKept(Step(w, events[0]), events[1..]);
    }
  }

  /** When something is noticed and not yet looked at: a notice sets it, also in the middle of a poll, and while the
      watch is closed; only a walk, or opening or closing, takes it away. */
  lemma NoticedExactly(w: Watch, e: Event)
    ensures Step(w, e).dirty ==
      match e
      case Open(_) => false
      case Close => false
      case Notice => true
      case Poll(now, _, _, during) =>
        var walks := w.open && (w.dirty || w.pending.Some?) && (w.sampled == None || now >= w.sampled.value + 250);
        during || (w.dirty && !walks)
  {
  }

  /** What the watch remembers of its last walk. */
  predicate Remembers(w: Watch, last: Option<Sample>) {
    (w.sampled == if last == None then None else Some(last.value.now))
    && w.pending ==
       if last.Some? && !last.value.settled && last.value.taken != w.baseline then Some(last.value.taken) else None
  }

  lemma {:induction false} RunRemembers(w: Watch, last: Option<Sample>, events: seq<Event>)
    requires Remembers(w, last)
    ensures Remembers(Run(w, events), LastSample(w, last, events))
    decreases |events|
  {
    if events != [] {
      RunRemembers(Step(w, events[0]), Noted(w, last, events[0]), events[1..]);
    }
  }

  /** Over any run: a poll walks no sooner than an interval after the walk before it, and it answers true exactly when
      that walk, which did not sync, and this one agree on a tree other than the synced one. */
  lemma TrueMeansTwoWalksAgree(events: seq<Event>, now: int, taken: Fingerprint)
    requires Samples(Run(Closed(), events), now)
    ensures var w, last := Run(Closed(), events), LastSample(Closed(), None, events);
      (last.Some? ==> last.value.now + SAMPLE_INTERVAL <= now)
      && (Settles(w, now, taken) <==>
            last.Some? && !last.value.settled && last.value.taken == taken && taken != w.baseline)
  {
    RunRemembers(Closed(), None, events);
  }

  /** Every walk sees `mark`. */
  predicate Still(events: seq<Event>, mark: Fingerprint) {
    forall e | e in events :: Stays(e) && (e.Poll? ==> e.taken == mark)
  }

  /** A change that stays put is synced by the second walk. */
  lemma {:induction false} SettledBySecondWalk(w: Watch, events: seq<Event>, mark: Fingerprint)
    requires Still(events, mark) && mark != w.baseline
    requires SampleCount(w, events) >= if w.pending == Some(mark) then 1 else 2
    ensures EverSettles(w, events)
    decreases |events|
  {
    assert events[0] in events;
    if !SettlesAt(w, events[0]) {
      SettledBySecondWalk(Step(w, events[0]), events[1..], mark);
    }
  }

  /** After a notice, two polls at least an interval apart, and past the last walk, are enough. */
  lemma NoticedChangeIsSynced(w: Watch, mark: Fingerprint, first: Event, second: Event)
    requires w.open && w.dirty && mark != w.baseline && Still([first, second], mark) && first.Poll? && second.Poll?
    requires w.sampled.Some? ==> w.sampled.value + SAMPLE_INTERVAL <= first.now
    requires first.now + SAMPLE_INTERVAL <= second.now
    ensures EverSettles(w, [first, second])
  {
    var next := Step(w, first);
    assert first in [first, second] && second in [first, second];
    assert [first, second][1..] == [second] && [second][1..] == [];
    assert EverSettles(next, [second]) == SettlesAt(next, second);
  }

  /** While the tree stays as it was synced, no notice makes a poll true: a sync's own writes do not start another. */
  lemma {:induction false} QuietAfterSync(w: Watch, events: seq<Event>)
    requires Still(events, w.baseline)
    ensures !EverSettles(w, events) && Run(w, events).baseline == w.baseline
    decreases |events|
  {
    if events != [] {
      assert events[0] in events;
      QuietAfterSync(Step(w, events[0]), events[1..]);
    }
  }

  lemma SyncIsQuiet(w: Watch, sync: Event, events: seq<Event>)
    requires SettlesAt(w, sync) && Still(events, sync.synced)
    ensures !EverSettles(Step(w, sync), events)
  {
    QuietAfterSync(Step(w, sync), events);
  }

  /** A watch that was just opened is quiet while the tree stays as it was then, whatever is noticed and however often
      it is polled. */
  lemma OpenedIsQuiet(w: Watch, mark: Fingerprint, events: seq<Event>)
    requires Still(events, mark)
    ensures !EverSettles(Step(w, Open(mark)), events)
  {
    QuietAfterSync(Step(w, Open(mark)), events);
  }

  /** And it syncs the first change: noticed after any such time, by two polls 250 milliseconds apart that see it. */
  lemma OpenedSeesChange(
    w: Watch, mark: Fingerprint, changed: Fingerprint, now: int, later: int, a: Fingerprint, b: Fingerprint)
    requires changed != mark && later >= now + 250
    ensures EverSettles(Step(w, Open(mark)), [Notice, Poll(now, changed, a, false), Poll(later, changed, b, false)])
    ensures !EverSettles(Step(w, Open(mark)), [Notice, Poll(now, changed, a, false)])
  {
    var begun := Step(w, Open(mark));
    var first, second := Poll(now, changed, a, false), Poll(later, changed, b, false);
    var all := [Notice, first, second];
    assert all[1..] == [first, second] && [first, second][1..] == [second] && [second][1..] == [];
    assert [Notice, first][1..] == [first] && [first][1..] == [];
    var noticed := Step(begun, Notice);
    assert noticed == Watch(true, mark, None, None, true);
    var seen := Step(noticed, first);
    assert seen == Watch(true, mark, Some(changed), Some(now), false);
    assert !SettlesAt(begun, Notice) && !SettlesAt(noticed, first) && SettlesAt(seen, second);
    assert EverSettles(seen, [second]) && EverSettles(noticed, [first, second]);
    assert !EverSettles(seen, []) && !EverSettles(noticed, [first]);
  }

  /** A closed watch never answers true. */
  lemma {:induction false} ClosedIsQuiet(w: Watch, events: seq<Event>)
    requires !w.open && forall e | e in events :: Stays(e)
    ensures !EverSettles(w, events) && SampleCount(w, events) == 0
    decreases |events|
  {
    if events != [] {
      assert events[0] in events;
      ClosedIsQuiet(Step(w, events[0]), events[1..]);
    }
  }

  /** An idle watch does not walk the tree: nothing noticed, nothing pending. */
  lemma {:induction false} IdleDoesNotWalk(w: Watch, events: seq<Event>)
    requires !w.dirty && w.pending == None && forall e | e in events :: e.Poll? && !e.during
    ensures SampleCount(w, events) == 0 && Run(w, events) == w
    decreases |events|
  {
    if events != [] {
      assert events[0] in events && Step(w, events[0]) == w;
      IdleDoesNotWalk(w, events[1..]);
    }
  }
}
