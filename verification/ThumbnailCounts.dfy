/** How the count of ready images relates to the images, and how far it can pass the limit. */
module ThumbnailCounts {
  import opened Basics
  import opened Thumbnails
  import opened ThumbnailRuns

  // The count against the ready entries.

  /** A result for an entry that is ready already: the entry is counted once more, or is no longer ready. */
  predicate Repeats(desk: Desk, item: Done) {
    Wanted(desk, item) && ShelfOf(desk, item.preview).entries[item.key].state == Ready
  }

  /** How many such results one kind has seen since the project was opened, after `n` before the run. */
  function RepeatsOf(s: Service, n: nat, preview: bool, events: seq<Event>): nat
    decreases |events|
  {
    if events == [] then n
    else RepeatsOf(Step(s, events[0]), RepeatsAfter(s, n, preview, events[0]), preview, events[1..])
  }

  function RepeatsAfter(s: Service, n: nat, preview: bool, e: Event): nat {
    match e
    case Open(_, _) => if s.finished == [] then 0 else n
    case Close(_) => if s.finished == [] then 0 else n
    case Accept =>
      if s.finished != [] && s.finished[0].preview == preview && Repeats(s.desk, s.finished[0]) then n + 1 else n
    case _ => n
  }

  ghost predicate CountedUpTo(shelf: Shelf, n: nat) {
    shelf.ready == |ReadyKeys(shelf)| + n
  }

  lemma ShelvedKeepsGap(shelf: Shelf, key: string, stamp: Stamp, n: nat)
    requires CountedUpTo(shelf, n)
    ensures CountedUpTo(Shelved(shelf, key, stamp), n)
  {
    var next := Shelved(shelf, key, stamp);
    ReadyKeysSet(shelf, key, NewEntry(stamp), next.ready);
    if key in shelf.entries && shelf.entries[key].state == Ready {
      assert key in ReadyKeys(shelf);
    } else {
      assert key !in ReadyKeys(shelf);
    }
  }

  lemma AcceptedGap(desk: Desk, item: Done, n: nat)
    requires CountedUpTo(ShelfOf(desk, item.preview), n)
    ensures CountedUpTo(ShelfOf(Accepted(desk, item), item.preview), if Repeats(desk, item) then n + 1 else n)
    ensures ShelfOf(Accepted(desk, item), !item.preview) == ShelfOf(desk, !item.preview)
  {
    if Wanted(desk, item) {
      var shelf, next := ShelfOf(desk, item.preview), ShelfOf(Accepted(desk, item), item.preview);
      ReadyKeysSet(shelf, item.key, next.entries[item.key], next.ready);
      assert Repeats(desk, item) <==> item.key in ReadyKeys(shelf);
    }
  }

  lemma StepGap(s: Service, n: nat, preview: bool, e: Event)
    requires CountedUpTo(ShelfOf(s.desk, preview), n)
    ensures CountedUpTo(ShelfOf(Step(s, e).desk, preview), RepeatsAfter(s, n, preview, e))
  {
    assert ReadyKeys(EMPTY) == {};
    match e
    case Find(p, key, _, stamp) =>
      if p == preview {
        ShelvedKeepsGap(ShelfOf(s.desk, preview), key, stamp, n);
      }
    case Accept =>
      if s.finished != [] && s.finished[0].preview == preview {
        AcceptedGap(s.desk, s.finished[0], n);
      }
    case _ =>
  }

  lemma {:induction false} RunGap(s: Service, n: nat, preview: bool, events: seq<Event>)
    requires CountedUpTo(ShelfOf(s.desk, preview), n)
    ensures CountedUpTo(ShelfOf(Run(s, events).desk, preview), RepeatsOf(s, n, preview, events))
    decreases |events|
  {
    if events != [] {
      StepGap(s, n, preview, events[0]);
      RunGap(Step(s, events[0]), RepeatsAfter(s, n, preview, events[0]), preview, events[1..]);
    }
  }

  /** After any run, the count is the number of ready entries and of results for ready entries since the project was
      opened; so it is exact if and only if there was none. */
  lemma CountIsReadyAndRepeats(preview: bool, events: seq<Event>)
    ensures var shelf := ShelfOf(Run(Begin(), events).desk, preview);
      var repeats := RepeatsOf(Begin(), 0, preview, events);
      shelf.ready == |ReadyKeys(shelf)| + repeats
      && (shelf.ready == |ReadyKeys(shelf)| <==> repeats == 0)
  {
    assert ReadyKeys(EMPTY) == {};
    RunGap(Begin(), 0, preview, events);
  }

  // The count against the limit.

  function JobsOf(jobs: seq<Job>, preview: bool): nat {
    if jobs == [] then 0 else JobsOf(jobs[..|jobs| - 1], preview) + if jobs[|jobs| - 1].preview == preview then 1 else 0
  }

  function ResultsOf(items: seq<Done>, preview: bool): nat {
    if items == [] then 0 else (if items[0].preview == preview then 1 else 0) + ResultsOf(items[1..], preview)
  }

  /** Jobs and results of one kind on their way. */
  function Outstanding(s: Service, preview: bool): nat {
    JobsOf(s.jobs, preview) + (if s.hand.Some? && s.hand.value.preview == preview then 1 else 0)
    + ResultsOf(s.done, preview) + ResultsOf(s.finished, preview)
  }

  lemma {:induction false} ResultsAppend(items: seq<Done>, d: Done, preview: bool)
    ensures ResultsOf(items + [d], preview) == ResultsOf(items, preview) + if d.preview == preview then 1 else 0
    decreases |items|
  {
    if items == [] {
      assert items + [d] == [d] && [d][1..] == [];
    } else {
      assert (items + [d])[1..] == items[1..] + [d];
      ResultsAppend(items[1..], d, preview);
    }
  }

  lemma JobsAppend(jobs: seq<Job>, j: Job, preview: bool)
    ensures JobsOf(jobs + [j], preview) == JobsOf(jobs, preview) + if j.preview == preview then 1 else 0
  {
    assert (jobs + [j])[..|jobs + [j]| - 1] == jobs;
  }

  /** At every point of the run at most `k` jobs and results of the kind are on their way. */
  predicate NeverMore(s: Service, events: seq<Event>, preview: bool, k: nat)
    decreases |events|
  {
    Outstanding(s, preview) <= k && (events == [] || NeverMore(Step(s, events[0]), events[1..], preview, k))
  }

  predicate Within(s: Service, preview: bool, k: nat) {
    ShelfOf(s.desk, preview).ready + Outstanding(s, preview) <= Limit(preview) - 1 + k
  }

  /** A step other than a new request moves work along, and at most one result becomes one ready image. */
  lemma StepMoves(s: Service, preview: bool, e: Event)
    requires !e.Find? && Flags(s)
    ensures ShelfOf(Step(s, e).desk, preview).ready + Outstanding(Step(s, e), preview)
      <= ShelfOf(s.desk, preview).ready + Outstanding(s, preview)
  {
    hide Accepted;
    match e
    case Finish(made) => FinishMoves(s, preview, made);
    case Accept => AcceptMoves(s, preview);
    case _ =>
  }

  lemma FinishMoves(s: Service, preview: bool, made: Option<Thumbnail>)
    ensures Outstanding(Finished(s, made), preview) == Outstanding(s, preview)
  {
    if s.hand.Some? {
      var j := s.hand.value;
      ResultsAppend(s.done, Done(j.preview, j.key, j.stamp, made), preview);
    }
  }

  lemma AcceptMoves(s: Service, preview: bool)
    ensures ShelfOf(AcceptedNext(s).desk, preview).ready + Outstanding(AcceptedNext(s), preview)
      <= ShelfOf(s.desk, preview).ready + Outstanding(s, preview)
  {
    if s.finished != [] {
      AcceptedCount(s.desk, s.finished[0], preview);
    }
  }

  lemma AcceptedCount(desk: Desk, item: Done, preview: bool)
    ensures ShelfOf(Accepted(desk, item), preview).ready
      <= ShelfOf(desk, preview).ready + if item.preview == preview then 1 else 0
  {
  }

  lemma AskWithin(s: Service, preview: bool, p: bool, key: string, png: string, stamp: Stamp, k: nat)
    requires k >= 1 && Within(s, preview, k) && Outstanding(Asked(s, p, key, png, stamp), preview) <= k
    ensures Within(Asked(s, p, key, png, stamp), preview, k)
  {
    JobsAppend(s.jobs, Job(p, key, png, stamp), preview);
  }

  lemma StepWithin(s: Service, preview: bool, e: Event, k: nat)
    requires Flags(s) && k >= 1 && Within(s, preview, k) && Outstanding(Step(s, e), preview) <= k
    ensures Within(Step(s, e), preview, k)
  {
    hide Asked, Outstanding, Accepted, Taken, Finished, Opened, Closed;
    if e.Find? {
      if s.finished == [] {
        AskWithin(s, preview, e.preview, e.key, e.png, e.stamp, k);
      }
    } else {
      StepMoves(s, preview, e);
    }
  }

  lemma {:induction false} RunWithin(s: Service, events: seq<Event>, preview: bool, k: nat)
    requires Inv(s) && k >= 1 && Within(s, preview, k) && NeverMore(s, events, preview, k)
    ensures Within(Run(s, events), preview, k)
    decreases |events|
  {
    if events != [] {
      StepKeeps(s, events[0]);
      StepWithin(s, preview, events[0], k);
      RunWithin(Step(s, events[0]), events[1..], preview, k);
    }
  }

  /** The images pass the limit by less than what is on its way at any time: with one request at a time, not at all. */
  lemma ReadyWithinLimit(events: seq<Event>, preview: bool, k: nat)
    requires k >= 1 && NeverMore(Begin(), events, preview, k)
    ensures var shelf := ShelfOf(Run(Begin(), events).desk, preview);
      |ReadyKeys(shelf)| <= shelf.ready <= Limit(preview) - 1 + k
  {
    EveryRunKeeps([]);
    assert Run(Begin(), []) == Begin();
    RunWithin(Begin(), events, preview, k);
    EveryRunKeeps(events);
  }

  /** A result that becomes an image while the count is at the limit. */
  predicate Late(s: Service, preview: bool, e: Event) {
    e.Accept? && s.finished != [] && s.finished[0].preview == preview && IsNews(s.desk, s.finished[0])
    && ShelfOf(s.desk, preview).ready >= Limit(preview)
  }

  predicate EverLate(s: Service, preview: bool, events: seq<Event>)
    decreases |events|
  {
    events != [] && (Late(s, preview, events[0]) || EverLate(Step(s, events[0]), preview, events[1..]))
  }

  predicate AlwaysWithin(s: Service, preview: bool, events: seq<Event>)
    decreases |events|
  {
    ShelfOf(s.desk, preview).ready <= Limit(preview)
    && (events == [] || AlwaysWithin(Step(s, events[0]), preview, events[1..]))
  }

  lemma StepAtLimit(s: Service, preview: bool, e: Event)
    requires ShelfOf(s.desk, preview).ready <= Limit(preview)
    ensures ShelfOf(Step(s, e).desk, preview).ready <= Limit(preview) <==> !Late(s, preview, e)
  {
  }

  /** The count stays within the limit throughout a run if and only if no result becomes an image while it is at the
      limit; nothing in the service prevents that, for only requests look at the limit. */
  lemma {:induction false} LimitIsKept(s: Service, preview: bool, events: seq<Event>)
    requires ShelfOf(s.desk, preview).ready <= Limit(preview)
    ensures AlwaysWithin(s, preview, events) <==> !EverLate(s, preview, events)
    decreases |events|
  {
    if events != [] {
      StepAtLimit(s, preview, events[0]);
      if !Late(s, preview, events[0]) {
        LimitIsKept(Step(s, events[0]), preview, events[1..]);
      }
    }
  }

  /** The editor makes each request of the kind while the count and what is on its way leave room for one more. */
  predicate AsksWithRoom(s: Service, preview: bool, events: seq<Event>)
    decreases |events|
  {
    events != [] ==>
      && (events[0].Find? && events[0].preview == preview ==>
            ShelfOf(s.desk, preview).ready + Outstanding(s, preview) < Limit(preview))
      && AsksWithRoom(Step(s, events[0]), preview, events[1..])
  }

  /** The count and what is on its way together stay within the limit. */
  predicate Room(s: Service, preview: bool) {
    ShelfOf(s.desk, preview).ready + Outstanding(s, preview) <= Limit(preview)
  }

  lemma AskKeepsRoom(s: Service, preview: bool, p: bool, key: string, png: string, stamp: Stamp)
    requires Room(s, preview)
    requires p == preview ==> ShelfOf(s.desk, preview).ready + Outstanding(s, preview) < Limit(preview)
    ensures Room(Asked(s, p, key, png, stamp), preview)
  {
    JobsAppend(s.jobs, Job(p, key, png, stamp), preview);
  }

  lemma StepKeepsRoom(s: Service, preview: bool, e: Event)
    requires Flags(s) && Room(s, preview) && AsksWithRoom(s, preview, [e])
    ensures Room(Step(s, e), preview)
  {
    hide Asked, Outstanding, Accepted, Taken, Finished, Opened, Closed;
    if e.Find? {
      if s.finished == [] {
        AskKeepsRoom(s, preview, e.preview, e.key, e.png, e.stamp);
      }
    } else {
      StepMoves(s, preview, e);
    }
  }

  /** What the editor can do about it: if it makes no request while the ready images and the work on its way fill the
      limit, the count never passes it, from any state where that holds. */
  lemma {:induction false} RoomKeepsLimit(s: Service, preview: bool, events: seq<Event>)
    requires Inv(s) && Room(s, preview) && AsksWithRoom(s, preview, events)
    ensures AlwaysWithin(s, preview, events)
    decreases |events|
  {
    if events != [] {
      StepKeeps(s, events[0]);
      StepKeepsRoom(s, preview, events[0]);
      RoomKeepsLimit(Step(s, events[0]), preview, events[1..]);
    }
  }

  // Counted twice.

  /** The editor asks for stamp `a`, then `b`, then `a` again, and the worker makes all three. */
  function AskedTwice(a: Stamp, b: Stamp): Service {
    var s := Asked(Opened(Begin(), "p", None), false, "k", "k.png", a);
    Asked(Asked(s, false, "k", "k.png", b), false, "k", "k.png", a)
  }

  function MadeNext(s: Service, t: Thumbnail): Service {
    Finished(Taken(s), Some(t))
  }

  lemma AskedTwiceIs(a: Stamp, b: Stamp)
    requires a != b
    ensures var s, x, y := AskedTwice(a, b), Job(false, "k", "k.png", a), Job(false, "k", "k.png", b);
      s.alive && !s.stopping && s.hand == None && s.done == [] && s.jobs == [x, y, x]
      && s.desk == Desk(Shelf(map["k" := NewEntry(a)], 0), EMPTY, map[])
  {
    var s0 := Opened(Begin(), "p", None);
    var s1 := Asked(s0, false, "k", "k.png", a);
    assert s1.desk.thumbnails == Shelf(map["k" := NewEntry(a)], 0);
    var s2 := Asked(s1, false, "k", "k.png", b);
    assert s2.desk.thumbnails == Shelf(map["k" := NewEntry(b)], 0);
  }

  lemma MadeNextIs(s: Service, jobs: seq<Job>, job: Job, t: Thumbnail)
    requires s.alive && !s.stopping && s.hand == None && s.jobs == jobs + [job]
    ensures var n := MadeNext(s, t);
      n.alive && !n.stopping && n.hand == None && n.jobs == jobs && n.desk == s.desk
      && n.done == s.done + [Done(job.preview, job.key, job.stamp, Some(t))]
  {
    assert s.jobs[..|s.jobs| - 1] == jobs;
  }

  /** The count of ready images can run ahead of the images: both results for one entry are counted. */
  lemma ReadyCanOvercount(a: Stamp, b: Stamp, t: Thumbnail)
    requires a != b
    ensures var end := Polled(MadeNext(MadeNext(MadeNext(AskedTwice(a, b), t), t), t));
      end.desk.thumbnails.ready == 2 && ReadyKeys(end.desk.thumbnails) == {"k"}
  {
    hide AcceptedAll, AskedTwice, MadeNext, ReadyKeys;
    var x, y := Job(false, "k", "k.png", a), Job(false, "k", "k.png", b);
    var s := AskedTwice(a, b);
    AskedTwiceIs(a, b);
    MadeNextIs(s, [x, y], x, t);
    MadeNextIs(MadeNext(s, t), [x], y, t);
    MadeNextIs(MadeNext(MadeNext(s, t), t), [], x, t);
    assert MadeNext(MadeNext(MadeNext(s, t), t), t).done
      == [Done(false, "k", a, Some(t)), Done(false, "k", b, Some(t)), Done(false, "k", a, Some(t))];
    BothCounted(a, b, t);
  }

  lemma BothCounted(a: Stamp, b: Stamp, t: Thumbnail)
    requires a != b
    ensures var x, y := Done(false, "k", a, Some(t)), Done(false, "k", b, Some(t));
      var end := AcceptedAll(Desk(Shelf(map["k" := NewEntry(a)], 0), EMPTY, map[]), [x, y, x]);
      end.thumbnails.ready == 2 && ReadyKeys(end.thumbnails) == {"k"}
  {
    var x, y := Done(false, "k", a, Some(t)), Done(false, "k", b, Some(t));
    var once := Accepted(Desk(Shelf(map["k" := NewEntry(a)], 0), EMPTY, map[]), x);
    var twice := Accepted(once, x);
    assert Accepted(once, y) == once;
    assert [x, y, x][1..] == [y, x] && [y, x][1..] == [x];
    assert AcceptedAll(twice, []) == twice;
    assert AcceptedAll(once, [x]) == twice;
    assert AcceptedAll(once, [y, x]) == twice;
  }
}
