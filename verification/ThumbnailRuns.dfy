/** What every run of the thumbnail protocol keeps, however the two threads interleave. */
module ThumbnailRuns {
  import opened Basics
  import opened Thumbnails

  // The invariant.

  function JobAsk(j: Job): Ask {
    Ask(j.preview, j.key, j.stamp)
  }

  function DoneAsk(d: Done): Ask {
    Ask(d.preview, d.key, d.stamp)
  }

  predicate IsPending(desk: Desk, ask: Ask) {
    Known(desk, ask) && ShelfOf(desk, ask.preview).entries[ask.key].state == Pending
  }

  /** The ask is on its way: a job, in the worker's hands, or a result not yet looked at. */
  ghost predicate OnItsWay(s: Service, ask: Ask) {
    (exists j :: j in s.jobs && JobAsk(j) == ask)
    || (s.hand.Some? && JobAsk(s.hand.value) == ask)
    || (exists d :: d in s.done && DoneAsk(d) == ask)
    || (exists d :: d in s.finished && DoneAsk(d) == ask)
  }

  ghost predicate NothingLost(s: Service) {
    forall ask | IsPending(s.desk, ask) :: OnItsWay(s, ask)
  }

  function ReadyKeys(shelf: Shelf): set<string> {
    set k | k in shelf.entries && shelf.entries[k].state == Ready
  }

  ghost predicate Counted(shelf: Shelf) {
    shelf.ready >= |ReadyKeys(shelf)|
  }

  /** An image for exactly this key and stamp, made in session `session` for `project`, is what the entry shows.  The
      texture of a preview is that very image; `ThumbnailTextures` says when that of a thumbnail is. */
  ghost predicate Shows(e: Entry, preview: bool, key: string, s: Service) {
    exists t: Thumbnail ::
      Build(s.session, s.project, preview, key, e.stamp, t) in s.built
      && e.uiId == ImageId(preview, key, e.stamp, t) && e.width == t.image.width && e.height == t.image.height
      && e.uiId in s.desk.textures && (preview ==> s.desk.textures[e.uiId] == t.image)
  }

  ghost predicate ReadyShown(s: Service, preview: bool) {
    var entries := ShelfOf(s.desk, preview).entries;
    forall k | k in entries && entries[k].state == Ready :: Shows(entries[k], preview, k, s)
  }

  ghost predicate MadeHere(s: Service, d: Done) {
    d.thumbnail.Some? ==> Build(s.session, s.project, d.preview, d.key, d.stamp, d.thumbnail.value) in s.built
  }

  ghost predicate AllMadeHere(s: Service) {
    (forall d | d in s.done :: MadeHere(s, d)) && (forall d | d in s.finished :: MadeHere(s, d))
    && (forall b | b in s.built :: b.session <= s.session)
  }

  predicate Idle(s: Service) {
    s.project == "" && s.jobs == [] && s.done == [] && s.finished == []
    && s.desk.thumbnails == EMPTY && s.desk.previews == EMPTY
  }

  predicate Flags(s: Service) {
    (s.busy <==> s.hand.Some?)
    && if s.alive then !s.stopping && s.worker == s.project else s.hand == None && Idle(s)
  }

  ghost predicate Inv(s: Service) {
    Flags(s) && NothingLost(s) && Counted(s.desk.thumbnails) && Counted(s.desk.previews)
    && ReadyShown(s, false) && ReadyShown(s, true) && AllMadeHere(s)
  }

  // Asking.

  lemma ReadyKeysSet(shelf: Shelf, key: string, e: Entry, ready: nat)
    ensures ReadyKeys(Shelf(shelf.entries[key := e], ready)) ==
      if e.state == Ready then ReadyKeys(shelf) + {key} else ReadyKeys(shelf) - {key}
  {
  }

  /** Whenever a ready entry is replaced, the count is positive and the guard in `request` lets it drop. */
  lemma GuardNeverBlocks(shelf: Shelf, key: string)
    requires Counted(shelf) && key in shelf.entries && shelf.entries[key].state == Ready
    ensures shelf.ready > 0
  {
    assert key in ReadyKeys(shelf);
  }

  lemma ShelvedCounted(shelf: Shelf, key: string, stamp: Stamp)
    requires Counted(shelf)
    ensures Counted(Shelved(shelf, key, stamp))
  {
    var next := Shelved(shelf, key, stamp);
    ReadyKeysSet(shelf, key, NewEntry(stamp), next.ready);
    if key in shelf.entries && shelf.entries[key].state == Ready {
      GuardNeverBlocks(shelf, key);
      assert key in ReadyKeys(shelf);
    } else {
      assert key !in ReadyKeys(shelf);
    }
  }

  lemma RequestedLosesNothing(s: Service, preview: bool, key: string, png: string, stamp: Stamp)
    requires NothingLost(s)
    ensures NothingLost(Requested(s, preview, key, png, stamp))
  {
    var next := Requested(s, preview, key, png, stamp);
    var job := Job(preview, key, png, stamp);
    assert forall j | j in s.jobs :: j in next.jobs;
    assert job in next.jobs;
    forall ask | IsPending(next.desk, ask) ensures OnItsWay(next, ask) {
      if ask == JobAsk(job) {
      } else {
        assert IsPending(s.desk, ask);
      }
    }
  }

  /** What is registered stays registered, and previews keep their textures. */
  ghost predicate KeepsTextures(a: map<UiId, Image>, b: map<UiId, Image>) {
    forall id | id in a :: id in b && (id.PreviewId? ==> b[id] == a[id])
  }

  lemma SameShows(e: Entry, preview: bool, key: string, s: Service, t: Service)
    requires Shows(e, preview, key, s) && s.session == t.session && s.project == t.project && s.built <= t.built
    requires e.uiId in t.desk.textures
    requires preview ==> t.desk.textures[e.uiId] == s.desk.textures[e.uiId]
    ensures Shows(e, preview, key, t)
  {
    var image: Thumbnail :|
      Build(s.session, s.project, preview, key, e.stamp, image) in s.built
      && e.uiId == ImageId(preview, key, e.stamp, image)
      && e.width == image.image.width && e.height == image.image.height
      && (preview ==> s.desk.textures[e.uiId] == image.image);
    assert Build(t.session, t.project, preview, key, e.stamp, image) in t.built;
  }

  /** A shelf with no new ready entry stays shown. */
  lemma SameReadyShown(s: Service, t: Service, preview: bool)
    requires ReadyShown(s, preview) && s.session == t.session && s.project == t.project && s.built <= t.built
    requires KeepsTextures(s.desk.textures, t.desk.textures)
    requires forall k | k in ShelfOf(t.desk, preview).entries && ShelfOf(t.desk, preview).entries[k].state == Ready ::
      k in ShelfOf(s.desk, preview).entries
      && ShelfOf(s.desk, preview).entries[k] == ShelfOf(t.desk, preview).entries[k]
    ensures ReadyShown(t, preview)
  {
    var entries := ShelfOf(t.desk, preview).entries;
    forall k | k in entries && entries[k].state == Ready
      ensures Shows(entries[k], preview, k, t)
    {
      assert Shows(entries[k], preview, k, s);
      SameShows(entries[k], preview, k, s, t);
    }
  }

  lemma AskKeeps(s: Service, preview: bool, key: string, png: string, stamp: Stamp)
    requires Inv(s)
    ensures Inv(Asked(s, preview, key, png, stamp))
  {
    var next := Asked(s, preview, key, png, stamp);
    if next != s {
      RequestedLosesNothing(s, preview, key, png, stamp);
      ShelvedCounted(ShelfOf(s.desk, preview), key, stamp);
      SameReadyShown(s, next, false);
      SameReadyShown(s, next, true);
    }
  }

  // The worker.

  lemma TakenKeeps(s: Service)
    requires Inv(s)
    ensures Inv(Taken(s))
  {
    var next := Taken(s);
    if next != s {
      assert s.jobs == next.jobs + [next.hand.value];
      forall ask | IsPending(next.desk, ask) ensures OnItsWay(next, ask) {
        assert IsPending(s.desk, ask);
        if exists j :: j in s.jobs && JobAsk(j) == ask {
          var j :| j in s.jobs && JobAsk(j) == ask;
          assert j in next.jobs || j == next.hand.value;
        }
      }
      SameReadyShown(s, next, false);
      SameReadyShown(s, next, true);
    }
  }

  lemma FinishedLosesNothing(s: Service, made: Option<Thumbnail>)
    requires NothingLost(s)
    ensures NothingLost(Finished(s, made))
  {
    var next := Finished(s, made);
    if s.hand.Some? {
      var d := Done(s.hand.value.preview, s.hand.value.key, s.hand.value.stamp, made);
      assert d in next.done && DoneAsk(d) == JobAsk(s.hand.value);
      assert forall d | d in s.done :: d in next.done;
      forall ask | IsPending(next.desk, ask) ensures OnItsWay(next, ask) {
        assert IsPending(s.desk, ask);
      }
    }
  }

  lemma FinishedKeeps(s: Service, made: Option<Thumbnail>)
    requires Inv(s)
    ensures Inv(Finished(s, made))
  {
    var next := Finished(s, made);
    FinishedLosesNothing(s, made);
    SameReadyShown(s, next, false);
    SameReadyShown(s, next, true);
    assert AllMadeHere(next) by {
      forall d | d in next.done ensures MadeHere(next, d) {
        if d in s.done {
          assert MadeHere(s, d);
        }
      }
      forall d | d in next.finished ensures MadeHere(next, d) {
        assert MadeHere(s, d);
      }
    }
  }

  // Opening, closing, polling.

  lemma ClearedKeeps(s: Service, t: Service)
    requires Flags(t) && t.hand == None && t.jobs == [] && t.done == [] && t.finished == []
    requires t.desk.thumbnails == EMPTY && t.desk.previews == EMPTY
    requires AllMadeHere(s) && s.session <= t.session
    requires forall b | b in t.built :: b in s.built || b.session == s.session
    ensures Inv(t)
  {
    assert ReadyKeys(EMPTY) == {};
  }

  lemma OpenKeeps(s: Service, project: string, made: Option<Thumbnail>)
    requires Inv(s) && s.finished == []
    ensures Inv(Opened(s, project, made))
  {
    ClearedKeeps(s, Opened(s, project, made));
  }

  lemma CloseKeeps(s: Service, made: Option<Thumbnail>)
    requires Inv(s) && s.finished == []
    ensures Inv(Closed(s, made))
  {
    ClearedKeeps(s, Closed(s, made));
  }

  lemma SwapKeeps(s: Service)
    requires Inv(s) && s.finished == []
    ensures Inv(Swapped(s))
  {
    var next := Swapped(s);
    forall ask | IsPending(next.desk, ask) ensures OnItsWay(next, ask) {
      assert IsPending(s.desk, ask);
    }
    SameReadyShown(s, next, false);
    SameReadyShown(s, next, true);
  }

  lemma AcceptedPending(desk: Desk, item: Done, ask: Ask)
    requires IsPending(Accepted(desk, item), ask)
    ensures IsPending(desk, ask) && ask != DoneAsk(item)
  {
  }

  lemma AcceptLosesNothing(s: Service)
    requires NothingLost(s) && s.finished != []
    ensures NothingLost(AcceptedNext(s))
  {
    var next := AcceptedNext(s);
    var item := s.finished[0];
    assert s.finished == [item] + next.finished;
    forall ask | IsPending(next.desk, ask) ensures OnItsWay(next, ask) {
      AcceptedPending(s.desk, item, ask);
    }
  }

  lemma AcceptCounted(desk: Desk, item: Done)
    requires Counted(desk.thumbnails) && Counted(desk.previews)
    ensures Counted(Accepted(desk, item).thumbnails) && Counted(Accepted(desk, item).previews)
  {
    if Wanted(desk, item) {
      var shelf, next := ShelfOf(desk, item.preview), ShelfOf(Accepted(desk, item), item.preview);
      ReadyKeysSet(shelf, item.key, next.entries[item.key], next.ready);
      assert |ReadyKeys(next)| <= |ReadyKeys(shelf) + {item.key}| <= |ReadyKeys(shelf)| + 1;
      if item.thumbnail == None {
        assert |ReadyKeys(next)| <= |ReadyKeys(shelf)|;
      }
    }
  }

  lemma AcceptShown(s: Service, preview: bool)
    requires s.finished != [] && ReadyShown(s, preview) && MadeHere(s, s.finished[0])
    ensures ReadyShown(AcceptedNext(s), preview)
  {
    var next, item := AcceptedNext(s), s.finished[0];
    var entries := ShelfOf(next.desk, preview).entries;
    forall k | k in entries && entries[k].state == Ready ensures Shows(entries[k], preview, k, next) {
      if IsNews(s.desk, item) && preview == item.preview && k == item.key {
        assert Build(next.session, next.project, preview, k, entries[k].stamp, item.thumbnail.value) in next.built;
      } else {
        assert Shows(entries[k], preview, k, s);
        SameShows(entries[k], preview, k, s, next);
      }
    }
  }

  lemma AcceptKeeps(s: Service)
    requires Inv(s)
    ensures Inv(AcceptedNext(s))
  {
    if s.finished != [] {
      assert s.finished[0] in s.finished;
      AcceptLosesNothing(s);
      AcceptCounted(s.desk, s.finished[0]);
      AcceptShown(s, false);
      AcceptShown(s, true);
      assert forall d | d in AcceptedNext(s).finished :: d in s.finished && MadeHere(s, d);
    }
  }

  /** Every step of either thread keeps the invariant. */
  lemma StepKeeps(s: Service, e: Event)
    requires Inv(s)
    ensures Inv(Step(s, e))
  {
    match e
    case Open(project, made) => if s.finished == [] { OpenKeeps(s, project, made); }
    case Close(made) => if s.finished == [] { CloseKeeps(s, made); }
    case Find(preview, key, png, stamp) => if s.finished == [] { AskKeeps(s, preview, key, png, stamp); }
    case Swap => if s.finished == [] { SwapKeeps(s); }
    case Accept => AcceptKeeps(s);
    case Take => TakenKeeps(s);
    case Finish(made) => FinishedKeeps(s, made);
  }

  lemma {:induction false} RunKeeps(s: Service, events: seq<Event>)
    requires Inv(s)
    ensures Inv(Run(s, events))
    decreases |events|
  {
    if events != [] {
      StepKeeps(s, events[0]);
      RunKeeps(Step(s, events[0]), events[1..]);
    }
  }

  lemma EveryRunKeeps(events: seq<Event>)
    ensures Inv(Run(Begin(), events))
  {
    ClearedKeeps(Begin(), Begin());
    RunKeeps(Begin(), events);
  }

  // What follows for the editor.

  lemma {:induction false} AcceptAllKeeps(s: Service)
    requires Inv(s)
    ensures Inv(s.(desk := AcceptedAll(s.desk, s.finished), finished := []))
    decreases |s.finished|
  {
    if s.finished == [] {
      assert s.(desk := AcceptedAll(s.desk, s.finished), finished := []) == s;
    } else {
      AcceptKeeps(s);
      var next := AcceptedNext(s);
      AcceptAllKeeps(next);
      assert s.(desk := AcceptedAll(s.desk, s.finished), finished := [])
          == next.(desk := AcceptedAll(next.desk, next.finished), finished := []);
    }
  }

  lemma PollKeeps(s: Service)
    requires Inv(s) && s.finished == []
    ensures Inv(Polled(s))
  {
    SwapKeeps(s);
    AcceptAllKeeps(Swapped(s));
  }

  /** Once nothing waits and `poll` has drained the results, no entry is still pending. */
  lemma NoneStuck(s: Service, ask: Ask)
    requires Inv(s) && s.finished == [] && PendingCount(s) == 0
    ensures !IsPending(Polled(s).desk, ask)
  {
    PollKeeps(s);
    assert !OnItsWay(Polled(s), ask);
  }

  /** The worker left to itself; `make` is what the disk yields for each job. */
  function Settled(s: Service, make: Job -> Option<Thumbnail>): Service
    requires Flags(s)
    decreases 2 * |s.jobs| + if s.hand.Some? then 1 else 0
  {
    if s.hand.Some? then Settled(Finished(s, make(s.hand.value)), make)
    else if s.jobs == [] then s
    else Settled(Taken(s), make)
  }

  lemma {:induction false} SettledKeeps(s: Service, make: Job -> Option<Thumbnail>)
    requires Inv(s)
    ensures Inv(Settled(s, make)) && PendingCount(Settled(s, make)) == 0
    ensures Settled(s, make).desk == s.desk && Settled(s, make).finished == s.finished
    decreases 2 * |s.jobs| + if s.hand.Some? then 1 else 0
  {
    if s.hand.Some? {
      FinishedKeeps(s, make(s.hand.value));
      SettledKeeps(Finished(s, make(s.hand.value)), make);
    } else if s.jobs != [] {
      TakenKeeps(s);
      SettledKeeps(Taken(s), make);
    }
  }

  lemma {:induction false} AcceptedAllStamps(desk: Desk, items: seq<Done>, ask: Ask)
    ensures Known(AcceptedAll(desk, items), ask) == Known(desk, ask)
    decreases |items|
  {
    if items != [] {
      AcceptedAllStamps(Accepted(desk, items[0]), items[1..], ask);
    }
  }

  /** From any state a run reaches, the worker comes to rest by itself, and the next poll settles every request: each
      is still there, for the same stamp, and is ready or has failed. */
  lemma EveryRequestSettles(s: Service, make: Job -> Option<Thumbnail>, ask: Ask)
    requires Inv(s) && s.finished == []
    ensures var t := Polled(Settled(s, make)); !IsPending(t.desk, ask) && (Known(t.desk, ask) <==> Known(s.desk, ask))
  {
    SettledKeeps(s, make);
    NoneStuck(Settled(s, make), ask);
    AcceptedAllStamps(s.desk, Settled(s, make).done, ask);
  }

  lemma {:induction false} SessionsGrow(s: Service, events: seq<Event>)
    ensures s.session <= Run(s, events).session
    decreases |events|
  {
    if events != [] {
      SessionsGrow(Step(s, events[0]), events[1..]);
    }
  }

  lemma OlderSessions(s: Service, made: Option<Thumbnail>, project: string)
    requires Inv(s)
    ensures forall b | b in Opened(s, project, made).built :: b.session < Opened(s, project, made).session
  {
    assert forall b | b in s.built :: b.session <= s.session;
  }

  // Asked once for each stamp.

  /** A step that neither forgets the entry nor asks for it with another stamp. */
  predicate Leaves(e: Event, ask: Ask) {
    match e
    case Open(_, _) => false
    case Close(_) => false
    case Find(preview, key, _, stamp) => preview == ask.preview && key == ask.key ==> stamp == ask.stamp
    case _ => true
  }

  lemma StaysKnown(s: Service, e: Event, ask: Ask)
    requires Known(s.desk, ask) && Leaves(e, ask)
    ensures Known(Step(s, e).desk, ask)
  {
  }

  lemma {:induction false} AskedOnce(s: Service, events: seq<Event>, ask: Ask, png: string)
    requires Known(s.desk, ask) && forall e | e in events :: Leaves(e, ask)
    ensures var t := Run(s, events); Asked(t, ask.preview, ask.key, png, ask.stamp) == t
    decreases |events|
  {
    if events != [] {
      assert events[0] in events;
      StaysKnown(s, events[0], ask);
      AskedOnce(Step(s, events[0]), events[1..], ask, png);
    }
  }

  /** A request once made is not made again while its stamp is asked for, whatever the worker and the polls do. */
  lemma OncePerStamp(
    s: Service, preview: bool, key: string, png: string, stamp: Stamp, events: seq<Event>, again: string)
    requires Asked(s, preview, key, png, stamp) != s && forall e | e in events :: Leaves(e, Ask(preview, key, stamp))
    ensures var t := Run(Asked(s, preview, key, png, stamp), events); Asked(t, preview, key, again, stamp) == t
  {
    AskedOnce(Asked(s, preview, key, png, stamp), events, Ask(preview, key, stamp), again);
  }
}
