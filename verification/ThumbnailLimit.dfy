/** The limit on images can be passed: requests that are on their way when it is checked all become images. */
module ThumbnailLimit {
  import opened Basics
  import opened Thumbnails
  import opened ThumbnailRuns

  lemma {:induction false} RunAppend(s: Service, a: seq<Event>, b: seq<Event>)
    ensures Run(s, a + b) == Run(Run(s, a), b)
    decreases |a|
  {
    if a == [] {
      assert a + b == b;
    } else {
      assert (a + b)[0] == a[0] && (a + b)[1..] == a[1..] + b;
      RunAppend(Step(s, a[0]), a[1..], b);
    }
  }

  lemma RunOne(s: Service, e: Event)
    ensures Run(s, [e]) == Step(s, e)
  {
    assert Run(Step(s, e), [e][1..]) == Step(s, e);
  }

  /** A run that goes on. */
  lemma Further(s: Service, a: seq<Event>, mid: Service, b: seq<Event>)
    requires Run(s, a) == mid
    ensures Run(s, a + b) == Run(mid, b)
  {
    RunAppend(s, a, b);
  }

  // The worker and the poll are steps of a run.

  lemma {:induction false} SettledIsARun(s: Service, make: Job -> Option<Thumbnail>) returns (events: seq<Event>)
    requires Flags(s)
    ensures Run(s, events) == Settled(s, make)
    decreases 2 * |s.jobs| + if s.hand.Some? then 1 else 0
  {
    if s.hand.Some? {
      var made := make(s.hand.value);
      var rest := SettledIsARun(Finished(s, made), make);
      events := [Finish(made)] + rest;
      assert events[1..] == rest;
    } else if s.jobs == [] {
      events := [];
    } else {
      var rest := SettledIsARun(Taken(s), make);
      events := [Take] + rest;
      assert events[1..] == rest;
    }
  }

  lemma {:induction false} AcceptsAreARun(s: Service) returns (events: seq<Event>)
    ensures Run(s, events) == s.(desk := AcceptedAll(s.desk, s.finished), finished := [])
    decreases |s.finished|
  {
    if s.finished == [] {
      events := [];
    } else {
      var next := AcceptedNext(s);
      var rest := AcceptsAreARun(next);
      events := [Accept] + rest;
      assert events[1..] == rest;
    }
  }

  lemma PolledIsARun(s: Service) returns (events: seq<Event>)
    requires s.finished == []
    ensures Run(s, events) == Polled(s)
  {
    var rest := AcceptsAreARun(Swapped(s));
    events := [Swap] + rest;
    assert events[1..] == rest;
  }

  // Many requests before the first result.

  function Key(i: nat): string {
    seq(i, _ => 'k')
  }

  function Keys(n: nat): set<string> {
    set i | 0 <= i < n :: Key(i)
  }

  lemma {:induction false} KeysSize(n: nat)
    ensures |Keys(n)| == n && Key(n) !in Keys(n)
  {
    assert forall i | 0 <= i < n :: |Key(i)| == i;
    if n > 0 {
      KeysSize(n - 1);
      KeysGrow(n - 1);
    }
  }

  /** `n` keys asked for, one after the other. */
  function AskedFor(s: Service, n: nat, stamp: Stamp): Service {
    if n == 0 then s else Asked(AskedFor(s, n - 1, stamp), false, Key(n - 1), "", stamp)
  }

  /** Nothing has failed, and nothing on its way will. */
  ghost predicate NoFailure(s: Service) {
    (forall k | k in s.desk.thumbnails.entries :: s.desk.thumbnails.entries[k].state != Failed)
    && (forall d | d in s.done :: d.thumbnail.Some?)
  }

  /** `n` keys have been asked for, and nothing has come of it yet. */
  ghost predicate AllAsked(s: Service, n: nat, stamp: Stamp) {
    Inv(s) && s.finished == [] && s.done == [] && s.project == "p" && NoFailure(s)
    && s.desk.thumbnails.ready == 0 && s.desk.thumbnails.entries.Keys == Keys(n)
    && forall k | k in Keys(n) :: s.desk.thumbnails.entries[k] == NewEntry(stamp)
  }

  lemma {:induction false} AskedForIs(s: Service, n: nat, stamp: Stamp)
    requires s == Opened(Begin(), "p", None)
    ensures AllAsked(AskedFor(s, n, stamp), n, stamp)
  {
    hide AllAsked;
    if n == 0 {
      NoneAsked(s, stamp);
    } else {
      AskedForIs(s, n - 1, stamp);
      OneMoreAsked(AskedFor(s, n - 1, stamp), n - 1, stamp);
    }
  }

  lemma NoneAsked(s: Service, stamp: Stamp)
    requires s == Opened(Begin(), "p", None)
    ensures AllAsked(s, 0, stamp)
  {
    EveryRunKeeps([]);
    OpenKeeps(Begin(), "p", None);
  }

  lemma OneMoreAsked(s: Service, n: nat, stamp: Stamp)
    requires AllAsked(s, n, stamp)
    ensures AllAsked(Asked(s, false, Key(n), "", stamp), n + 1, stamp)
  {
    hide NothingLost, Counted, ReadyShown, AllMadeHere, Key;
    var t := Asked(s, false, Key(n), "", stamp);
    KeysSize(n);
    AskKeeps(s, false, Key(n), "", stamp);
    KeysGrow(n);
    var entries := s.desk.thumbnails.entries;
    assert t.desk.thumbnails == Shelf(entries[Key(n) := NewEntry(stamp)], 0);
  }

  lemma KeysGrow(n: nat)
    ensures Keys(n + 1) == Keys(n) + {Key(n)}
  {
  }

  lemma {:induction false} AskedForIsARun(s: Service, n: nat, stamp: Stamp) returns (events: seq<Event>)
    requires s == Opened(Begin(), "p", None)
    ensures Run(s, events) == AskedFor(s, n, stamp)
  {
    hide NothingLost, Counted, ReadyShown, AllMadeHere, NoFailure;
    if n == 0 {
      events := [];
    } else {
      var before := AskedForIsARun(s, n - 1, stamp);
      var e := Find(false, Key(n - 1), "", stamp);
      AskedForIs(s, n - 1, stamp);
      Further(s, before, AskedFor(s, n - 1, stamp), [e]);
      RunOne(AskedFor(s, n - 1, stamp), e);
      events := before + [e];
    }
  }

  lemma {:induction false} SettledNoFailure(s: Service, make: Job -> Option<Thumbnail>)
    requires Flags(s) && NoFailure(s) && forall j :: make(j).Some?
    ensures NoFailure(Settled(s, make))
    decreases 2 * |s.jobs| + if s.hand.Some? then 1 else 0
  {
    if s.hand.Some? {
      SettledNoFailure(Finished(s, make(s.hand.value)), make);
    } else if s.jobs != [] {
      SettledNoFailure(Taken(s), make);
    }
  }

  lemma {:induction false} AcceptedNoFailure(desk: Desk, items: seq<Done>)
    requires forall k | k in desk.thumbnails.entries :: desk.thumbnails.entries[k].state != Failed
    requires forall d | d in items :: d.thumbnail.Some?
    ensures var end := AcceptedAll(desk, items);
      (forall k | k in end.thumbnails.entries :: end.thumbnails.entries[k].state != Failed)
      && end.thumbnails.entries.Keys == desk.thumbnails.entries.Keys
    decreases |items|
  {
    if items != [] {
      var d := items[0];
      assert d in items;
      AcceptedNoFailure(Accepted(desk, d), items[1..]);
    }
  }

  /** Every one of `n` requests becomes a ready image, however large `n` is. */
  lemma AllBecomeReady(s: Service, n: nat, stamp: Stamp, make: Job -> Option<Thumbnail>)
    requires AllAsked(s, n, stamp) && forall j :: make(j).Some?
    ensures |ReadyKeys(Polled(Settled(s, make)).desk.thumbnails)| == n
  {
    var settled := Settled(s, make);
    SettledKeeps(s, make);
    SettledNoFailure(s, make);
    AcceptedNoFailure(settled.desk, settled.done);
    var end := Polled(settled);
    forall k | k in Keys(n)
      ensures k in ReadyKeys(end.desk.thumbnails)
    {
      EveryRequestSettles(s, make, Ask(false, k, stamp));
    }
    assert ReadyKeys(end.desk.thumbnails) == Keys(n);
    KeysSize(n);
  }

  /** From there the worker and the poll are a run. */
  lemma SettleAndPoll(s: Service, make: Job -> Option<Thumbnail>) returns (events: seq<Event>)
    requires Inv(s) && s.finished == []
    ensures Run(s, events) == Polled(Settled(s, make))
  {
    SettledKeeps(s, make);
    var works := SettledIsARun(s, make);
    var polls := PolledIsARun(Settled(s, make));
    Further(s, works, Settled(s, make), polls);
    events := works + polls;
  }

  /** For every number, `MAX_THUMBNAILS + 1` and more, there is a run that ends with so many ready thumbnails. */
  lemma LimitCanBePassed(n: nat, stamp: Stamp, t: Thumbnail) returns (events: seq<Event>)
    ensures |ReadyKeys(Run(Begin(), events).desk.thumbnails)| == n
  {
    var make: Job -> Option<Thumbnail> := _ => Some(t);
    var s := Opened(Begin(), "p", None);
    var open := [Open("p", None)];
    RunOne(Begin(), Open("p", None));
    AskedForIs(s, n, stamp);
    var asks := AskedForIsARun(s, n, stamp);
    Further(Begin(), open, s, asks);
    var rest := SettleAndPoll(AskedFor(s, n, stamp), make);
    Further(Begin(), open + asks, AskedFor(s, n, stamp), rest);
    AllBecomeReady(AskedFor(s, n, stamp), n, stamp, make);
    events := open + asks + rest;
  }
}
