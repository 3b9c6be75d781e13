/** Which image is registered under the id of an answer. */
module ThumbnailTextures {
  import opened Basics
  import opened Thumbnails
  import opened ThumbnailRuns

  /** The last result accepted for each key since the project was opened, and the last one registered under each id. */
  datatype Trace = Trace(results: map<(bool, string), Done>, painted: map<UiId, Done>)

  const NO_TRACE := Trace(map[], map[])

  function IdOf(d: Done): UiId
    requires d.thumbnail.Some?
  {
    ImageId(d.preview, d.key, d.stamp, d.thumbnail.value)
  }

  function Painted(tr: Trace, d: Done): Trace
    requires d.thumbnail.Some?
  {
    Trace(tr.results[(d.preview, d.key) := d], tr.painted[IdOf(d) := d])
  }

  function Traced(s: Service, tr: Trace, e: Event): Trace {
    match e
    case Open(_, _) => if s.finished == [] then tr.(results := map[]) else tr
    case Close(_) => if s.finished == [] then tr.(results := map[]) else tr
    case Accept => if s.finished != [] && IsNews(s.desk, s.finished[0]) then Painted(tr, s.finished[0]) else tr
    case _ => tr
  }

  function TraceOf(s: Service, tr: Trace, events: seq<Event>): Trace
    decreases |events|
  {
    if events == [] then tr else TraceOf(Step(s, events[0]), Traced(s, tr, events[0]), events[1..])
  }

  // What the trace says of the state.

  /** A ready entry shows the last result accepted for its key. */
  predicate EntryFollows(e: Entry, preview: bool, key: string, tr: Trace) {
    (preview, key) in tr.results &&
    var d := tr.results[(preview, key)];
    d.preview == preview && d.key == key && d.stamp == e.stamp && d.thumbnail.Some?
    && e.uiId == IdOf(d) && e.width == d.thumbnail.value.image.width && e.height == d.thumbnail.value.image.height
  }

  ghost predicate EntriesFollow(desk: Desk, tr: Trace) {
    forall preview: bool, k | k in ShelfOf(desk, preview).entries && ShelfOf(desk, preview).entries[k].state == Ready ::
      EntryFollows(ShelfOf(desk, preview).entries[k], preview, k, tr)
  }

  predicate TextureFollows(textures: map<UiId, Image>, tr: Trace, id: UiId)
    requires id in tr.painted
  {
    var d := tr.painted[id];
    d.thumbnail.Some? && IdOf(d) == id && id in textures && textures[id] == d.thumbnail.value.image
  }

  ghost predicate TexturesFollow(desk: Desk, tr: Trace) {
    forall id | id in tr.painted :: TextureFollows(desk.textures, tr, id)
  }

  /** The last result of a key was made here, and under its id is its own image or that of another key. */
  ghost predicate ResultFollows(s: Service, tr: Trace, at: (bool, string))
    requires at in tr.results
  {
    var d := tr.results[at];
    (d.preview, d.key) == at && d.thumbnail.Some? && MadeHere(s, d)
    && IdOf(d) in tr.painted && (tr.painted[IdOf(d)].key == d.key ==> tr.painted[IdOf(d)] == d)
  }

  ghost predicate ResultsFollow(s: Service, tr: Trace) {
    forall at | at in tr.results :: ResultFollows(s, tr, at)
  }

  ghost predicate Follows(s: Service, tr: Trace) {
    EntriesFollow(s.desk, tr) && TexturesFollow(s.desk, tr) && ResultsFollow(s, tr)
  }

  lemma PaintedFollows(desk: Desk, tr: Trace, d: Done)
    requires EntriesFollow(desk, tr) && TexturesFollow(desk, tr) && IsNews(desk, d)
    ensures EntriesFollow(Accepted(desk, d), Painted(tr, d)) && TexturesFollow(Accepted(desk, d), Painted(tr, d))
  {
    var next, after := Accepted(desk, d), Painted(tr, d);
    forall preview: bool, k | k in ShelfOf(next, preview).entries && ShelfOf(next, preview).entries[k].state == Ready
      ensures EntryFollows(ShelfOf(next, preview).entries[k], preview, k, after)
    {
      if (preview, k) != (d.preview, d.key) {
        assert ShelfOf(next, preview).entries[k] == ShelfOf(desk, preview).entries[k];
        assert EntryFollows(ShelfOf(desk, preview).entries[k], preview, k, tr);
      }
    }
    forall id | id in after.painted
      ensures TextureFollows(next.textures, after, id)
    {
      if id != IdOf(d) {
        assert TextureFollows(desk.textures, tr, id);
      }
    }
  }

  lemma PaintedResults(s: Service, t: Service, tr: Trace, d: Done)
    requires ResultsFollow(s, tr) && d.thumbnail.Some? && MadeHere(s, d)
    requires t.built == s.built && t.session == s.session && t.project == s.project
    ensures ResultsFollow(t, Painted(tr, d))
  {
    var after := Painted(tr, d);
    forall at | at in after.results
      ensures ResultFollows(t, after, at)
    {
      if at != (d.preview, d.key) {
        assert ResultFollows(s, tr, at);
      }
    }
  }

  lemma AcceptFollows(s: Service, tr: Trace)
    requires Inv(s) && Follows(s, tr)
    ensures Follows(AcceptedNext(s), Traced(s, tr, Accept))
  {
    hide EntriesFollow, TexturesFollow, ResultsFollow, NothingLost, Counted, ReadyShown;
    if s.finished != [] {
      var d := s.finished[0];
      assert d in s.finished;
      if IsNews(s.desk, d) {
        PaintedFollows(s.desk, tr, d);
        PaintedResults(s, AcceptedNext(s), tr, d);
      } else {
        SameFollows(s, AcceptedNext(s), tr);
      }
    }
  }

  /** No new ready entry, the same textures, and no build forgotten. */
  lemma SameFollows(s: Service, t: Service, tr: Trace)
    requires Follows(s, tr) && t.desk.textures == s.desk.textures
    requires t.session == s.session && t.project == s.project && s.built <= t.built
    requires forall preview: bool, k
      | k in ShelfOf(t.desk, preview).entries && ShelfOf(t.desk, preview).entries[k].state == Ready ::
      k in ShelfOf(s.desk, preview).entries
      && ShelfOf(s.desk, preview).entries[k] == ShelfOf(t.desk, preview).entries[k]
    ensures Follows(t, tr)
  {
    forall at | at in tr.results
      ensures ResultFollows(t, tr, at)
    {
      assert ResultFollows(s, tr, at);
    }
    forall id | id in tr.painted
      ensures TextureFollows(t.desk.textures, tr, id)
    {
      assert TextureFollows(s.desk.textures, tr, id);
    }
  }

  lemma EmptyFollows(s: Service, t: Service, tr: Trace)
    requires TexturesFollow(s.desk, tr) && t.desk.textures == s.desk.textures
    requires t.desk.thumbnails == EMPTY && t.desk.previews == EMPTY
    ensures Follows(t, tr.(results := map[]))
  {
    forall id | id in tr.painted
      ensures TextureFollows(t.desk.textures, tr.(results := map[]), id)
    {
      assert TextureFollows(s.desk.textures, tr, id);
    }
  }

  lemma StepFollows(s: Service, tr: Trace, e: Event)
    requires Inv(s) && Follows(s, tr)
    ensures Follows(Step(s, e), Traced(s, tr, e))
  {
    hide EntriesFollow, TexturesFollow, ResultsFollow, NothingLost, Counted, ReadyShown, AllMadeHere;
    match e
    case Open(_, _) => if s.finished == [] { EmptyFollows(s, Step(s, e), tr); }
    case Close(_) => if s.finished == [] { EmptyFollows(s, Step(s, e), tr); }
    case Accept => AcceptFollows(s, tr);
    case Find(_, _, _, _) => SameFollows(s, Step(s, e), tr);
    case Finish(_) => SameFollows(s, Step(s, e), tr);
    case _ => SameFollows(s, Step(s, e), tr);
  }

  lemma {:induction false} RunFollows(s: Service, tr: Trace, events: seq<Event>)
    requires Inv(s) && Follows(s, tr)
    ensures Follows(Run(s, events), TraceOf(s, tr, events))
    decreases |events|
  {
    if events != [] {
      StepKeeps(s, events[0]);
      StepFollows(s, tr, events[0]);
      RunFollows(Step(s, events[0]), Traced(s, tr, events[0]), events[1..]);
    }
  }

  /** The result is an image made in session `n` or later. */
  ghost predicate BuiltSince(s: Service, d: Done, n: nat) {
    exists b | b in s.built ::
      b.session >= n && (b.preview, b.key, b.stamp) == (d.preview, d.key, d.stamp) && d.thumbnail == Some(b.thumbnail)
  }

  ghost predicate PaintedBuilt(s: Service, tr: Trace, n: nat) {
    forall id | id in tr.painted :: BuiltSince(s, tr.painted[id], n)
  }

  lemma StepPainted(s: Service, tr: Trace, e: Event, n: nat)
    requires Inv(s) && n <= s.session && PaintedBuilt(s, tr, n)
    ensures PaintedBuilt(Step(s, e), Traced(s, tr, e), n) && n <= Step(s, e).session
  {
    hide NothingLost, Counted, ReadyShown, PaintedBuilt;
    match e
    case Accept => AcceptPainted(s, tr, n);
    case _ => StillPainted(s, Step(s, e), tr, Traced(s, tr, e), n);
  }

  lemma StillPainted(s: Service, t: Service, tr: Trace, after: Trace, n: nat)
    requires PaintedBuilt(s, tr, n) && s.built <= t.built && after.painted == tr.painted
    ensures PaintedBuilt(t, after, n)
  {
    forall id | id in after.painted
      ensures BuiltSince(t, after.painted[id], n)
    {
      assert BuiltSince(s, tr.painted[id], n);
    }
  }

  lemma AcceptPainted(s: Service, tr: Trace, n: nat)
    requires AllMadeHere(s) && n <= s.session && PaintedBuilt(s, tr, n)
    ensures PaintedBuilt(AcceptedNext(s), Traced(s, tr, Accept), n)
  {
    hide Accepted, Wanted;
    StillPainted(s, AcceptedNext(s), tr, tr, n);
    if s.finished != [] && IsNews(s.desk, s.finished[0]) {
      var d := s.finished[0];
      assert d in s.finished && MadeHere(s, d);
      assert BuiltSince(AcceptedNext(s), d, n);
    }
  }

  lemma {:induction false} RunPainted(s: Service, tr: Trace, events: seq<Event>, n: nat)
    requires Inv(s) && n <= s.session && PaintedBuilt(s, tr, n)
    ensures PaintedBuilt(Run(s, events), TraceOf(s, tr, events), n)
    decreases |events|
  {
    if events != [] {
      StepKeeps(s, events[0]);
      StepPainted(s, tr, events[0], n);
      RunPainted(Step(s, events[0]), Traced(s, tr, events[0]), events[1..], n);
    }
  }

  /** An answer is an image made for that very key and stamp, in the open project and since it was opened.  The texture
      under its id is the image of the last result registered under the id, made since then for the same GUID and stamp:
      so it is the answer's own image if and only if that result was for this key too, or brought the same image; for a
      preview it always is. */
  lemma AnswerIsCurrent(s: Service, project: string, made: Option<Thumbnail>, events: seq<Event>,
                        preview: bool, key: string, stamp: Stamp) returns (t: Thumbnail)
    requires Inv(s) && s.finished == []
    requires Answer(Run(Opened(s, project, made), events), preview, key, stamp).Some?
    ensures var before, now := Opened(s, project, made), Run(Opened(s, project, made), events);
      var e := Answer(now, preview, key, stamp).value;
      Build(now.session, now.project, preview, key, stamp, t) in now.built - before.built
      && e.uiId == ImageId(preview, key, stamp, t) && (e.width, e.height) == (t.image.width, t.image.height)
    ensures var before, now := Opened(s, project, made), Run(Opened(s, project, made), events);
      var id, tr := ImageId(preview, key, stamp, t), TraceOf(before, NO_TRACE, events);
      id in now.desk.textures && id in tr.painted && tr.painted[id].thumbnail.Some? && IdOf(tr.painted[id]) == id
      && BuiltSince(now, tr.painted[id], before.session)
      && (now.desk.textures[id] == t.image
          <==> tr.painted[id].key == key || tr.painted[id].thumbnail.value.image == t.image)
      && (preview ==> now.desk.textures[id] == t.image)
  {
    var before := Opened(s, project, made);
    var now, tr := Run(before, events), TraceOf(before, NO_TRACE, events);
    OpenKeeps(s, project, made);
    RunFollows(before, NO_TRACE, events);
    RunPainted(before, NO_TRACE, events, before.session);
    SessionsGrow(before, events);
    OlderSessions(s, made, project);
    var e := Answer(now, preview, key, stamp).value;
    assert EntryFollows(e, preview, key, tr);
    t := AnswerTraced(now, tr, e, preview, key);
  }

  lemma AnswerTraced(now: Service, tr: Trace, e: Entry, preview: bool, key: string) returns (t: Thumbnail)
    requires Follows(now, tr) && EntryFollows(e, preview, key, tr)
    ensures Build(now.session, now.project, preview, key, e.stamp, t) in now.built
    ensures e.uiId == ImageId(preview, key, e.stamp, t) && e.width == t.image.width && e.height == t.image.height
    ensures e.uiId in now.desk.textures && e.uiId in tr.painted && tr.painted[e.uiId].thumbnail.Some?
    ensures IdOf(tr.painted[e.uiId]) == e.uiId
    ensures now.desk.textures[e.uiId] == t.image
      <==> tr.painted[e.uiId].key == key || tr.painted[e.uiId].thumbnail.value.image == t.image
    ensures preview ==> now.desk.textures[e.uiId] == t.image
  {
    var d := tr.results[(preview, key)];
    t := d.thumbnail.value;
    assert ResultFollows(now, tr, (preview, key));
    assert TextureFollows(now.desk.textures, tr, e.uiId);
  }

  /** Every image of `built` with the GUID of `t` and this stamp is for this key, or is the same image. */
  predicate NoOtherImage(built: set<Build>, key: string, stamp: Stamp, t: Thumbnail) {
    forall b | b in built && !b.preview && b.stamp == stamp && b.thumbnail.guid == t.guid ::
      b.key == key || b.thumbnail.image == t.image
  }

  /** An answer shows its own image if no other key had another image made with its GUID and stamp since the project was
      opened: no two sidecars name one GUID, or builds found the image that the first one kept on disk. */
  lemma AnswerShowsOwnImage(s: Service, project: string, made: Option<Thumbnail>, events: seq<Event>,
                            preview: bool, key: string, stamp: Stamp) returns (t: Thumbnail)
    requires Inv(s) && s.finished == []
    requires Answer(Run(Opened(s, project, made), events), preview, key, stamp).Some?
    ensures var before, now := Opened(s, project, made), Run(Opened(s, project, made), events);
      var id := Answer(now, preview, key, stamp).value.uiId;
      && Build(now.session, now.project, preview, key, stamp, t) in now.built - before.built
      && id in now.desk.textures
      && (NoOtherImage(now.built - before.built, key, stamp, t) ==> now.desk.textures[id] == t.image)
  {
    var before, now := Opened(s, project, made), Run(Opened(s, project, made), events);
    t := AnswerIsCurrent(s, project, made, events, preview, key, stamp);
    OlderSessions(s, made, project);
    var last := TraceOf(before, NO_TRACE, events).painted[ImageId(preview, key, stamp, t)];
    if !preview && NoOtherImage(now.built - before.built, key, stamp, t) {
      var b :| b in now.built && b.session >= before.session && last.thumbnail == Some(b.thumbnail)
        && (b.preview, b.key, b.stamp) == (last.preview, last.key, last.stamp);
      assert b !in before.built;
    }
  }

  // Two keys, one id.

  lemma AskIs(s: Service, key: string, png: string, stamp: Stamp)
    requires s.jobs == [] && s.project != ""
    requires key !in s.desk.thumbnails.entries && s.desk.thumbnails.ready < MAX_THUMBNAILS
    ensures var shelf := Shelf(s.desk.thumbnails.entries[key := NewEntry(stamp)], s.desk.thumbnails.ready);
      Asked(s, false, key, png, stamp)
        == s.(desk := s.desk.(thumbnails := shelf), jobs := [Job(false, key, png, stamp)])
  {
  }

  lemma TakeIs(s: Service, job: Job)
    requires s.alive && !s.stopping && s.hand == None && s.jobs == [job]
    ensures Taken(s) == s.(hand := Some(job), jobs := [], busy := true)
  {
  }

  lemma FinishIs(s: Service, t: Thumbnail)
    requires s.hand.Some?
    ensures var job := s.hand.value;
      Finished(s, Some(t)) == s.(
        done := s.done + [Done(job.preview, job.key, job.stamp, Some(t))], hand := None, busy := false,
        built := s.built + {Build(s.session, s.worker, job.preview, job.key, job.stamp, t)})
  {
  }

  lemma AskMakeIs(s: Service, key: string, png: string, stamp: Stamp, t: Thumbnail)
    requires s.alive && !s.stopping && s.hand == None && s.jobs == [] && s.project != ""
    requires key !in s.desk.thumbnails.entries && s.desk.thumbnails.ready < MAX_THUMBNAILS
    ensures var n := Finished(Taken(Asked(s, false, key, png, stamp)), Some(t));
      n.alive && !n.stopping && n.hand == None && n.jobs == [] && n.project == s.project && n.session == s.session
      && n.done == s.done + [Done(false, key, stamp, Some(t))]
      && n.built == s.built + {Build(s.session, s.worker, false, key, stamp, t)} && n.worker == s.worker
      && n.desk.thumbnails == Shelf(s.desk.thumbnails.entries[key := NewEntry(stamp)], s.desk.thumbnails.ready)
      && n.desk.textures == s.desk.textures && n.desk.previews == s.desk.previews
  {
    hide Asked, Taken, Finished;
    var asked := Asked(s, false, key, png, stamp);
    AskIs(s, key, png, stamp);
    TakeIs(asked, Job(false, key, png, stamp));
    FinishIs(Taken(asked), t);
  }

  /** Two files whose sidecars name one GUID, looked at with the same stamp: the answer for the first shows the image of
      the second.  A build first looks for the image kept on disk for that GUID and stamp, so the two images differ only
      when the first could not be written there, or cannot be read any more. */
  lemma TwoKeysShareATexture(guid: string, stamp: Stamp, i: Image, j: Image)
    requires i != j
    ensures var first := Finished(Taken(Asked(Opened(Begin(), "p", None), false, "k", "k.png", stamp)),
        Some(Thumbnail(guid, i)));
      var second := Finished(Taken(Asked(first, false, "l", "l.png", stamp)), Some(Thumbnail(guid, j)));
      var now := Polled(second);
      var answer := Answer(now, false, "k", stamp);
      answer.Some? && answer.value.uiId in now.desk.textures && now.desk.textures[answer.value.uiId] == j
      && forall b | b in now.built && b.key == "k" :: b.thumbnail.image == i
  {
    var s0 := Opened(Begin(), "p", None);
    AskMakeIs(s0, "k", "k.png", stamp, Thumbnail(guid, i));
    var first := Finished(Taken(Asked(s0, false, "k", "k.png", stamp)), Some(Thumbnail(guid, i)));
    AskMakeIs(first, "l", "l.png", stamp, Thumbnail(guid, j));
    var second := Finished(Taken(Asked(first, false, "l", "l.png", stamp)), Some(Thumbnail(guid, j)));
    var x, y := Done(false, "k", stamp, Some(Thumbnail(guid, i))), Done(false, "l", stamp, Some(Thumbnail(guid, j)));
    assert second.done == [x, y];
    BothPainted(second.desk, x, y);
  }

  lemma BothPainted(desk: Desk, x: Done, y: Done)
    requires !x.preview && !y.preview && x.key != y.key && x.stamp == y.stamp && IsNews(desk, x) && IsNews(desk, y)
    requires x.thumbnail.value.guid == y.thumbnail.value.guid
    ensures var end := AcceptedAll(desk, [x, y]);
      x.key in end.thumbnails.entries && var e := end.thumbnails.entries[x.key];
      e.state == Ready && e.stamp == x.stamp && e.uiId == IdOf(x) == IdOf(y)
      && e.uiId in end.textures && end.textures[e.uiId] == y.thumbnail.value.image
  {
    var once := Accepted(desk, x);
    var twice := Accepted(once, y);
    assert [x, y][1..] == [y] && [y][1..] == [];
    assert AcceptedAll(once, [y]) == AcceptedAll(twice, []) == twice;
  }
}
