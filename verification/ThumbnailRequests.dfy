/** When the editor's question for an image makes a request, and that the request is answered. */
module ThumbnailRequests {
  import opened Basics
  import opened Thumbnails
  import opened ThumbnailRuns

  function EntriesOf(s: Service, preview: bool): map<string, Entry> {
    if preview then s.desk.previews.entries else s.desk.thumbnails.entries
  }

  function ReadyOf(s: Service, preview: bool): nat {
    if preview then s.desk.previews.ready else s.desk.thumbnails.ready
  }

  /** There is an entry for this very stamp, whatever has become of it. */
  predicate AskedBefore(s: Service, preview: bool, key: string, stamp: Stamp) {
    key in EntriesOf(s, preview) && EntriesOf(s, preview)[key].stamp == stamp
  }

  /** A question makes a request exactly when a project is open, no entry is for this stamp, and there is room: at most
      1024 ready thumbnails and 128 ready previews.  Then the entry is pending for this stamp, the job waits behind the
      others, and a ready image that is replaced is no longer counted.  Nothing else changes. */
  lemma RequestExactly(s: Service, preview: bool, key: string, png: string, stamp: Stamp)
    ensures var t := Asked(s, preview, key, png, stamp);
      var room := ReadyOf(s, preview) < if preview then 128 else 1024;
      if s.project != "" && !AskedBefore(s, preview, key, stamp) && room then
        && EntriesOf(t, preview) == EntriesOf(s, preview)[key := Entry(stamp, Pending, NoId, 0, 0)]
        && t.jobs == s.jobs + [Job(preview, key, png, stamp)]
        && ReadyOf(t, preview) == ReadyOf(s, preview) -
             (if key in EntriesOf(s, preview) && EntriesOf(s, preview)[key].state == Ready && ReadyOf(s, preview) > 0
              then 1 else 0)
        && EntriesOf(t, !preview) == EntriesOf(s, !preview) && ReadyOf(t, !preview) == ReadyOf(s, !preview)
        && t.desk.textures == s.desk.textures && t == s.(desk := t.desk, jobs := t.jobs)
      else t == s
  {
  }

  /** A question is answered exactly when the entry for this stamp is ready. */
  lemma AnswerExactly(s: Service, preview: bool, key: string, stamp: Stamp)
    ensures Answer(s, preview, key, stamp) ==
      if s.project != "" && AskedBefore(s, preview, key, stamp) && EntriesOf(s, preview)[key].state == Ready
      then Some(EntriesOf(s, preview)[key]) else None
  {
  }

  /** Once a project is opened, no question is answered from before, and every one makes a request. */
  lemma OpenedAsksAnew(
    s: Service, project: string, made: Option<Thumbnail>, preview: bool, key: string, png: string, stamp: Stamp)
    requires project != ""
    ensures var t := Opened(s, project, made);
      && Answer(t, preview, key, stamp) == None && t.jobs == [] && t.done == []
      && Asked(t, preview, key, png, stamp).jobs == [Job(preview, key, png, stamp)]
  {
    RequestExactly(Opened(s, project, made), preview, key, png, stamp);
  }

  // A result.

  predicate For(d: Done, preview: bool, key: string, stamp: Stamp) {
    d.preview == preview && d.key == key && d.stamp == stamp
  }

  /** A result is taken exactly when its entry still has its stamp: then it is ready with the image, or failed. */
  lemma ResultTaken(s: Service, d: Done)
    ensures var t := s.(desk := Accepted(s.desk, d));
      if !AskedBefore(s, d.preview, d.key, d.stamp) then t == s
      else
        && EntriesOf(t, !d.preview) == EntriesOf(s, !d.preview)
        && match d.thumbnail
           case None =>
             && EntriesOf(t, d.preview)
                == EntriesOf(s, d.preview)[d.key := EntriesOf(s, d.preview)[d.key].(state := Failed)]
             && ReadyOf(t, d.preview) == ReadyOf(s, d.preview) && t.desk.textures == s.desk.textures
           case Some(image) =>
             var id := if d.preview then PreviewId(d.key, d.stamp) else ThumbnailId(image.guid, d.stamp);
             && EntriesOf(t, d.preview)
                == EntriesOf(s, d.preview)[d.key := Entry(d.stamp, Ready, id, image.image.width, image.image.height)]
             && ReadyOf(t, d.preview) == ReadyOf(s, d.preview) + 1
             && t.desk.textures == s.desk.textures[id := image.image]
  {
  }

  /** A result with an image whose entry still has its stamp. */
  predicate Welcome(s: Service, d: Done) {
    d.thumbnail.Some? && AskedBefore(s, d.preview, d.key, d.stamp)
  }

  /** `poll` has news exactly when some result with an image was still wanted. */
  lemma {:induction false} NewsExactly(s: Service, items: seq<Done>)
    ensures News(s.desk, items) <==> exists i | 0 <= i < |items| :: Welcome(s, items[i])
    decreases |items|
  {
    if items != [] {
      var t, more := s.(desk := Accepted(s.desk, items[0])), items[1..];
      forall d: Done
        ensures Welcome(t, d) == Welcome(s, d)
      {
      }
      NewsExactly(t, more);
      assert forall i | 1 <= i < |items| :: items[i] == more[i - 1];
      assert forall i | 0 <= i < |more| :: more[i] == items[i + 1];
    }
  }

  // The way of a request.

  /** The entry shows the image `t`. */
  predicate Shown(desk: Desk, preview: bool, key: string, stamp: Stamp, t: Thumbnail) {
    var entries := if preview then desk.previews.entries else desk.thumbnails.entries;
    var id := if preview then PreviewId(key, stamp) else ThumbnailId(t.guid, stamp);
    && key in entries && entries[key] == Entry(stamp, Ready, id, t.image.width, t.image.height)
    && (preview ==> id in desk.textures && desk.textures[id] == t.image)
  }

  /** From some result on, all of those for the entry bring `t`. */
  ghost predicate Brings(items: seq<Done>, preview: bool, key: string, stamp: Stamp, t: Thumbnail) {
    exists i | 0 <= i < |items| :: For(items[i], preview, key, stamp) && Bring(items[i..], preview, key, stamp, t)
  }

  predicate Bring(items: seq<Done>, preview: bool, key: string, stamp: Stamp, t: Thumbnail) {
    forall k | 0 <= k < |items| && For(items[k], preview, key, stamp) :: items[k].thumbnail == Some(t)
  }

  lemma {:induction false} ShownStays(
    desk: Desk, items: seq<Done>, preview: bool, key: string, stamp: Stamp, t: Thumbnail)
    requires Shown(desk, preview, key, stamp, t) && Bring(items, preview, key, stamp, t)
    ensures Shown(AcceptedAll(desk, items), preview, key, stamp, t)
    decreases |items|
  {
    if items != [] {
      assert forall k | 0 <= k < |items[1..]| :: items[1..][k] == items[k + 1];
      OneStays(desk, items[0], preview, key, stamp, t);
      ShownStays(Accepted(desk, items[0]), items[1..], preview, key, stamp, t);
    }
  }

  lemma OneStays(desk: Desk, d: Done, preview: bool, key: string, stamp: Stamp, t: Thumbnail)
    requires Shown(desk, preview, key, stamp, t) && (For(d, preview, key, stamp) ==> d.thumbnail == Some(t))
    ensures Shown(Accepted(desk, d), preview, key, stamp, t)
  {
  }

  lemma OneShown(desk: Desk, d: Done, preview: bool, key: string, stamp: Stamp, t: Thumbnail)
    requires Known(desk, Ask(preview, key, stamp))
    ensures Known(Accepted(desk, d), Ask(preview, key, stamp))
    ensures For(d, preview, key, stamp) && d.thumbnail == Some(t) ==> Shown(Accepted(desk, d), preview, key, stamp, t)
  {
  }

  lemma {:induction false} Brought(
    desk: Desk, items: seq<Done>, preview: bool, key: string, stamp: Stamp, t: Thumbnail)
    requires Known(desk, Ask(preview, key, stamp)) && Brings(items, preview, key, stamp, t)
    ensures Shown(AcceptedAll(desk, items), preview, key, stamp, t)
    decreases |items|
  {
    hide Known, Accepted, Shown;
    var i :| 0 <= i < |items| && For(items[i], preview, key, stamp) && Bring(items[i..], preview, key, stamp, t);
    OneShown(desk, items[0], preview, key, stamp, t);
    if i == 0 {
      assert items[0..][0] == items[0];
      assert forall k | 0 <= k < |items[1..]| :: items[1..][k] == items[0..][k + 1];
      ShownStays(Accepted(desk, items[0]), items[1..], preview, key, stamp, t);
    } else {
      assert items[1..][i - 1] == items[i] && items[1..][i - 1..] == items[i..];
      Brought(Accepted(desk, items[0]), items[1..], preview, key, stamp, t);
    }
  }

  predicate JobFor(j: Job, preview: bool, key: string, stamp: Stamp) {
    j.preview == preview && j.key == key && j.stamp == stamp
  }

  /** A job for the entry waits or is in the worker's hands, or its result is there. */
  ghost predicate OnWay(s: Service, preview: bool, key: string, stamp: Stamp, t: Thumbnail) {
    (exists j | j in s.jobs :: JobFor(j, preview, key, stamp))
    || (s.hand.Some? && JobFor(s.hand.value, preview, key, stamp))
    || Brings(s.done, preview, key, stamp, t)
  }

  lemma ResultAppended(items: seq<Done>, d: Done, preview: bool, key: string, stamp: Stamp, t: Thumbnail)
    requires For(d, preview, key, stamp) ==> d.thumbnail == Some(t)
    requires For(d, preview, key, stamp) || Brings(items, preview, key, stamp, t)
    ensures Brings(items + [d], preview, key, stamp, t)
  {
    var all := items + [d];
    if For(d, preview, key, stamp) {
      assert all[|items|] == d && all[|items|..] == [d];
    } else {
      var i :| 0 <= i < |items| && For(items[i], preview, key, stamp) && Bring(items[i..], preview, key, stamp, t);
      assert all[i] == items[i] && all[i..] == items[i..] + [d];
    }
  }

  lemma {:induction false} WorkedOff(
    s: Service, make: Job -> Option<Thumbnail>, preview: bool, key: string, stamp: Stamp, t: Thumbnail)
    requires Flags(s) && OnWay(s, preview, key, stamp, t)
    requires forall j | JobFor(j, preview, key, stamp) :: make(j) == Some(t)
    ensures Brings(Settled(s, make).done, preview, key, stamp, t)
    decreases 2 * |s.jobs| + if s.hand.Some? then 1 else 0
  {
    hide Brings;
    if s.hand.Some? {
      var j := s.hand.value;
      var d := Done(j.preview, j.key, j.stamp, make(j));
      if For(d, preview, key, stamp) || Brings(s.done, preview, key, stamp, t) {
        ResultAppended(s.done, d, preview, key, stamp, t);
      }
      WorkedOff(Finished(s, make(j)), make, preview, key, stamp, t);
    } else if s.jobs != [] {
      var next := Taken(s);
      assert s.jobs == next.jobs + [next.hand.value];
      WorkedOff(next, make, preview, key, stamp, t);
    }
  }

  /** A request that is made is answered: when the worker has worked off what waits, and brings the image `t` for this
      key and stamp, the next poll makes the answer to the same question that image. */
  lemma RequestAnswered(s: Service, preview: bool, key: string, png: string, stamp: Stamp,
                        make: Job -> Option<Thumbnail>, t: Thumbnail)
    requires Inv(s) && s.finished == []
    requires s.project != "" && !AskedBefore(s, preview, key, stamp)
    requires ReadyOf(s, preview) < if preview then 128 else 1024
    requires forall j | JobFor(j, preview, key, stamp) :: make(j) == Some(t)
    ensures Inv(Asked(s, preview, key, png, stamp))
    ensures var now := Polled(Settled(Asked(s, preview, key, png, stamp), make));
      var id := if preview then PreviewId(key, stamp) else ThumbnailId(t.guid, stamp);
      && Answer(now, preview, key, stamp) == Some(Entry(stamp, Ready, id, t.image.width, t.image.height))
      && (preview ==> id in now.desk.textures && now.desk.textures[id] == t.image)
  {
    hide NothingLost, Counted, ReadyShown, AllMadeHere, Brings, AcceptedAll;
    var asked := Asked(s, preview, key, png, stamp);
    RequestExactly(s, preview, key, png, stamp);
    AskKeeps(s, preview, key, png, stamp);
    var job := Job(preview, key, png, stamp);
    assert job in asked.jobs && JobFor(job, preview, key, stamp);
    WorkedOff(asked, make, preview, key, stamp, t);
    SettledKeeps(asked, make);
    SettledProject(asked, make);
    Brought(asked.desk, Settled(asked, make).done, preview, key, stamp, t);
  }

  lemma {:induction false} SettledProject(s: Service, make: Job -> Option<Thumbnail>)
    requires Flags(s)
    ensures Settled(s, make).project == s.project
    decreases 2 * |s.jobs| + if s.hand.Some? then 1 else 0
  {
    if s.hand.Some? {
      SettledProject(Finished(s, make(s.hand.value)), make);
    } else if s.jobs != [] {
      SettledProject(Taken(s), make);
    }
  }
}
