/** The thumbnail service: an editor thread that asks and one worker that makes, meeting in regions under one lock. Each
    locked region is one step here; what a build of an image yields is up to the disk. */
module Thumbnails {
  import opened Basics

  const MAX_THUMBNAILS: nat := 1024
  const MAX_PREVIEWS: nat := 128

  datatype Stamp = Stamp(size: nat, modified: int)
  datatype Image = Image(width: int, height: int, pixels: seq<bv8>)
  datatype Thumbnail = Thumbnail(guid: string, image: Image)

  /** The ids the user interface draws images by; the digests behind them are taken to be distinct. */
  datatype UiId = NoId | ThumbnailId(guid: string, stamp: Stamp) | PreviewId(key: string, stamp: Stamp)

  datatype State = Pending | Ready | Failed
  datatype Entry = Entry(stamp: Stamp, state: State, uiId: UiId, width: int, height: int)
  datatype Job = Job(preview: bool, key: string, png: string, stamp: Stamp)
  datatype Done = Done(preview: bool, key: string, stamp: Stamp, thumbnail: Option<Thumbnail>)

  /** The entries of one kind, and how many the service counts as ready. */
  datatype Shelf = Shelf(entries: map<string, Entry>, ready: nat)

  /** One image the worker made: in which session and project, and for what. */
  datatype Build = Build(session: nat, project: string, preview: bool, key: string, stamp: Stamp, thumbnail: Thumbnail)

  /** What was asked for. */
  datatype Ask = Ask(preview: bool, key: string, stamp: Stamp)

  /** What only the editor thread touches: both shelves and the textures `poll` registered. */
  datatype Desk = Desk(thumbnails: Shelf, previews: Shelf, textures: map<UiId, Image>)

  datatype Service = Service(
    project: string, desk: Desk, finished: seq<Done>,
    jobs: seq<Job>, done: seq<Done>, hand: Option<Job>, busy: bool, stopping: bool, alive: bool, worker: string,
    session: nat, built: set<Build>)

  const EMPTY := Shelf(map[], 0)

  function Begin(): Service {
    Service("", Desk(EMPTY, EMPTY, map[]), [], [], [], None, false, false, false, "", 0, {})
  }

  function ShelfOf(desk: Desk, preview: bool): Shelf {
    if preview then desk.previews else desk.thumbnails
  }

  function WithShelf(desk: Desk, preview: bool, shelf: Shelf): Desk {
    if preview then desk.(previews := shelf) else desk.(thumbnails := shelf)
  }

  function NewEntry(stamp: Stamp): Entry {
    Entry(stamp, Pending, NoId, 0, 0)
  }

  function ImageId(preview: bool, key: string, stamp: Stamp, t: Thumbnail): UiId {
    if preview then PreviewId(key, stamp) else ThumbnailId(t.guid, stamp)
  }

  // The steps.

  /** A shelf with an entry for a new request. */
  function Shelved(shelf: Shelf, key: string, stamp: Stamp): Shelf {
    Shelf(
      shelf.entries[key := NewEntry(stamp)],
      if key in shelf.entries && shelf.entries[key].state == Ready && shelf.ready > 0 then shelf.ready - 1
      else shelf.ready)
  }

  function Requested(s: Service, preview: bool, key: string, png: string, stamp: Stamp): Service {
    s.(desk := WithShelf(s.desk, preview, Shelved(ShelfOf(s.desk, preview), key, stamp)),
       jobs := s.jobs + [Job(preview, key, png, stamp)])
  }

  function Limit(preview: bool): nat {
    if preview then MAX_PREVIEWS else MAX_THUMBNAILS
  }

  predicate Known(desk: Desk, ask: Ask) {
    var entries := ShelfOf(desk, ask.preview).entries;
    ask.key in entries && entries[ask.key].stamp == ask.stamp
  }

  function Asked(s: Service, preview: bool, key: string, png: string, stamp: Stamp): Service {
    if s.project == "" || Known(s.desk, Ask(preview, key, stamp)) || ShelfOf(s.desk, preview).ready >= Limit(preview)
    then s
    else Requested(s, preview, key, png, stamp)
  }

  /** The entry an ask is answered from: there, for that stamp, and ready. */
  function Answer(s: Service, preview: bool, key: string, stamp: Stamp): Option<Entry> {
    if s.project == "" || !Known(s.desk, Ask(preview, key, stamp)) then None
    else
      var e := ShelfOf(s.desk, preview).entries[key];
      if e.state == Ready then Some(e) else None
  }

  function Taken(s: Service): Service {
    if !s.alive || s.stopping || s.hand.Some? || s.jobs == [] then s
    else s.(hand := Some(s.jobs[|s.jobs| - 1]), jobs := s.jobs[..|s.jobs| - 1], busy := true)
  }

  function Finished(s: Service, made: Option<Thumbnail>): Service {
    if s.hand == None then s
    else
      var job := s.hand.value;
      s.(done := s.done + [Done(job.preview, job.key, job.stamp, made)], hand := None, busy := false,
         built := if made == None then s.built
                  else s.built + {Build(s.session, s.worker, job.preview, job.key, job.stamp, made.value)})
  }

  /** The worker ends what it has in hand, and its thread is over. */
  function Stopped(s: Service, made: Option<Thumbnail>): Service {
    if s.alive then Finished(s, made).(stopping := true, alive := false) else s
  }

  function Cleared(s: Service): Service {
    s.(jobs := [], done := [], busy := false, desk := Desk(EMPTY, EMPTY, s.desk.textures))
  }

  function Opened(s: Service, project: string, made: Option<Thumbnail>): Service {
    Cleared(Stopped(s, made)).(project := project, stopping := false, alive := true, worker := project,
      session := s.session + 1)
  }

  function Closed(s: Service, made: Option<Thumbnail>): Service {
    Cleared(Stopped(s, made)).(project := "")
  }

  /** `poll` takes all results at once, under the lock. */
  function Swapped(s: Service): Service {
    s.(finished := s.done, done := [])
  }

  predicate Wanted(desk: Desk, item: Done) {
    Known(desk, Ask(item.preview, item.key, item.stamp))
  }

  /** `poll` looks at one result. */
  function Accepted(desk: Desk, item: Done): Desk {
    if !Wanted(desk, item) then desk
    else
      var shelf := ShelfOf(desk, item.preview);
      var e := shelf.entries[item.key];
      if item.thumbnail == None then
        WithShelf(desk, item.preview, shelf.(entries := shelf.entries[item.key := e.(state := Failed)]))
      else
        var t := item.thumbnail.value;
        var id := ImageId(item.preview, item.key, item.stamp, t);
        var shown := Entry(e.stamp, Ready, id, t.image.width, t.image.height);
        WithShelf(desk.(textures := desk.textures[id := t.image]), item.preview,
          Shelf(shelf.entries[item.key := shown], shelf.ready + 1))
  }

  function AcceptedNext(s: Service): Service {
    if s.finished == [] then s else s.(desk := Accepted(s.desk, s.finished[0]), finished := s.finished[1..])
  }

  function AcceptedAll(desk: Desk, items: seq<Done>): Desk
    decreases |items|
  {
    if items == [] then desk else AcceptedAll(Accepted(desk, items[0]), items[1..])
  }

  function Polled(s: Service): Service {
    s.(desk := AcceptedAll(s.desk, s.done), done := [])
  }

  predicate IsNews(desk: Desk, item: Done) {
    Wanted(desk, item) && item.thumbnail.Some?
  }

  predicate News(desk: Desk, items: seq<Done>)
    decreases |items|
  {
    items != [] && (IsNews(desk, items[0]) || News(Accepted(desk, items[0]), items[1..]))
  }

  function PendingCount(s: Service): nat {
    |s.jobs| + if s.busy then 1 else 0
  }

  datatype Event =
    | Open(project: string, made: Option<Thumbnail>)
    | Close(made: Option<Thumbnail>)
    | Find(preview: bool, key: string, png: string, stamp: Stamp)
    | Swap
    | Accept
    | Take
    | Finish(made: Option<Thumbnail>)

  /** One step of either thread. While `poll` goes through what it took, the editor thread does nothing else. */
  function Step(s: Service, e: Event): Service {
    match e
    case Open(project, made) => if s.finished == [] then Opened(s, project, made) else s
    case Close(made) => if s.finished == [] then Closed(s, made) else s
    case Find(preview, key, png, stamp) => if s.finished == [] then Asked(s, preview, key, png, stamp) else s
    case Swap => if s.finished == [] then Swapped(s) else s
    case Accept => AcceptedNext(s)
    case Take => Taken(s)
    case Finish(made) => Finished(s, made)
  }

  function Run(s: Service, events: seq<Event>): Service
    decreases |events|
  {
    if events == [] then s else Run(Step(s, events[0]), events[1..])
  }

  // The service as the editor holds it.

  class ThumbnailService {
    var project: string
    var entries: map<string, Entry>
    var ready: nat
    var previews: map<string, Entry>
    var previewsReady: nat
    var jobs: seq<Job>
    var done: seq<Done>
    var busy: bool
    var stopping: bool
    var alive: bool
    var hand: Option<Job>
    var worker: string
    /** What `poll` has registered with the assets. */
    var textures: map<UiId, Image>
    ghost var session: nat
    ghost var built: set<Build>

    ghost function View(): Service
      reads this
    {
      Service(project, Shelves(), [], jobs, done, hand, busy, stopping, alive, worker, session, built)
    }

    ghost function Shelves(): Desk
      reads this
    {
      Desk(Shelf(entries, ready), Shelf(previews, previewsReady), textures)
    }

    constructor ()
      ensures View() == Begin()
    {
      project, entries, ready, previews, previewsReady := "", map[], 0, map[], 0;
      jobs, done, busy, stopping, alive, hand, worker, textures := [], [], false, false, false, None, "", map[];
      session, built := 0, {};
    }

    method StopWorker(made: Option<Thumbnail>)
      modifies this
      ensures View() == Stopped(old(View()), made)
    {
      if alive {
        stopping := true;
        WorkerFinish(made);
        alive := false;
      }
    }

    method Reset()
      modifies this
      ensures View() == Cleared(old(View()))
    {
      jobs, done, busy := [], [], false;
      entries, ready, previews, previewsReady := map[], 0, map[], 0;
    }

    /** `made` is what becomes of the image in the worker's hands, if there is one. */
    method Open(newProject: string, made: Option<Thumbnail>)
      modifies this
      ensures View() == Opened(old(View()), newProject, made)
    {
      StopWorker(made);
      Reset();
      project := newProject;
      stopping := false;
      alive, worker := true, newProject;
      session := session + 1;
    }

    method Close(made: Option<Thumbnail>)
      modifies this
      ensures View() == Closed(old(View()), made)
    {
      StopWorker(made);
      Reset();
      project := "";
    }

    method Request(preview: bool, key: string, png: string, stamp: Stamp)
      modifies this
      ensures View() == Requested(old(View()), preview, key, png, stamp)
    {
      if preview {
        if key in previews && previews[key].state == Ready && previewsReady > 0 {
          previewsReady := previewsReady - 1;
        }
        previews := previews[key := NewEntry(stamp)];
      } else {
        if key in entries && entries[key].state == Ready && ready > 0 {
          ready := ready - 1;
        }
        entries := entries[key := NewEntry(stamp)];
      }
      jobs := jobs + [Job(preview, key, png, stamp)];
    }

    method FindOrRequest(key: string, png: string, stamp: Stamp) returns (id: Option<UiId>)
      modifies this
      ensures View() == Asked(old(View()), false, key, png, stamp)
      ensures var e := Answer(old(View()), false, key, stamp);
        id == if e == None then None else Some(e.value.uiId)
    {
      if project == "" {
        return None;
      }
      if key in entries && entries[key].stamp == stamp {
        return if entries[key].state == Ready then Some(entries[key].uiId) else None;
      }
      if ready < MAX_THUMBNAILS {
        Request(false, key, png, stamp);
      }
      id := None;
    }

    method FindOrRequestPreview(key: string, png: string, stamp: Stamp) returns (image: Option<(UiId, int, int)>)
      modifies this
      ensures View() == Asked(old(View()), true, key, png, stamp)
      ensures var e := Answer(old(View()), true, key, stamp);
        image == if e == None then None else Some((e.value.uiId, e.value.width, e.value.height))
    {
      if project == "" {
        return None;
      }
      if key in previews && previews[key].stamp == stamp {
        var e := previews[key];
        return if e.state == Ready then Some((e.uiId, e.width, e.height)) else None;
      }
      if previewsReady < MAX_PREVIEWS {
        Request(true, key, png, stamp);
      }
      image := None;
    }

    method AcceptOne(item: Done) returns (news: bool)
      modifies `entries, `ready, `previews, `previewsReady, `textures
      ensures Shelves() == Accepted(old(Shelves()), item)
      ensures news == IsNews(old(Shelves()), item)
    {
      var shelf := if item.preview then previews else entries;
      if item.key !in shelf || shelf[item.key].stamp != item.stamp {
        return false;
      }
      var e := shelf[item.key];
      if item.thumbnail == None {
        shelf := shelf[item.key := e.(state := Failed)];
        if item.preview { previews := shelf; } else { entries := shelf; }
        return false;
      }
      var t := item.thumbnail.value;
      var id := if item.preview then PreviewId(item.key, item.stamp) else ThumbnailId(t.guid, item.stamp);
      textures := textures[id := t.image];
      shelf := shelf[item.key := Entry(e.stamp, Ready, id, t.image.width, t.image.height)];
      if item.preview {
        previews, previewsReady := shelf, previewsReady + 1;
      } else {
        entries, ready := shelf, ready + 1;
      }
      news := true;
    }

    method Poll() returns (news: bool)
      modifies this
      ensures View() == Polled(old(View()))
      ensures news == News(old(Shelves()), old(done))
    {
      var finished := done;
      done := [];
      news := AcceptEach(finished);
    }

    method AcceptEach(finished: seq<Done>) returns (news: bool)
      modifies `entries, `ready, `previews, `previewsReady, `textures
      ensures Shelves() == AcceptedAll(old(Shelves()), finished)
      ensures news == News(old(Shelves()), finished)
    {
      news := false;
      var i := 0;
      assert finished[0..] == finished;
      while i < |finished|
        invariant i <= |finished|
        invariant AcceptedAll(Shelves(), finished[i..]) == AcceptedAll(old(Shelves()), finished)
        invariant (news || News(Shelves(), finished[i..])) == News(old(Shelves()), finished)
      {
        assert finished[i..][1..] == finished[i + 1..];
        var one := AcceptOne(finished[i]);
        news := news || one;
        i := i + 1;
      }
    }

    method Pending() returns (n: nat)
      ensures n == PendingCount(View())
    {
      n := |jobs| + if busy then 1 else 0;
    }

    method WorkerTake()
      modifies this
      ensures View() == Taken(old(View()))
    {
      if alive && !stopping && hand == None && jobs != [] {
        hand := Some(jobs[|jobs| - 1]);
        jobs := jobs[..|jobs| - 1];
        busy := true;
      }
    }

    method WorkerFinish(made: Option<Thumbnail>)
      modifies this
      ensures View() == Finished(old(View()), made)
    {
      if hand.Some? {
        var job := hand.value;
        done := done + [Done(job.preview, job.key, job.stamp, made)];
        hand, busy := None, false;
        if made.Some? {
          built := built + {Build(session, worker, job.preview, job.key, job.stamp, made.value)};
        }
      }
    }
  }
}
