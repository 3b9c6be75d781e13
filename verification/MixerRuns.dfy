/** What every run of the audio system keeps: which music slot plays, where every gain stands, and that a fade depends
    only on how much time has passed. */
module MixerRuns {
  import opened Mixer

  // One track.

  predicate Unit(x: real) {
    0.0 <= x <= 1.0
  }

  /** A fade in progress has time left, and every gain lies between silence and full. */
  predicate Sane(t: Track) {
    Unit(t.gain)
    && (t.fading ==> 0.0 <= t.elapsed < t.duration && Unit(t.fadeFrom) && Unit(t.fadeTo))
  }

  /** A playing track stands at its final gain, or fades there, or fades out. */
  predicate InTune(t: Track, target: real) {
    t.playing ==> if t.fading then t.stopAfter || t.fadeTo == target else t.gain == target
  }

  predicate Good(t: Track, target: real) {
    Sane(t) && InTune(t, target)
  }

  lemma ShareWithin(span: real, part: real)
    requires Unit(part)
    ensures 0.0 <= span ==> 0.0 <= Share(span, part) <= span
    ensures span <= 0.0 ==> span <= Share(span, part) <= 0.0
  {
  }

  lemma PartOf(elapsed: real, duration: real)
    requires 0.0 <= elapsed < duration
    ensures Unit(elapsed / duration)
  {
  }

  lemma TickGood(t: Track, dt: real, target: real)
    requires Good(t, target) && 0.0 <= dt
    ensures Good(Ticked(t, dt), target)
  {
    if t.fading && t.elapsed + dt < t.duration {
      PartOf(t.elapsed + dt, t.duration);
      ShareWithin(t.fadeTo - t.fadeFrom, (t.elapsed + dt) / t.duration);
    }
  }

  /** Two tracks that sound and go on alike: only the clock of a fade that is over may differ. */
  predicate Alike(t: Track, u: Track) {
    t.(elapsed := 0.0) == u.(elapsed := 0.0) && (t.fading ==> t.elapsed == u.elapsed)
  }

  lemma TickedTwice(t: Track, a: real, b: real)
    requires Sane(t) && 0.0 <= a && 0.0 <= b
    ensures Alike(Ticked(Ticked(t, a), b), Ticked(t, a + b))
  {
    if t.fading {
      var x := t.elapsed + a;
      var y := x + b;
      assert y == t.elapsed + (a + b);
      if x < t.duration {
        FadedAgain(t, x, y);
      } else {
        FadedOver(t, x, y);
      }
    }
  }

  lemma FadedAgain(t: Track, x: real, y: real)
    requires t.fading && 0.0 < t.duration && x < t.duration
    ensures FadedTo(t, x).fading && FadedTo(t, x).elapsed == x && FadedTo(FadedTo(t, x), y) == FadedTo(t, y)
  {
  }

  lemma FadedOver(t: Track, x: real, y: real)
    requires t.duration <= x <= y
    ensures !FadedTo(t, x).fading && Alike(FadedTo(t, x), FadedTo(t, y))
  {
  }

  /** A track that stops after its fade plays until the fade's time is up, and not longer. */
  lemma FadesOut(t: Track, fade: real, dt: real)
    requires 0.0 <= dt
    ensures Ticked(FadeStarted(t, 0.0, fade, true), dt).playing <==> t.playing && dt < fade
  {
  }

  lemma FadesIn(t: Track, target: real, fade: real, dt: real)
    requires t.playing && 0.0 < fade <= dt
    ensures var u := Ticked(FadeStarted(t, target, fade, false), dt); u.playing && !u.fading && u.gain == target
  {
  }

  // The invariant.

  function Left(t: Track): real {
    t.duration - t.elapsed
  }

  /** If any music plays, the active slot does; the other slot plays only while it fades out, and is silent no later
      than an active slot that fades out too. */
  predicate TurnsKept(on: Track, off: Track) {
    off.playing ==>
      on.playing && off.fading && off.stopAfter && (on.fading && on.stopAfter ==> Left(off) <= Left(on))
  }

  predicate MusicKept(a: Audio)
    requires Shaped(a)
  {
    TurnsKept(a.music[a.active], a.music[1 - a.active])
  }

  ghost predicate AllGood(a: Audio) {
    (forall i | 0 <= i < |a.music| :: Good(a.music[i], MusicGain(a, a.music[i].voice)))
    && (forall i | 0 <= i < |a.sfx| :: Good(a.sfx[i], SfxGain(a, a.sfx[i].voice)) && !a.sfx[i].fading)
    && (forall id | id in a.looping :: Good(a.looping[id], SfxGain(a, a.looping[id].voice)))
  }

  ghost predicate Inv(a: Audio) {
    Shaped(a) && MusicKept(a) && AllGood(a)
  }

  lemma TickTurns(on: Track, off: Track, dt: real)
    requires TurnsKept(on, off) && Sane(on) && Sane(off) && 0.0 <= dt
    ensures TurnsKept(Ticked(on, dt), Ticked(off, dt))
  {
  }

  lemma UpdateKeeps(a: Audio, dt: real)
    requires Inv(a)
    ensures Inv(Updated(a, dt))
  {
    var d, next := NotNegative(dt), Updated(a, dt);
    forall i | 0 <= i < |a.music| ensures Good(next.music[i], MusicGain(next, next.music[i].voice)) {
      TickGood(a.music[i], d, MusicGain(a, a.music[i].voice));
    }
    forall i | 0 <= i < |a.sfx| ensures Good(next.sfx[i], SfxGain(next, next.sfx[i].voice)) {
      TickGood(a.sfx[i], d, SfxGain(a, a.sfx[i].voice));
    }
    forall id | id in next.looping ensures Good(next.looping[id], SfxGain(next, next.looping[id].voice)) {
      TickGood(a.looping[id], d, SfxGain(a, a.looping[id].voice));
    }
    TickTurns(a.music[a.active], a.music[1 - a.active], d);
  }

  lemma PlaySfxKeeps(a: Audio, sound: Sound, scale: real)
    requires Inv(a)
    ensures Inv(SfxPlayed(a, sound, scale))
  {
  }

  lemma ActivePlays(a: Audio)
    requires Shaped(a) && MusicKept(a) && AnyMusic(a.music)
    ensures a.music[a.active].playing
  {
    var i :| 0 <= i < |a.music| && a.music[i].playing;
    assert i == a.active || i == 1 - a.active;
  }

  lemma PlayMusicKeeps(a: Audio, sound: Sound, loop: bool, fade: real)
    requires Inv(a)
    ensures Inv(MusicPlayed(a, sound, loop, fade))
  {
    if AnyMusic(a.music) {
      ActivePlays(a);
    }
  }

  lemma StopMusicKeeps(a: Audio, fade: real)
    requires Inv(a)
    ensures Inv(MusicStopped(a, fade))
  {
    var next := MusicStopped(a, fade);
    forall i | 0 <= i < |next.music| ensures Good(next.music[i], MusicGain(next, next.music[i].voice)) {
      assert Good(a.music[i], MusicGain(a, a.music[i].voice));
    }
  }

  /** A new track for one handle, or none. */
  lemma LoopingKeeps(a: Audio, b: Audio, id: nat)
    requires Inv(a) && Shaped(b) && b == a.(looping := b.looping, nextId := b.nextId)
    requires forall k | k in b.looping && k != id :: k in a.looping && b.looping[k] == a.looping[k]
    requires id in b.looping ==> Good(b.looping[id], SfxGain(a, b.looping[id].voice))
    ensures Inv(b)
  {
    forall k | k in b.looping ensures Good(b.looping[k], SfxGain(b, b.looping[k].voice)) {
    }
  }

  lemma CreateKeeps(a: Audio)
    requires Inv(a)
    ensures Inv(LoopingCreated(a))
  {
    LoopingKeeps(a, LoopingCreated(a), a.nextId);
  }

  lemma PlayLoopingKeeps(a: Audio, id: nat, sound: Sound, fade: real)
    requires Inv(a)
    ensures Inv(LoopingPlayed(a, id, sound, fade))
  {
    if id in a.looping {
      LoopingKeeps(a, LoopingPlayed(a, id, sound, fade), id);
    }
  }

  lemma FadeOutGood(t: Track, fade: real, target: real)
    requires Good(t, target)
    ensures Good(FadeStarted(t, 0.0, fade, true), target)
  {
  }

  lemma StopLoopingKeeps(a: Audio, id: nat, fade: real)
    requires Inv(a)
    ensures Inv(LoopingStopped(a, id, fade))
  {
    if id in a.looping {
      FadeOutGood(a.looping[id], fade, SfxGain(a, a.looping[id].voice));
      LoopingKeeps(a, LoopingStopped(a, id, fade), id);
    }
  }

  lemma ReleaseKeeps(a: Audio, id: nat, fade: real)
    requires Inv(a)
    ensures Inv(LoopingReleased(a, id, fade))
  {
    if id in a.looping {
      FadeOutGood(a.looping[id].(releaseAfter := true), fade, SfxGain(a, a.looping[id].voice));
      LoopingKeeps(a, LoopingReleased(a, id, fade), id);
    }
  }

  lemma MusicRetunedKeeps(a: Audio, b: Audio)
    requires Inv(a) && b.music == a.music && b.active == a.active && Shaped(b)
    requires b.sfx == a.sfx && b.looping == a.looping
    ensures MusicKept(MusicRetuned(b))
    ensures forall i | 0 <= i < |b.music| ::
      Good(MusicRetuned(b).music[i], MusicGain(b, MusicRetuned(b).music[i].voice))
  {
    forall i | 0 <= i < |b.music| ensures Good(MusicRetuned(b).music[i], MusicGain(b, b.music[i].voice)) {
      assert Good(a.music[i], MusicGain(a, a.music[i].voice));
    }
  }

  lemma SfxRetunedKeeps(a: Audio, b: Audio)
    requires Inv(a) && b.sfx == a.sfx && b.looping == a.looping && Shaped(b)
    ensures forall i | 0 <= i < |b.sfx| ::
      Good(SfxRetuned(b).sfx[i], SfxGain(b, SfxRetuned(b).sfx[i].voice)) && !SfxRetuned(b).sfx[i].fading
    ensures forall id | id in b.looping :: Good(SfxRetuned(b).looping[id], SfxGain(b, SfxRetuned(b).looping[id].voice))
  {
    forall i | 0 <= i < |b.sfx| ensures Good(SfxRetuned(b).sfx[i], SfxGain(b, b.sfx[i].voice)) {
      assert Good(a.sfx[i], SfxGain(a, a.sfx[i].voice));
    }
    forall id | id in b.looping ensures Good(SfxRetuned(b).looping[id], SfxGain(b, b.looping[id].voice)) {
      assert Good(a.looping[id], SfxGain(a, a.looping[id].voice));
    }
  }

  lemma MasterKeeps(a: Audio, volume: real)
    requires Inv(a)
    ensures Inv(MasterSet(a, volume))
  {
    var b := a.(master := Clamp(volume));
    MusicRetunedKeeps(a, b);
    SfxRetunedKeeps(a, MusicRetuned(b));
  }

  lemma MusicVolumeKeeps(a: Audio, volume: real)
    requires Inv(a)
    ensures Inv(MusicSet(a, volume))
  {
    MusicRetunedKeeps(a, a.(musicBus := Clamp(volume)));
  }

  lemma SfxVolumeKeeps(a: Audio, volume: real)
    requires Inv(a)
    ensures Inv(SfxSet(a, volume))
  {
    SfxRetunedKeeps(a, a.(sfxBus := Clamp(volume)));
  }

  lemma StepKeeps(a: Audio, c: Call)
    requires Inv(a)
    ensures Inv(Step(a, c))
  {
    match c
    case Init =>
    case Update(dt) => UpdateKeeps(a, dt);
    case PlaySfx(sound, scale) => PlaySfxKeeps(a, sound, scale);
    case PlayMusic(sound, loop, fade) => PlayMusicKeeps(a, sound, loop, fade);
    case StopMusic(fade) => StopMusicKeeps(a, fade);
    case StopAll =>
    case SetMaster(volume) => MasterKeeps(a, volume);
    case SetMusic(volume) => MusicVolumeKeeps(a, volume);
    case SetSfx(volume) => SfxVolumeKeeps(a, volume);
    case CreateLooping => CreateKeeps(a);
    case PlayLooping(id, sound, fade) => PlayLoopingKeeps(a, id, sound, fade);
    case StopLooping(id, fade) => StopLoopingKeeps(a, id, fade);
    case ReleaseLooping(id, fade) => ReleaseKeeps(a, id, fade);
  }

  lemma {:induction false} RunKeeps(a: Audio, calls: seq<Call>)
    requires Inv(a)
    ensures Inv(Run(a, calls))
    decreases |calls|
  {
    if calls != [] {
      StepKeeps(a, calls[0]);
      RunKeeps(Step(a, calls[0]), calls[1..]);
    }
  }

  /** After any calls at all: music that plays includes the active slot, and a slot that is not active plays only while
      it fades out. */
  lemma MusicTakesTurns(calls: seq<Call>, slot: nat)
    requires slot < SLOTS && Run(Begin(), calls).music[slot].playing
    ensures var a := Run(Begin(), calls);
      a.music[a.active].playing && (slot != a.active ==> a.music[slot].fading && a.music[slot].stopAfter)
  {
    RunKeeps(Begin(), calls);
    Turn(Run(Begin(), calls), slot);
  }

  lemma Turn(a: Audio, slot: nat)
    requires Shaped(a) && MusicKept(a) && slot < SLOTS && a.music[slot].playing
    ensures a.music[a.active].playing && (slot != a.active ==> a.music[slot].fading && a.music[slot].stopAfter)
  {
    assert slot == a.active || slot == 1 - a.active;
  }

  /** After any calls at all, every playing track that is not fading stands exactly at the final gain of its bus and
      voice, every fade that does not stop its track aims there, and no gain leaves the range from 0 to 1. */
  lemma EveryGainIsInTune(calls: seq<Call>)
    ensures AllGood(Run(Begin(), calls))
  {
    RunKeeps(Begin(), calls);
  }

  // Only the time that passed counts.

  ghost predicate AlikeAll(s: seq<Track>, t: seq<Track>) {
    |s| == |t| && forall i | 0 <= i < |s| :: Alike(s[i], t[i])
  }

  ghost predicate AlikeLooping(m: map<nat, Track>, n: map<nat, Track>) {
    m.Keys == n.Keys && forall id | id in m :: Alike(m[id], n[id])
  }

  /** Everything but the tracks. */
  function Settings(a: Audio): Audio {
    a.(sfx := [], music := [], looping := map[])
  }

  ghost predicate AlikeAudio(a: Audio, b: Audio) {
    AlikeAll(a.sfx, b.sfx) && AlikeAll(a.music, b.music) && AlikeLooping(a.looping, b.looping)
    && Settings(a) == Settings(b)
  }

  lemma UpdatedIs(a: Audio, dt: real, d: real)
    requires d == NotNegative(dt)
    ensures var b := Updated(a, dt);
      b.sfx == TickedAll(a.sfx, d) && b.music == TickedAll(a.music, d) && b.looping == TickedLooping(a.looping, d)
      && Settings(b) == Settings(a)
  {
  }

  lemma AlikeThrough(a: Audio, b: Audio, c: Audio)
    requires AlikeAudio(a, b) && AlikeAudio(b, c)
    ensures AlikeAudio(a, c)
  {
    assert forall id | id in a.looping :: id in b.looping && Alike(a.looping[id], b.looping[id]);
    assert AlikeLooping(a.looping, c.looping);
  }

  function UpdatedBy(a: Audio, dts: seq<real>): Audio
    decreases |dts|
  {
    if dts == [] then a else UpdatedBy(Updated(a, dts[0]), dts[1..])
  }

  function Passed(dts: seq<real>): (r: real)
    ensures 0.0 <= r
    decreases |dts|
  {
    if dts == [] then 0.0 else NotNegative(dts[0]) + Passed(dts[1..])
  }

  lemma LoopingTickedTwice(m: map<nat, Track>, x: real, y: real)
    requires 0.0 <= x && 0.0 <= y && forall id | id in m :: Sane(m[id])
    ensures AlikeLooping(TickedLooping(TickedLooping(m, x), y), TickedLooping(m, x + y))
  {
    var twice, once := TickedLooping(TickedLooping(m, x), y), TickedLooping(m, x + y);
    forall id | id in m ensures (id in twice <==> id in once) && (id in twice ==> Alike(twice[id], once[id])) {
      TickedTwice(m[id], x, y);
    }
    assert forall id :: (id in twice ==> id in m) && (id in once ==> id in m);
    assert twice.Keys == once.Keys;
  }

  lemma TracksTickedTwice(tracks: seq<Track>, x: real, y: real)
    requires 0.0 <= x && 0.0 <= y && forall i | 0 <= i < |tracks| :: Sane(tracks[i])
    ensures AlikeAll(TickedAll(TickedAll(tracks, x), y), TickedAll(tracks, x + y))
  {
    forall i | 0 <= i < |tracks|
      ensures Alike(TickedAll(TickedAll(tracks, x), y)[i], TickedAll(tracks, x + y)[i])
    {
      TickedTwice(tracks[i], x, y);
    }
  }

  lemma UpdatedTwice(a: Audio, x: real, y: real)
    requires Inv(a) && 0.0 <= y
    ensures AlikeAudio(Updated(Updated(a, x), y), Updated(a, NotNegative(x) + y))
  {
    var d := NotNegative(x);
    UpdatedIs(a, x, d);
    UpdatedIs(Updated(a, x), y, y);
    UpdatedIs(a, d + y, d + y);
    TracksTickedTwice(a.sfx, d, y);
    TracksTickedTwice(a.music, d, y);
    LoopingTickedTwice(a.looping, d, y);
  }

  lemma AlikeItself(a: Audio)
    ensures AlikeAudio(a, a)
  {
  }

  lemma SameTime(a: Audio, x: real, y: real)
    requires NotNegative(x) == NotNegative(y)
    ensures Updated(a, x) == Updated(a, y)
  {
  }

  lemma OneMoreUpdate(a: Audio, first: real, rest: real, end: Audio)
    requires Inv(a) && 0.0 <= rest && AlikeAudio(end, Updated(Updated(a, first), rest))
    ensures AlikeAudio(end, Updated(a, NotNegative(first) + rest))
  {
    UpdatedTwice(a, first, rest);
    AlikeThrough(end, Updated(Updated(a, first), rest), Updated(a, NotNegative(first) + rest));
  }

  lemma PassedOne(dts: seq<real>)
    requires |dts| == 1
    ensures Passed(dts) == NotNegative(dts[0])
  {
    var rest := dts[1..];
    assert rest == [] && Passed(rest) == 0.0;
  }

  /** However a stretch of time is cut into updates, the mixer ends alike: same tracks, same gains, same fades. */
  lemma {:induction false} OnlyTimeCounts(a: Audio, dts: seq<real>)
    requires Inv(a) && dts != []
    ensures AlikeAudio(UpdatedBy(a, dts), Updated(a, Passed(dts)))
    decreases |dts|
  {
    var next, rest := Updated(a, dts[0]), dts[1..];
    if rest == [] {
      PassedOne(dts);
      SameTime(a, dts[0], Passed(dts));
      AlikeItself(next);
    } else {
      UpdateKeeps(a, dts[0]);
      OnlyTimeCounts(next, rest);
      OneMoreUpdate(a, dts[0], Passed(rest), UpdatedBy(next, rest));
    }
  }

  /** `stop_music` with a fade: music plays until that much time has passed, and no longer. */
  lemma MusicStopsInTime(a: Audio, fade: real, dts: seq<real>)
    requires Inv(a)
    ensures AnyMusic(UpdatedBy(MusicStopped(a, fade), dts).music) <==> AnyMusic(a.music) && Passed(dts) < fade
  {
    var b := MusicStopped(a, fade);
    StopMusicKeeps(a, fade);
    var end := if dts == [] then b else Updated(b, Passed(dts));
    if dts != [] {
      OnlyTimeCounts(b, dts);
    }
    forall i | 0 <= i < SLOTS
      ensures UpdatedBy(b, dts).music[i].playing <==> a.music[i].playing && Passed(dts) < fade
    {
      FadesOut(a.music[i], fade, Passed(dts));
      assert end.music[i].playing == UpdatedBy(b, dts).music[i].playing;
    }
  }

  /** `release_looping_sfx` with a fade: the handle has its track until that much time has passed, and no longer. */
  lemma HandleReleasedInTime(a: Audio, id: nat, fade: real, dts: seq<real>)
    requires Inv(a)
    ensures id in UpdatedBy(LoopingReleased(a, id, fade), dts).looping <==> id in a.looping && Passed(dts) < fade
  {
    var b := LoopingReleased(a, id, fade);
    ReleaseKeeps(a, id, fade);
    if dts != [] {
      OnlyTimeCounts(b, dts);
      assert id in UpdatedBy(b, dts).looping <==> id in Updated(b, Passed(dts)).looping;
      if id in b.looping {
        FadesOut(a.looping[id].(releaseAfter := true), fade, Passed(dts));
      }
    }
  }

  /** A crossfade ends with the new music alone, at its final gain. */
  lemma CrossfadeEnds(a: Audio, sound: Sound, loop: bool, fade: real, dts: seq<real>)
    requires Inv(a) && AnyMusic(a.music) && 0.0 < fade <= Passed(dts)
    ensures var b := UpdatedBy(MusicPlayed(a, sound, loop, fade), dts);
      |b.music| == SLOTS && b.active == 1 - a.active < SLOTS && !b.music[a.active].playing
      && b.music[b.active].playing && !b.music[b.active].fading && b.music[b.active].gain == MusicGain(a, sound.volume)
  {
    var b := MusicPlayed(a, sound, loop, fade);
    var first := Started(a.music[1 - a.active], 0.0, sound.pitch, loop, sound.volume);
    PlayMusicKeeps(a, sound, loop, fade);
    OnlyTimeCounts(b, dts);
    FadesIn(first, MusicGain(a, sound.volume), fade, Passed(dts));
    FadesOut(a.music[a.active], fade, Passed(dts));
    var end := Updated(b, Passed(dts));
    assert end.music[a.active] == Ticked(FadeStarted(a.music[a.active], 0.0, fade, true), Passed(dts));
    assert end.music[1 - a.active]
      == Ticked(FadeStarted(first, MusicGain(a, sound.volume), fade, false), Passed(dts));
  }
}
