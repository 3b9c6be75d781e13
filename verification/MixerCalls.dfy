/** What each call of the audio system does to the tracks, in every state it can be in. */
module MixerCalls {
  import opened Mixer
  import opened MixerRuns

  /** The gain of a track under three volumes, kept between silence and full. */
  function Level(master: real, bus: real, voice: real): real {
    var x := master * bus * voice;
    if x < 0.0 then 0.0 else if x > 1.0 then 1.0 else x
  }

  lemma LevelIs(master: real, bus: real, voice: real)
    ensures FinalGain(master, bus, voice) == Level(master, bus, voice)
  {
  }

  /** Plays this sound from the start, at this gain, and does not fade. */
  predicate Plays(t: Track, gain: real, sound: Sound, loop: bool, voice: real) {
    t.playing && t.gain == gain && t.ratio == sound.pitch && t.loop == loop && t.voice == voice
    && !t.fading && !t.stopAfter && !t.releaseAfter
  }

  /** Plays this sound, silent at first, and fades to this gain. */
  predicate FadesUp(t: Track, gain: real, duration: real, sound: Sound, loop: bool, voice: real) {
    t.playing && t.gain == 0.0 && t.ratio == sound.pitch && t.loop == loop && t.voice == voice
    && t.fading && t.fadeFrom == 0.0 && t.fadeTo == gain && t.duration == duration && t.elapsed == 0.0
    && !t.stopAfter && !t.releaseAfter
  }

  /** Goes on from where `t` was, fades to silence and stops then. */
  predicate FadesAway(u: Track, t: Track, duration: real) {
    u == t.(fadeFrom := t.gain, fadeTo := 0.0, duration := duration, elapsed := 0.0, fading := true, stopAfter := true)
  }

  // Music.

  /** `play_music`, in every state a run reaches: the active slot plays the new music, at its gain at once if nothing
      played or there is no time to fade, and fading up to it otherwise; the other slot is silent, or is the music that
      played and fades away. */
  lemma MusicStarts(a: Audio, sound: Sound, loop: bool, fade: real)
    requires Inv(a)
    ensures var b := MusicPlayed(a, sound, loop, fade);
      var some, target := a.music[0].playing || a.music[1].playing, Level(a.master, a.musicBus, sound.volume);
      && b == a.(active := b.active, music := b.music) && |b.music| == 2
      && b.active == (if some then 1 - a.active else 0)
      && if some && fade > 0.0
         then FadesUp(b.music[b.active], target, fade, sound, loop, sound.volume)
              && a.music[a.active].playing && FadesAway(b.music[a.active], a.music[a.active], fade)
         else Plays(b.music[b.active], target, sound, loop, sound.volume) && !b.music[1 - b.active].playing
  {
    LevelIs(a.master, a.musicBus, sound.volume);
    assert AnyMusic(a.music) <==> a.music[0].playing || a.music[1].playing;
    if AnyMusic(a.music) {
      ActivePlays(a);
    }
  }

  /** `stop_music`: what plays fades away, or is silent at once. */
  lemma MusicStops(a: Audio, fade: real, slot: nat)
    requires Inv(a) && slot < 2
    ensures var b := MusicStopped(a, fade);
      && b == a.(music := b.music) && |b.music| == 2
      && if !a.music[slot].playing then b.music[slot] == a.music[slot]
         else if fade > 0.0 then FadesAway(b.music[slot], a.music[slot], fade)
         else !b.music[slot].playing
  {
  }

  // Effects.

  /** `play_sfx`: the first track of the pool that is free plays the sound; when none is, nothing happens. */
  lemma EffectStarts(a: Audio, sound: Sound, scale: real, k: nat)
    requires Inv(a) && k < |a.sfx| && !a.sfx[k].playing && forall i | 0 <= i < k :: a.sfx[i].playing
    ensures var b := SfxPlayed(a, sound, scale);
      var gain := Level(a.master, a.sfxBus, sound.volume * scale);
      && b == a.(sfx := b.sfx, plays := a.plays + 1, lastGain := gain)
      && |b.sfx| == |a.sfx| && Plays(b.sfx[k], gain, sound, sound.loop, sound.volume * scale)
      && forall i | 0 <= i < |a.sfx| && i != k :: b.sfx[i] == a.sfx[i]
  {
    hide Level, FinalGain, FirstFree;
    LevelIs(a.master, a.sfxBus, Voice(sound, scale));
    assert Voice(sound, scale) == sound.volume * scale;
    FirstFreeIs(a.sfx, k);
  }

  lemma FirstFreeIs(tracks: seq<Track>, k: nat)
    requires k < |tracks| && !tracks[k].playing && forall i | 0 <= i < k :: tracks[i].playing
    ensures FirstFree(tracks) == k
  {
  }

  lemma PoolFull(a: Audio, sound: Sound, scale: real)
    requires forall i | 0 <= i < |a.sfx| :: a.sfx[i].playing
    ensures SfxPlayed(a, sound, scale) == a
  {
    if FirstFree(a.sfx) < |a.sfx| {
      assert false;
    }
  }

  // Looping tracks.

  /** A new handle: it has a track that does not play, unless it was in use, and every other track stays. */
  lemma HandleMade(a: Audio)
    requires Inv(a)
    ensures var b := LoopingCreated(a);
      && b == a.(nextId := b.nextId, looping := b.looping)
      && b.nextId == (if a.nextId == 0xFFFF_FFFF then 1 else a.nextId + 1)
      && b.looping.Keys == a.looping.Keys + {a.nextId}
      && (forall id | id in a.looping :: b.looping[id] == a.looping[id])
      && (a.nextId !in a.looping ==> !b.looping[a.nextId].playing && !b.looping[a.nextId].fading)
  {
  }

  /** `play_looping_sfx`: the track of the handle plays the sound over and over, at its gain at once or fading up to
      it. */
  lemma LoopStarts(a: Audio, id: nat, sound: Sound, fade: real)
    requires Inv(a)
    ensures var b, gain := LoopingPlayed(a, id, sound, fade), Level(a.master, a.sfxBus, sound.volume);
      && b == a.(looping := b.looping) && b.looping.Keys == a.looping.Keys
      && (forall other | other in a.looping && other != id :: b.looping[other] == a.looping[other])
      && (id in a.looping ==>
            if fade > 0.0 then FadesUp(b.looping[id], gain, fade, sound, true, sound.volume)
            else Plays(b.looping[id], gain, sound, true, sound.volume))
  {
    LevelIs(a.master, a.sfxBus, sound.volume);
    if id !in a.looping {
      assert a == a.(looping := a.looping);
    }
  }

  /** `stop_looping_sfx`: the track of the handle plays until so much time has passed; the handle stays, unless it was
      released before. */
  lemma LoopStopsInTime(a: Audio, id: nat, fade: real, dts: seq<real>)
    requires Inv(a) && id in a.looping
    ensures var b := UpdatedBy(LoopingStopped(a, id, fade), dts);
      && (id in b.looping && b.looping[id].playing <==> a.looping[id].playing && Passed(dts) < fade)
      && (!a.looping[id].releaseAfter ==> id in b.looping)
  {
    var b := LoopingStopped(a, id, fade);
    StopLoopingKeeps(a, id, fade);
    FadesOut(a.looping[id], fade, Passed(dts));
    if dts != [] {
      OnlyTimeCounts(b, dts);
      var end := Updated(b, Passed(dts));
      assert id in end.looping ==> end.looping[id] == Ticked(b.looping[id], Passed(dts));
      assert id in end.looping <==> id in UpdatedBy(b, dts).looping;
      assert id in end.looping ==> Alike(UpdatedBy(b, dts).looping[id], end.looping[id]);
    }
  }

  /** No other call ends a looping track. */
  lemma OthersGoOn(a: Audio, id: nat, other: nat, fade: real)
    requires other != id && other in a.looping
    ensures other in LoopingStopped(a, id, fade).looping
      && LoopingStopped(a, id, fade).looping[other] == a.looping[other]
    ensures other in LoopingReleased(a, id, fade).looping
      && LoopingReleased(a, id, fade).looping[other] == a.looping[other]
  {
  }

  // Time.

  lemma Shares(g: real, to: real, p: real, d: real)
    requires d > 0.0
    ensures (g + (to - g) * (p / d)) * d == g * (d - p) + to * p
  {
    assert (p / d) * d == p;
    assert ((to - g) * (p / d)) * d == (to - g) * p;
  }

  /** While a fade goes on the gain moves evenly from where it was to where it goes. */
  lemma FadeIsEven(t: Track, to: real, d: real, stop: bool, p: real)
    requires 0.0 <= p < d
    ensures var u := Ticked(FadeStarted(t, to, d, stop), p);
      u.fading && u.playing == t.playing && u.gain * d == t.gain * (d - p) + to * p
  {
    Shares(t.gain, to, p, d);
  }

  /** Once its time is up a fade is over: the track is at the gain it went to, or has stopped, and nothing else of it
      has changed. */
  lemma FadeEnds(t: Track, to: real, d: real, stop: bool, p: real)
    requires 0.0 < d <= p
    ensures Ticked(FadeStarted(t, to, d, stop), p) ==
      t.(playing := t.playing && !stop, gain := if stop then 0.0 else to, fadeFrom := t.gain, fadeTo := to,
         duration := d, elapsed := p, fading := false, stopAfter := stop)
  {
  }

  /** During a crossfade, however the time is cut into updates: the new music has come up, and the old one gone down, by
      the same share of the time. */
  lemma CrossfadeIsEven(a: Audio, sound: Sound, loop: bool, fade: real, dts: seq<real>)
    requires Inv(a) && (a.music[0].playing || a.music[1].playing) && dts != [] && Passed(dts) < fade
    ensures var b := UpdatedBy(MusicPlayed(a, sound, loop, fade), dts);
      var p, target := Passed(dts), Level(a.master, a.musicBus, sound.volume);
      && |b.music| == 2 && b.active == 1 - a.active && b.music[b.active].playing && b.music[a.active].playing
      && b.music[b.active].gain * fade == target * p
      && b.music[a.active].gain * fade == a.music[a.active].gain * (fade - p)
  {
    hide Level, Ticked, FadeStarted, Passed, UpdatedBy, Updated, MusicPlayed, Started, AllGood;
    var b, p, target := MusicPlayed(a, sound, loop, fade), Passed(dts), Level(a.master, a.musicBus, sound.volume);
    PlayMusicKeeps(a, sound, loop, fade);
    OnlyTimeCounts(b, dts);
    UpdatedIs(b, p, p);
    CrossfadeTracks(a, sound, loop, fade);
    FadeIsEven(Started(a.music[1 - a.active], 0.0, sound.pitch, loop, sound.volume), target, fade, false, p);
    FadeIsEven(a.music[a.active], 0.0, fade, true, p);
    StartedPlays(a.music[1 - a.active], sound, loop);
    ActiveOf(a);
  }

  lemma ActiveOf(a: Audio)
    requires Inv(a) && (a.music[0].playing || a.music[1].playing)
    ensures a.music[a.active].playing
  {
    assert AnyMusic(a.music);
    ActivePlays(a);
  }

  lemma StartedPlays(t: Track, sound: Sound, loop: bool)
    ensures var u := Started(t, 0.0, sound.pitch, loop, sound.volume); u.playing && u.gain == 0.0
  {
  }

  lemma CrossfadeTracks(a: Audio, sound: Sound, loop: bool, fade: real)
    requires Inv(a) && (a.music[0].playing || a.music[1].playing) && 0.0 < fade
    ensures var b, target := MusicPlayed(a, sound, loop, fade), Level(a.master, a.musicBus, sound.volume);
      && |b.music| == 2 && b.active == 1 - a.active
      && b.music[b.active]
         == FadeStarted(Started(a.music[1 - a.active], 0.0, sound.pitch, loop, sound.volume), target, fade, false)
      && b.music[a.active] == FadeStarted(a.music[a.active], 0.0, fade, true)
  {
    LevelIs(a.master, a.musicBus, sound.volume);
    assert AnyMusic(a.music);
  }

  /** A clock that goes back counts as one that stands still. */
  lemma NoTimeBack(a: Audio, dt: real)
    requires dt < 0.0
    ensures Updated(a, dt) == Updated(a, 0.0)
    ensures forall t: Track | !t.fading :: Ticked(t, 0.0) == t
  {
  }

  /** Time takes a handle away exactly when it was released and its track is over by then. */
  lemma HandleErased(a: Audio, dt: real, id: nat)
    requires id in a.looping && 0.0 <= dt
    ensures var t := Ticked(a.looping[id], dt);
      id !in Updated(a, dt).looping <==> t.releaseAfter && !t.playing && !t.fading
  {
  }

  // Volumes.

  /** A track under a new level: steady it is at the level, fading up it goes there, fading away it goes on. */
  predicate Follows(u: Track, t: Track, level: real) {
    u == if !t.playing || (t.fading && t.stopAfter) then t
         else if t.fading then t.(fadeTo := level)
         else t.(gain := level)
  }

  /** The three volumes: each is kept between silence and full, and the tracks it is for follow. */
  lemma VolumesFollow(a: Audio, volume: real)
    requires Inv(a)
    ensures var v := if volume < 0.0 then 0.0 else if volume > 1.0 then 1.0 else volume;
      var m, n, s := MasterSet(a, volume), MusicSet(a, volume), SfxSet(a, volume);
      && m == a.(master := v, music := m.music, sfx := m.sfx, looping := m.looping)
      && n == a.(musicBus := v, music := n.music)
      && s == a.(sfxBus := v, sfx := s.sfx, looping := s.looping)
      && MusicFollows(m, a) && SfxFollows(m, a) && MusicFollows(n, a) && SfxFollows(s, a)
  {
    hide Level, FinalGain;
    MusicTurned(a, a.(master := Clamp(volume)));
    MusicTurned(a, a.(musicBus := Clamp(volume)));
    SfxTurned(a, MusicRetuned(a.(master := Clamp(volume))));
    SfxTurned(a, a.(sfxBus := Clamp(volume)));
  }

  ghost predicate MusicFollows(b: Audio, a: Audio) {
    |b.music| == |a.music| && forall i | 0 <= i < |a.music| ::
      Follows(b.music[i], a.music[i], Level(b.master, b.musicBus, a.music[i].voice))
  }

  ghost predicate SfxFollows(b: Audio, a: Audio) {
    && |b.sfx| == |a.sfx|
    && (forall i | 0 <= i < |a.sfx| :: Follows(b.sfx[i], a.sfx[i], Level(b.master, b.sfxBus, a.sfx[i].voice)))
    && b.looping.Keys == a.looping.Keys
    && forall id | id in a.looping ::
         Follows(b.looping[id], a.looping[id], Level(b.master, b.sfxBus, a.looping[id].voice))
  }

  lemma MusicTurned(a: Audio, b: Audio)
    requires b.music == a.music
    ensures MusicFollows(MusicRetuned(b), a)
    ensures MusicRetuned(b) == b.(music := MusicRetuned(b).music)
  {
    forall i | 0 <= i < |a.music|
      ensures Follows(MusicRetuned(b).music[i], a.music[i], Level(b.master, b.musicBus, a.music[i].voice))
    {
      LevelIs(b.master, b.musicBus, a.music[i].voice);
    }
  }

  lemma SfxTurned(a: Audio, b: Audio)
    requires Inv(a) && b.sfx == a.sfx && b.looping == a.looping
    ensures SfxFollows(SfxRetuned(b), a)
    ensures SfxRetuned(b) == b.(sfx := SfxRetuned(b).sfx, looping := SfxRetuned(b).looping)
  {
    forall i | 0 <= i < |a.sfx|
      ensures Follows(SfxRetuned(b).sfx[i], a.sfx[i], Level(b.master, b.sfxBus, a.sfx[i].voice))
    {
      LevelIs(b.master, b.sfxBus, a.sfx[i].voice);
      assert Good(a.sfx[i], SfxGain(a, a.sfx[i].voice)) && !a.sfx[i].fading;
    }
    forall id | id in a.looping
      ensures Follows(SfxRetuned(b).looping[id], a.looping[id], Level(b.master, b.sfxBus, a.looping[id].voice))
    {
      LevelIs(b.master, b.sfxBus, a.looping[id].voice);
    }
  }

  /** After any calls at all: every track that plays and does not fade is at the product of the master volume, the
      volume of its bus and its own, kept between silence and full. */
  lemma SteadyGains(calls: seq<Call>)
    ensures var a := Run(Begin(), calls);
      && (forall i | 0 <= i < |a.music| && a.music[i].playing && !a.music[i].fading ::
            a.music[i].gain == Level(a.master, a.musicBus, a.music[i].voice))
      && (forall i | 0 <= i < |a.sfx| && a.sfx[i].playing ::
            a.sfx[i].gain == Level(a.master, a.sfxBus, a.sfx[i].voice))
      && (forall id | id in a.looping && a.looping[id].playing && !a.looping[id].fading ::
            a.looping[id].gain == Level(a.master, a.sfxBus, a.looping[id].voice))
  {
    hide Run, Level, FinalGain;
    var a := Run(Begin(), calls);
    RunKeeps(Begin(), calls);
    forall voice
      ensures MusicGain(a, voice) == Level(a.master, a.musicBus, voice)
      ensures SfxGain(a, voice) == Level(a.master, a.sfxBus, voice)
    {
      LevelIs(a.master, a.musicBus, voice);
      LevelIs(a.master, a.sfxBus, voice);
    }
  }

  /** `stop_all` leaves nothing playing and no handle; the volumes stay.  `init` starts so, with full volumes. */
  lemma SilenceAfter(a: Audio)
    requires Inv(a)
    ensures var b := AllStopped(a);
      && (forall i | 0 <= i < |b.sfx| :: !b.sfx[i].playing) && (forall i | 0 <= i < |b.music| :: !b.music[i].playing)
      && |b.sfx| == 12 && |b.music| == 2 && b.looping == map[] && b.active == 0
      && b.master == a.master && b.musicBus == a.musicBus && b.sfxBus == a.sfxBus && b.nextId == a.nextId
    ensures var b := Begin();
      && (forall i | 0 <= i < |b.sfx| :: !b.sfx[i].playing) && (forall i | 0 <= i < |b.music| :: !b.music[i].playing)
      && |b.sfx| == 12 && |b.music| == 2 && b.looping == map[] && b.nextId == 1
      && b.master == 1.0 && b.musicBus == 1.0 && b.sfxBus == 1.0
  {
  }
}
