/** The mixer behind the audio system: tracks with fades, a pool for sound effects, two music slots that take turns, and
    looping tracks held by handles. Seconds and gains are reals. */
module Mixer {

  const POOL: nat := 12
  const SLOTS: nat := 2
  const IDS: nat := 0x1_0000_0000

  datatype Track = Track(
    playing: bool, gain: real, ratio: real, loop: bool, voice: real,
    fadeFrom: real, fadeTo: real, duration: real, elapsed: real, fading: bool, stopAfter: bool, releaseAfter: bool)

  datatype Sound = Sound(volume: real, pitch: real, loop: bool)

  const SILENT := Track(false, 0.0, 1.0, false, 1.0, 0.0, 0.0, 0.0, 0.0, false, false, false)

  function Clamp(x: real): real {
    if x < 0.0 then 0.0 else if x > 1.0 then 1.0 else x
  }

  function FinalGain(master: real, bus: real, voice: real): real {
    Clamp(master * bus * voice)
  }

  // One track.

  function Started(t: Track, gain: real, ratio: real, loop: bool, voice: real): Track {
    t.(playing := true, gain := gain, ratio := ratio, loop := loop, voice := voice, fading := false,
       stopAfter := false, releaseAfter := false, elapsed := 0.0, duration := 0.0)
  }

  function FadeStarted(t: Track, to: real, duration: real, stop: bool): Track {
    if duration <= 0.0 then
      if stop then t.(gain := 0.0, fading := false, stopAfter := false, playing := false)
      else t.(gain := to, fading := false, stopAfter := false)
    else
      t.(fadeFrom := t.gain, fadeTo := to, duration := duration, elapsed := 0.0, fading := true, stopAfter := stop)
  }

  function Share(span: real, part: real): real {
    span * part
  }

  function Mixed(from: real, to: real, elapsed: real, duration: real): real
    requires duration != 0.0
  {
    from + Share(to - from, elapsed / duration)
  }

  /** A fading track once `elapsed` seconds of its fade are over. */
  function FadedTo(t: Track, elapsed: real): Track {
    if elapsed >= t.duration then
      if t.stopAfter then t.(elapsed := elapsed, gain := 0.0, fading := false, playing := false)
      else t.(elapsed := elapsed, gain := t.fadeTo, fading := false)
    else if t.duration == 0.0 then t.(elapsed := elapsed)
    else t.(elapsed := elapsed, gain := Mixed(t.fadeFrom, t.fadeTo, elapsed, t.duration))
  }

  function Ticked(t: Track, dt: real): Track {
    if t.fading then FadedTo(t, t.elapsed + dt) else t
  }

  /** A track under new volumes: a fade that does not stop it aims anew, a steady track goes there at once. */
  function Retuned(t: Track, target: real): Track {
    if !t.playing then t
    else if t.fading then (if t.stopAfter then t else t.(fadeTo := target))
    else t.(gain := target)
  }

  function RetunedSfx(t: Track, target: real): Track {
    if t.playing && !t.fading then t.(gain := target) else t
  }

  predicate Over(t: Track) {
    t.releaseAfter && !t.playing && !t.fading
  }

  // The whole mixer.

  datatype Audio = Audio(
    sfx: seq<Track>, music: seq<Track>, looping: map<nat, Track>, nextId: nat, active: nat,
    plays: nat, lastGain: real, master: real, musicBus: real, sfxBus: real)

  function Begin(): Audio {
    Audio(seq(POOL, _ => SILENT), [SILENT, SILENT], map[], 1, 0, 0, 0.0, 1.0, 1.0, 1.0)
  }

  /** The sizes are fixed, and ids start at one. */
  predicate Shaped(a: Audio) {
    |a.sfx| == POOL && |a.music| == SLOTS && a.active < SLOTS && 0 < a.nextId < IDS && 0 !in a.looping
  }

  function MusicGain(a: Audio, voice: real): real {
    FinalGain(a.master, a.musicBus, voice)
  }

  function SfxGain(a: Audio, voice: real): real {
    FinalGain(a.master, a.sfxBus, voice)
  }

  function TickedAll(tracks: seq<Track>, dt: real): seq<Track> {
    seq(|tracks|, i requires 0 <= i < |tracks| => Ticked(tracks[i], dt))
  }

  function TickedLooping(looping: map<nat, Track>, dt: real): map<nat, Track> {
    map id | id in looping && !Over(Ticked(looping[id], dt)) :: Ticked(looping[id], dt)
  }

  function NotNegative(dt: real): real {
    if dt < 0.0 then 0.0 else dt
  }

  function Updated(a: Audio, dt: real): Audio {
    var d := NotNegative(dt);
    a.(sfx := TickedAll(a.sfx, d), music := TickedAll(a.music, d), looping := TickedLooping(a.looping, d))
  }

  function FirstFree(tracks: seq<Track>): (k: nat)
    ensures k <= |tracks| && (forall i | 0 <= i < k :: tracks[i].playing) && (k < |tracks| ==> !tracks[k].playing)
  {
    if tracks == [] || !tracks[0].playing then 0 else 1 + FirstFree(tracks[1..])
  }

  function Voice(sound: Sound, scale: real): real {
    sound.volume * scale
  }

  function SfxPlayed(a: Audio, sound: Sound, scale: real): Audio {
    var k := FirstFree(a.sfx);
    if k == |a.sfx| then a else SfxStarted(a, k, sound, Voice(sound, scale))
  }

  function SfxStarted(a: Audio, k: nat, sound: Sound, voice: real): Audio
    requires k < |a.sfx|
  {
    var gain := SfxGain(a, voice);
    a.(sfx := a.sfx[k := Started(a.sfx[k], gain, sound.pitch, sound.loop, voice)], plays := a.plays + 1,
       lastGain := gain)
  }

  predicate AnyMusic(music: seq<Track>) {
    exists i | 0 <= i < |music| :: music[i].playing
  }

  function MusicPlayed(a: Audio, sound: Sound, loop: bool, fade: real): Audio
    requires Shaped(a)
  {
    var target := MusicGain(a, sound.volume);
    if !AnyMusic(a.music) then
      a.(active := 0, music := [Started(a.music[0], target, sound.pitch, loop, sound.volume), SILENT])
    else
      var outgoing, incoming := a.active, 1 - a.active;
      if fade <= 0.0 then
        a.(active := incoming,
           music := a.music[outgoing := SILENT]
             [incoming := Started(a.music[incoming], target, sound.pitch, loop, sound.volume)])
      else
        var first := Started(a.music[incoming], 0.0, sound.pitch, loop, sound.volume);
        a.(active := incoming,
           music := a.music[incoming := FadeStarted(first, target, fade, false)]
             [outgoing := FadeStarted(a.music[outgoing], 0.0, fade, true)])
  }

  function Stopped(t: Track, fade: real): Track {
    if t.playing then FadeStarted(t, 0.0, fade, true) else t
  }

  function MusicStopped(a: Audio, fade: real): Audio {
    a.(music := seq(|a.music|, i requires 0 <= i < |a.music| => Stopped(a.music[i], fade)))
  }

  /** A handle is a number; they start over after 2^32 - 1, and a number still in use keeps its track. */
  function LoopingCreated(a: Audio): Audio {
    a.(nextId := if a.nextId + 1 == IDS then 1 else a.nextId + 1,
       looping := if a.nextId in a.looping then a.looping else a.looping[a.nextId := SILENT])
  }

  function LoopingPlayed(a: Audio, id: nat, sound: Sound, fade: real): Audio {
    if id !in a.looping then a
    else
      var target := SfxGain(a, sound.volume);
      var t := a.looping[id];
      a.(looping := a.looping[id :=
        if fade <= 0.0 then Started(t, target, sound.pitch, true, sound.volume)
        else FadeStarted(Started(t, 0.0, sound.pitch, true, sound.volume), target, fade, false)])
  }

  function LoopingStopped(a: Audio, id: nat, fade: real): Audio {
    if id !in a.looping then a
    else a.(looping := a.looping[id := FadeStarted(a.looping[id], 0.0, fade, true)])
  }

  function LoopingReleased(a: Audio, id: nat, fade: real): Audio {
    if id !in a.looping then a
    else if fade <= 0.0 then a.(looping := a.looping - {id})
    else a.(looping := a.looping[id := FadeStarted(a.looping[id].(releaseAfter := true), 0.0, fade, true)])
  }

  function MusicRetuned(a: Audio): Audio {
    a.(music := seq(|a.music|, i requires 0 <= i < |a.music| => Retuned(a.music[i], MusicGain(a, a.music[i].voice))))
  }

  function SfxRetuned(a: Audio): Audio {
    a.(sfx := seq(|a.sfx|, i requires 0 <= i < |a.sfx| => RetunedSfx(a.sfx[i], SfxGain(a, a.sfx[i].voice))),
       looping := map id | id in a.looping :: Retuned(a.looping[id], SfxGain(a, a.looping[id].voice)))
  }

  function MasterSet(a: Audio, volume: real): Audio {
    SfxRetuned(MusicRetuned(a.(master := Clamp(volume))))
  }

  function MusicSet(a: Audio, volume: real): Audio {
    MusicRetuned(a.(musicBus := Clamp(volume)))
  }

  function SfxSet(a: Audio, volume: real): Audio {
    SfxRetuned(a.(sfxBus := Clamp(volume)))
  }

  function AllStopped(a: Audio): Audio {
    a.(sfx := seq(|a.sfx|, _ => SILENT), music := seq(|a.music|, _ => SILENT), active := 0, looping := map[])
  }

  datatype Call =
    | Init
    | Update(dt: real)
    | PlaySfx(sound: Sound, scale: real)
    | PlayMusic(sound: Sound, loop: bool, fade: real)
    | StopMusic(fade: real)
    | CreateLooping
    | PlayLooping(id: nat, sound: Sound, fade: real)
    | StopLooping(id: nat, fade: real)
    | ReleaseLooping(id: nat, fade: real)
    | SetMaster(volume: real)
    | SetMusic(volume: real)
    | SetSfx(volume: real)
    | StopAll

  function Step(a: Audio, c: Call): (r: Audio)
    requires Shaped(a)
    ensures Shaped(r)
  {
    match c
    case Init => Begin()
    case Update(dt) => Updated(a, dt)
    case PlaySfx(sound, scale) => SfxPlayed(a, sound, scale)
    case PlayMusic(sound, loop, fade) => MusicPlayed(a, sound, loop, fade)
    case StopMusic(fade) => MusicStopped(a, fade)
    case CreateLooping => LoopingCreated(a)
    case PlayLooping(id, sound, fade) => LoopingPlayed(a, id, sound, fade)
    case StopLooping(id, fade) => LoopingStopped(a, id, fade)
    case ReleaseLooping(id, fade) => LoopingReleased(a, id, fade)
    case SetMaster(volume) => MasterSet(a, volume)
    case SetMusic(volume) => MusicSet(a, volume)
    case SetSfx(volume) => SfxSet(a, volume)
    case StopAll => AllStopped(a)
  }

  function Run(a: Audio, calls: seq<Call>): (r: Audio)
    requires Shaped(a)
    ensures Shaped(r)
    decreases |calls|
  {
    if calls == [] then a else Run(Step(a, calls[0]), calls[1..])
  }
}
