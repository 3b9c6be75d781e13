/** The audio system as the game holds it, without a device: its tracks sit in fixed arrays and are updated in place. */
module AudioSystem {
  import opened Mixer

  class System {
    const sfx: array<Track>
    const music: array<Track>
    var looping: map<nat, Track>
    var nextId: nat
    var active: nat
    var plays: nat
    var lastGain: real
    var master: real
    var musicBus: real
    var sfxBus: real

    ghost predicate Valid()
      reads this, sfx, music
    {
      sfx != music && Shaped(View())
    }

    ghost function View(): Audio
      reads this, sfx, music
    {
      Audio(sfx[..], music[..], looping, nextId, active, plays, lastGain, master, musicBus, sfxBus)
    }

    constructor ()
      ensures Valid() && fresh(sfx) && fresh(music)
      ensures View() == Mixer.Begin()
    {
      sfx := new Track[POOL](_ => SILENT);
      music := new Track[SLOTS](_ => SILENT);
      looping, nextId, active, plays, lastGain := map[], 1, 0, 0, 0.0;
      master, musicBus, sfxBus := 1.0, 1.0, 1.0;
      new;
      assert sfx[..] == seq(POOL, _ => SILENT);
      assert music[..] == [SILENT, SILENT];
    }

    /** Every track of one array, in place. */
    method TickTracks(tracks: array<Track>, dt: real)
      modifies tracks
      ensures tracks[..] == TickedAll(old(tracks[..]), dt)
    {
      for i := 0 to tracks.Length
        invariant forall k | 0 <= k < i :: tracks[k] == Ticked(old(tracks[k]), dt)
        invariant forall k | i <= k < tracks.Length :: tracks[k] == old(tracks[k])
      {
        tracks[i] := Ticked(tracks[i], dt);
      }
    }

    method TickLooping(dt: real)
      modifies `looping
      ensures looping == TickedLooping(old(looping), dt)
    {
      var todo := looping.Keys;
      while todo != {}
        invariant todo <= old(looping).Keys && looping.Keys == old(looping).Keys
        invariant forall id | id in looping ::
          looping[id] == if id in todo then old(looping)[id] else Ticked(old(looping)[id], dt)
        decreases |todo|
      {
        var id :| id in todo;
        looping := looping[id := Ticked(looping[id], dt)];
        todo := todo - {id};
      }
      EraseReleased();
    }

    method EraseReleased()
      modifies `looping
      ensures looping == map id | id in old(looping) && !Over(old(looping)[id]) :: old(looping)[id]
    {
      var todo := looping.Keys;
      while todo != {}
        invariant todo <= looping.Keys <= old(looping).Keys
        invariant forall id | id in old(looping) ::
          (id in looping <==> id in todo || !Over(old(looping)[id]))
          && (id in looping ==> looping[id] == old(looping)[id])
        decreases |todo|
      {
        var id :| id in todo;
        if Over(looping[id]) {
          looping := looping - {id};
        }
        todo := todo - {id};
      }
    }

    method Update(dt: real)
      requires Valid()
      modifies this, sfx, music
      ensures Valid() && View() == Updated(old(View()), dt)
    {
      var d := dt;
      if d < 0.0 {
        d := 0.0;
      }
      TickTracks(sfx, d);
      TickTracks(music, d);
      TickLooping(d);
    }

    method AcquireSfx() returns (k: nat)
      ensures k == FirstFree(sfx[..])
    {
      k := 0;
      while k < sfx.Length && sfx[k].playing
        invariant k <= sfx.Length && FirstFree(sfx[..]) == k + FirstFree(sfx[..][k..])
      {
        assert sfx[..][k..][1..] == sfx[..][k + 1..];
        k := k + 1;
      }
    }

    method PlaySfx(sound: Sound, scale: real)
      requires Valid()
      modifies this, sfx
      ensures Valid() && View() == SfxPlayed(old(View()), sound, scale)
    {
      var k := AcquireSfx();
      if k == sfx.Length {
        return;
      }
      StartSfx(k, sound, Voice(sound, scale));
    }

    method StartSfx(k: nat, sound: Sound, voice: real)
      requires Valid() && k < sfx.Length
      modifies this, sfx
      ensures Valid() && View() == SfxStarted(old(View()), k, sound, voice)
    {
      var gain := FinalGain(master, sfxBus, voice);
      sfx[k] := Started(sfx[k], gain, sound.pitch, sound.loop, voice);
      plays := plays + 1;
      lastGain := gain;
      assert music[..] == old(music[..]);
    }

    method AnyMusicPlaying() returns (b: bool)
      ensures b == AnyMusic(music[..])
    {
      for i := 0 to music.Length
        invariant forall k | 0 <= k < i :: !music[k].playing
      {
        if music[i].playing {
          assert music[..][i].playing;
          return true;
        }
      }
      b := false;
    }

    method PlayMusic(sound: Sound, loop: bool, fade: real)
      requires Valid()
      modifies this, music
      ensures Valid() && View() == MusicPlayed(old(View()), sound, loop, fade)
    {
      var target := FinalGain(master, musicBus, sound.volume);
      var any := AnyMusicPlaying();
      if !any {
        active := 0;
        music[1] := SILENT;
        music[0] := Started(music[0], target, sound.pitch, loop, sound.volume);
        assert music[..] == [Started(old(music[0]), target, sound.pitch, loop, sound.volume), SILENT];
        return;
      }
      var outgoing := active;
      var incoming := 1 - outgoing;
      active := incoming;
      if fade <= 0.0 {
        music[outgoing] := SILENT;
        music[incoming] := Started(music[incoming], target, sound.pitch, loop, sound.volume);
        assert music[..] == old(music[..])[outgoing := SILENT][incoming := music[incoming]];
        return;
      }
      music[incoming] := Started(music[incoming], 0.0, sound.pitch, loop, sound.volume);
      music[incoming] := FadeStarted(music[incoming], target, fade, false);
      music[outgoing] := FadeStarted(music[outgoing], 0.0, fade, true);
      assert music[..] == old(music[..])[incoming := music[incoming]][outgoing := music[outgoing]];
    }

    method StopMusic(fade: real)
      requires Valid()
      modifies music
      ensures Valid() && View() == MusicStopped(old(View()), fade)
    {
      for i := 0 to music.Length
        invariant forall k | 0 <= k < i :: music[k] == Stopped(old(music[k]), fade)
        invariant forall k | i <= k < music.Length :: music[k] == old(music[k])
      {
        if music[i].playing {
          music[i] := FadeStarted(music[i], 0.0, fade, true);
        }
      }
    }

    method CreateLooping() returns (id: nat)
      requires Valid()
      modifies this
      ensures Valid() && View() == LoopingCreated(old(View())) && id == old(nextId) && id in looping
    {
      id := nextId;
      nextId := nextId + 1;
      if nextId == IDS {
        nextId := 1;
      }
      if id !in looping {
        looping := looping[id := SILENT];
      }
    }

    method PlayLooping(id: nat, sound: Sound, fade: real)
      requires Valid()
      modifies this
      ensures Valid() && View() == LoopingPlayed(old(View()), id, sound, fade)
    {
      if id !in looping {
        return;
      }
      var target := FinalGain(master, sfxBus, sound.volume);
      var t := looping[id];
      if fade <= 0.0 {
        t := Started(t, target, sound.pitch, true, sound.volume);
      } else {
        t := Started(t, 0.0, sound.pitch, true, sound.volume);
        t := FadeStarted(t, target, fade, false);
      }
      looping := looping[id := t];
    }

    method StopLooping(id: nat, fade: real)
      requires Valid()
      modifies this
      ensures Valid() && View() == LoopingStopped(old(View()), id, fade)
    {
      if id in looping {
        looping := looping[id := FadeStarted(looping[id], 0.0, fade, true)];
      }
    }

    method ReleaseLooping(id: nat, fade: real)
      requires Valid()
      modifies this
      ensures Valid() && View() == LoopingReleased(old(View()), id, fade)
    {
      if id !in looping {
        return;
      }
      if fade <= 0.0 {
        looping := looping - {id};
        return;
      }
      looping := looping[id := FadeStarted(looping[id].(releaseAfter := true), 0.0, fade, true)];
    }

    method UpdateMusicGains()
      requires Valid()
      modifies music
      ensures Valid() && View() == MusicRetuned(old(View()))
    {
      for i := 0 to music.Length
        invariant forall k | 0 <= k < i ::
          music[k] == Retuned(old(music[k]), FinalGain(master, musicBus, old(music[k]).voice))
        invariant forall k | i <= k < music.Length :: music[k] == old(music[k])
      {
        var target := FinalGain(master, musicBus, music[i].voice);
        if music[i].playing {
          if music[i].fading {
            if !music[i].stopAfter {
              music[i] := music[i].(fadeTo := target);
            }
          } else {
            music[i] := music[i].(gain := target);
          }
        }
      }
    }

    method RetuneSfx()
      requires sfx != music
      modifies sfx
      ensures forall k | 0 <= k < sfx.Length ::
        sfx[k] == RetunedSfx(old(sfx[k]), FinalGain(master, sfxBus, old(sfx[k]).voice))
    {
      for i := 0 to sfx.Length
        invariant forall k | 0 <= k < i ::
          sfx[k] == RetunedSfx(old(sfx[k]), FinalGain(master, sfxBus, old(sfx[k]).voice))
        invariant forall k | i <= k < sfx.Length :: sfx[k] == old(sfx[k])
      {
        if sfx[i].playing && !sfx[i].fading {
          sfx[i] := sfx[i].(gain := FinalGain(master, sfxBus, sfx[i].voice));
        }
      }
    }

    method RetuneLooping()
      modifies `looping
      ensures looping == map id | id in old(looping) ::
        Retuned(old(looping)[id], FinalGain(master, sfxBus, old(looping)[id].voice))
    {
      var todo := looping.Keys;
      while todo != {}
        invariant todo <= old(looping).Keys && looping.Keys == old(looping).Keys
        invariant forall id | id in looping ::
          looping[id] == if id in todo then old(looping)[id]
                         else Retuned(old(looping)[id], FinalGain(master, sfxBus, old(looping)[id].voice))
        decreases |todo|
      {
        var id :| id in todo;
        looping := looping[id := Retuned(looping[id], FinalGain(master, sfxBus, looping[id].voice))];
        todo := todo - {id};
      }
    }

    method UpdateSfxGains()
      requires Valid()
      modifies `looping, sfx
      ensures Valid() && View() == SfxRetuned(old(View()))
    {
      RetuneSfx();
      RetuneLooping();
    }

    method SetMaster(volume: real)
      requires Valid()
      modifies this, sfx, music
      ensures Valid() && View() == MasterSet(old(View()), volume)
    {
      master := Clamp(volume);
      assert View() == old(View()).(master := Clamp(volume));
      UpdateMusicGains();
      UpdateSfxGains();
    }

    method SetMusic(volume: real)
      requires Valid()
      modifies this, music
      ensures Valid() && View() == MusicSet(old(View()), volume)
    {
      musicBus := Clamp(volume);
      assert View() == old(View()).(musicBus := Clamp(volume));
      UpdateMusicGains();
    }

    method SetSfx(volume: real)
      requires Valid()
      modifies this, sfx
      ensures Valid() && View() == SfxSet(old(View()), volume)
    {
      sfxBus := Clamp(volume);
      assert View() == old(View()).(sfxBus := Clamp(volume));
      UpdateSfxGains();
    }

    method Silence(tracks: array<Track>)
      modifies tracks
      ensures tracks[..] == seq(tracks.Length, _ => SILENT)
    {
      for i := 0 to tracks.Length
        invariant forall k | 0 <= k < i :: tracks[k] == SILENT
      {
        tracks[i] := SILENT;
      }
    }

    method StopAll()
      requires Valid()
      modifies this, sfx, music
      ensures Valid() && View() == AllStopped(old(View()))
    {
      Silence(sfx);
      Silence(music);
      active := 0;
      looping := map[];
    }
  }
}
