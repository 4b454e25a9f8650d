/** `AudioManager`: the FMOD system pointer and two maps from sound names to
    the loaded FMOD sounds and to the channel each sound last played on.
    Every FMOD call, the file-exists check and `getFullPath`'s directory
    search are parameters: an FMOD call that would return an object is an
    `Option<Handle>` (`None` for a failing `FMOD_RESULT`). The volume, pitch
    and pause state FMOD keeps for a channel are recorded with it. */
module AudioManagers {
  import opened Wrappers
  import opened Glm

  /** A loaded sound: the FMOD object, the full path it came from and
      whether it was created with `FMOD_LOOP_NORMAL`. */
  datatype Sound = Sound(handle: Handle, fullPath: string, looping: bool)

  /** A channel the manager started, with the settings it gave it. */
  datatype Channel = Channel(handle: Handle, volume: real, pitch: real, paused: bool)

  /** The set of names in a map, listed once each. */
  ghost predicate ListsKeys<V>(names: seq<string>, m: map<string, V>)
  {
    (forall i :: 0 <= i < |names| ==> names[i] in m) &&
    (forall k :: k in m ==> k in names) &&
    (forall i, j :: 0 <= i < j < |names| ==> names[i] != names[j])
  }

  class AudioManager {
    var system: Ptr
    var sounds: map<string, Sound>
    var channels: map<string, Channel>

    /** Every recorded channel belongs to a loaded sound. Every operation but
        `unloadAllSounds` keeps this. */
    ghost predicate ChannelsOfLoaded()
      reads this
    {
      channels.Keys <= sounds.Keys
    }

    constructor()
      ensures system == None && sounds == map[] && channels == map[]
      ensures ChannelsOfLoaded()
    {
      system := None;
      sounds := map[];
      channels := map[];
    }

    /** `initialize`: `created` is what `FMOD_System_Create` yields and
        `initOk` whether `FMOD_System_Init` succeeds. A created system is
        kept even when its initialisation fails. */
    method Initialize(created: Option<Handle>, initOk: bool) returns (ok: bool)
      modifies this
      ensures ok <==> created.Some? && initOk
      ensures system == (if created.Some? then created else old(system))
      ensures sounds == old(sounds) && channels == old(channels)
    {
      if created.None? {
        return false;
      }
      system := created;
      if !initOk {
        return false;
      }
      return true;
    }

    /** `shutdown`: with a system, stop everything, unload everything and
        drop the system; without one (including a second call) nothing. */
    method Shutdown()
      modifies this
      ensures old(system).Some? ==> system == None && sounds == map[] && channels == map[]
      ensures old(system).None? ==> system == None && sounds == old(sounds) && channels == old(channels)
    {
      if system.Some? {
        StopAllSounds();
        UnloadAllSounds();
        system := None;
      }
    }

    /** `loadSound(name, filePath, loop)`: `fullPath` is what `getFullPath`
        finds for `filePath`, `onDisk` whether it exists and `created` what
        `FMOD_System_CreateSound` yields. */
    method LoadSound(name: string, fullPath: string, loop: bool, onDisk: bool, created: Option<Handle>)
      returns (ok: bool)
      modifies this
      ensures system == old(system) && channels == old(channels)
      ensures old(system).None? ==> !ok && sounds == old(sounds)
      ensures old(system).Some? && name in old(sounds) ==> ok && sounds == old(sounds)
      ensures old(system).Some? && name !in old(sounds) ==>
        (ok <==> onDisk && created.Some?) &&
        sounds == (if ok then old(sounds)[name := Sound(created.value, fullPath, loop)] else old(sounds))
      ensures old(ChannelsOfLoaded()) ==> ChannelsOfLoaded()
    {
      if system.None? {
        return false;
      }
      if name in sounds {
        return true;
      }
      if !onDisk {
        return false;
      }
      if created.None? {
        return false;
      }
      sounds := sounds[name := Sound(created.value, fullPath, loop)];
      return true;
    }

    /** `unloadSound`: the sound and its channel go; an unknown name changes
        nothing (the channel of an unknown name is kept too). */
    method UnloadSound(name: string)
      modifies this
      ensures system == old(system)
      ensures name in old(sounds) ==> sounds == old(sounds) - {name} && channels == old(channels) - {name}
      ensures name !in old(sounds) ==> sounds == old(sounds) && channels == old(channels)
      ensures old(ChannelsOfLoaded()) ==> ChannelsOfLoaded()
    {
      if name in sounds {
        sounds := sounds - {name};
        channels := channels - {name};
      }
    }

    /** `unloadAllSounds`: every sound goes, the channels are left. */
    method UnloadAllSounds()
      modifies this
      ensures sounds == map[] && system == old(system) && channels == old(channels)
      ensures ChannelsOfLoaded() <==> channels == map[]
    {
      sounds := map[];
    }

    /** `playSound(name, volume, pitch)`: `played` is the channel
        `FMOD_System_PlaySound` yields. On success the name's channel is
        recorded, replacing any earlier one. */
    method PlaySound(name: string, volume: real, pitch: real, played: Option<Handle>) returns (ok: bool)
      modifies this
      ensures system == old(system) && sounds == old(sounds)
      ensures ok <==> old(system).Some? && name in old(sounds) && played.Some?
      ensures ok ==> channels == old(channels)[name := Channel(played.value, volume, pitch, false)]
      ensures !ok ==> channels == old(channels)
      ensures old(ChannelsOfLoaded()) ==> ChannelsOfLoaded()
    {
      if system.None? {
        return false;
      }
      if name !in sounds {
        return false;
      }
      if played.None? {
        return false;
      }
      channels := channels[name := Channel(played.value, volume, pitch, false)];
      return true;
    }

    /** `stopSound`: only that name's channel entry goes. */
    method StopSound(name: string)
      modifies this
      ensures channels == old(channels) - {name}
      ensures system == old(system) && sounds == old(sounds)
      ensures old(ChannelsOfLoaded()) ==> ChannelsOfLoaded()
    {
      if name in channels {
        channels := channels - {name};
      }
    }

    method StopAllSounds()
      modifies this
      ensures channels == map[]
      ensures system == old(system) && sounds == old(sounds)
      ensures ChannelsOfLoaded()
    {
      channels := map[];
    }

    /** `pauseSound(name, pause)`: the flag of that name's channel, if any. */
    method PauseSound(name: string, pause: bool)
      modifies this
      ensures name in old(channels) ==> channels == old(channels)[name := old(channels)[name].(paused := pause)]
      ensures name !in old(channels) ==> channels == old(channels)
      ensures system == old(system) && sounds == old(sounds)
    {
      if name in channels {
        channels := channels[name := channels[name].(paused := pause)];
      }
    }

    /** `pauseAllSounds(pause)`: every recorded channel, the set of names
        unchanged. */
    method PauseAllSounds(pause: bool)
      modifies this
      ensures channels.Keys == old(channels).Keys
      ensures forall n :: n in channels ==> channels[n] == old(channels)[n].(paused := pause)
      ensures system == old(system) && sounds == old(sounds)
    {
      channels := map n | n in channels :: channels[n].(paused := pause);
    }

    method SetSoundVolume(name: string, volume: real)
      modifies this
      ensures name in old(channels) ==> channels == old(channels)[name := old(channels)[name].(volume := volume)]
      ensures name !in old(channels) ==> channels == old(channels)
      ensures system == old(system) && sounds == old(sounds)
    {
      if name in channels {
        channels := channels[name := channels[name].(volume := volume)];
      }
    }

    method SetSoundPitch(name: string, pitch: real)
      modifies this
      ensures name in old(channels) ==> channels == old(channels)[name := old(channels)[name].(pitch := pitch)]
      ensures name !in old(channels) ==> channels == old(channels)
      ensures system == old(system) && sounds == old(sounds)
    {
      if name in channels {
        channels := channels[name := channels[name].(pitch := pitch)];
      }
    }

    /** `isSoundLoaded`. */
    predicate IsSoundLoaded(name: string): (b: bool)
      reads this
      ensures ChannelsOfLoaded() && !b ==> name !in channels
    {
      name in sounds
    }

    /** `isSoundPlaying`: only a name with a recorded channel can be playing;
        `fmodPlaying` answers `FMOD_Channel_IsPlaying`. */
    function IsSoundPlaying(name: string, fmodPlaying: Handle -> bool): (playing: bool)
      reads this
      ensures playing <==> name in channels && fmodPlaying(channels[name].handle)
    {
      name in channels && fmodPlaying(channels[name].handle)
    }

    /** `getLoadedSounds`: every loaded name exactly once, in the map's
        iteration order, which is left unspecified. */
    method GetLoadedSounds() returns (names: seq<string>)
      ensures ListsKeys(names, sounds)
      ensures |names| == |sounds|
      ensures forall n :: n in names <==> IsSoundLoaded(n)
    {
      names := [];
      var rest := sounds.Keys;
      while rest != {}
        invariant rest <= sounds.Keys
        invariant forall i :: 0 <= i < |names| ==> names[i] in sounds && names[i] !in rest
        invariant forall k :: k in sounds ==> k in rest || k in names
        invariant forall i, j :: 0 <= i < j < |names| ==> names[i] != names[j]
        invariant |names| + |rest| == |sounds|
        decreases |rest|
      {
        var k :| k in rest;
        names := names + [k];
        rest := rest - {k};
      }
    }
  }
}
