/**
 * The transport globals of src/audio.c (`AudioCurrentIndex`,
 * `AudioCurrentPath`, `LoopLock`, `Music`, `AudioPosition`) together with
 * the slot table, and what `PlayAudio` and the per-frame
 * `UpdateAudioPosition` do to them, stated on values.
 */
module Transport {
  import opened Wrappers
  import opened Playlist
  import opened LoopModes
  import PlaylistFacts

  datatype State = State(
    slots: seq<Slot>,
    currentIndex: int,             // AudioCurrentIndex, -1 for "no track"
    currentPath: Option<string>,   // AudioCurrentPath, a copy of the path played
    loopLock: bool,                // LoopLock
    musicLoaded: bool,             // Music != NULL
    position: real)                // AudioPosition

  /** The program's state after `InitializeAudio`, with its slots taken as zeroed. */
  const Initial: State := State([EmptySlot, EmptySlot], -1, None, false, false, 0.0)

  /** What every operation keeps: a non-empty consistent store and an index in range. */
  ghost predicate Inv(s: State) {
    |s.slots| > 0 && Consistent(s.slots) && -1 <= s.currentIndex < |s.slots|
  }

  datatype PlayOutcome = PlayOutcome(state: State, loopLength: real)

  /**
   * `PlayAudio`: look the path up, adding it (default category) if absent;
   * release the loaded media; load the path. On success the path becomes the
   * current track at the looked-up or added index, from position 0, and its
   * loop length is returned; on failure nothing is loaded and 0 is returned.
   */
  function Play(s: State, path: string, lib: Library): (r: PlayOutcome)
    requires Inv(s) && Openable(lib)
    ensures r.state.musicLoaded <==> path in lib
    ensures r.state.loopLock == s.loopLock
    ensures |r.state.slots| >= |s.slots|
    ensures forall i :: 0 <= i < |s.slots| && Occupied(s.slots[i]) ==> r.state.slots[i] == s.slots[i]
    ensures path in lib ==>
      && 0 <= r.state.currentIndex < |r.state.slots|
      && r.state.slots[r.state.currentIndex].path == path
      && r.state.currentPath == Some(path) && r.state.position == 0.0
      && r.loopLength == lib[path].loopLength
    ensures path !in lib ==>
      && r.loopLength == 0.0
      && r.state.currentIndex == s.currentIndex && r.state.currentPath == s.currentPath
      && r.state.position == s.position
  {
    var found := FindPath(s.slots, Some(path));
    var added := if found == -1 then Add(s.slots, path, None, lib) else AddOutcome(s.slots, found);
    if path in lib then
      PlayOutcome(
        s.(slots := added.slots, currentIndex := added.index, currentPath := Some(path),
           musicLoaded := true, position := 0.0),
        lib[path].loopLength)
    else
      PlayOutcome(s.(slots := added.slots, musicLoaded := false), 0.0)
  }

  /**
   * `UpdateAudioPosition` reads `Audio[AudioCurrentIndex]` under `LOOP_ALL`
   * once the current path is found; the source relies on the index being a
   * slot then.
   */
  predicate TickDefined(s: State, loop: LoopMode) {
    loop == LoopAll && FindPath(s.slots, s.currentPath) != -1 ==> s.currentIndex >= 0
  }

  /**
   * One frame of `UpdateAudioPosition`, given whether the engine is still
   * playing, the position it reports and the loop mode.
   */
  function Tick(s: State, playing: bool, enginePosition: real, loop: LoopMode, lib: Library): (r: State)
    requires Inv(s) && Openable(lib) && TickDefined(s, loop)
    ensures |r.slots| >= |s.slots|
    ensures forall i :: 0 <= i < |s.slots| && Occupied(s.slots[i]) ==> r.slots[i] == s.slots[i]
    ensures playing ==> r == s.(loopLock := false, position := enginePosition)
    ensures !playing && loop == LoopNone ==> !r.musicLoaded && r.currentIndex == -1
    ensures !playing && loop == LoopAll ==> r.loopLock
  {
    if playing then
      s.(loopLock := false, position := enginePosition)
    else if loop == LoopSong then
      if FindPath(s.slots, s.currentPath) != -1 then Play(s, s.currentPath.value, lib).state else s
    else if loop == LoopAll && !s.loopLock then
      var locked := s.(loopLock := true);
      if FindPath(s.slots, s.currentPath) != -1
      then Play(locked, s.slots[NextIndex(s.slots, s.currentIndex)].path, lib).state
      else locked
    else if loop == LoopAll && s.loopLock then
      if FindPath(s.slots, s.currentPath) != -1 then Play(s, s.slots[s.currentIndex].path, lib).state else s
    else
      s.(musicLoaded := false, currentIndex := -1)
  }

  // ---------------------------------------------------------------- facts

  /** `PlayAudio` keeps the invariant. */
  lemma PlayKeepsInv(s: State, path: string, lib: Library)
    requires Inv(s) && Openable(lib)
    ensures Inv(Play(s, path, lib).state)
  {
    if FindPath(s.slots, Some(path)) == -1 {
      PlaylistFacts.AddKeepsConsistent(s.slots, path, None, lib);
    }
  }

  /**
   * A successful load makes the path current at its slot (the one found, or
   * the one just added), from position 0, with media loaded and the loop lock
   * untouched; a path already present leaves the store as it was.
   */
  lemma PlayLoads(s: State, path: string, lib: Library)
    requires Inv(s) && Openable(lib) && path in lib
    ensures var r := Play(s, path, lib);
      && r.state.musicLoaded
      && r.state.currentIndex >= 0
      && r.state.currentIndex == FindPath(r.state.slots, Some(path))
      && r.state.currentPath == Some(path)
      && r.state.position == 0.0
      && r.state.loopLock == s.loopLock
      && r.loopLength == lib[path].loopLength
      && (FindPath(s.slots, Some(path)) != -1 ==> r.state.slots == s.slots)
      && (FindPath(s.slots, Some(path)) == -1 ==> r.state.slots == Add(s.slots, path, None, lib).slots)
  {
    if FindPath(s.slots, Some(path)) == -1 {
      PlaylistFacts.AddSuccess(s.slots, path, None, lib);
    }
  }

  /**
   * A failed load leaves nothing loaded, returns 0, keeps the current index,
   * path and position, and occupies no new slot.
   */
  lemma PlayLoadFailure(s: State, path: string, lib: Library)
    requires Inv(s) && Openable(lib) && path !in lib
    ensures var r := Play(s, path, lib);
      && !r.state.musicLoaded
      && r.loopLength == 0.0
      && r.state.currentIndex == s.currentIndex
      && r.state.currentPath == s.currentPath
      && r.state.position == s.position
      && r.state.loopLock == s.loopLock
      && |r.state.slots| >= |s.slots|
      && (forall i :: 0 <= i < |s.slots| ==> r.state.slots[i] == s.slots[i])
      && (forall i :: |s.slots| <= i < |r.state.slots| ==> !Occupied(r.state.slots[i]))
  {
    if FindPath(s.slots, Some(path)) == -1 {
      PlaylistFacts.AddLoadFailure(s.slots, path, None, lib);
    }
  }

  /** `UpdateAudioPosition` keeps the invariant. */
  lemma TickKeepsInv(s: State, playing: bool, enginePosition: real, loop: LoopMode, lib: Library)
    requires Inv(s) && Openable(lib) && TickDefined(s, loop)
    ensures Inv(Tick(s, playing, enginePosition, loop, lib))
  {
    if !playing {
      if loop == LoopSong && FindPath(s.slots, s.currentPath) != -1 {
        PlayKeepsInv(s, s.currentPath.value, lib);
      } else if loop == LoopAll && !s.loopLock && FindPath(s.slots, s.currentPath) != -1 {
        PlayKeepsInv(s.(loopLock := true), s.slots[NextIndex(s.slots, s.currentIndex)].path, lib);
      } else if loop == LoopAll && FindPath(s.slots, s.currentPath) != -1 {
        PlayKeepsInv(s, s.slots[s.currentIndex].path, lib);
      }
    }
  }

  /** While the engine plays, a tick only clears the loop lock and refreshes the position. */
  lemma TickWhilePlaying(s: State, enginePosition: real, loop: LoopMode, lib: Library)
    requires Inv(s) && Openable(lib) && TickDefined(s, loop)
    ensures Tick(s, true, enginePosition, loop, lib) == s.(loopLock := false, position := enginePosition)
  {
  }

  /** With no loop, a track that has stopped is released and there is no current track. */
  lemma TickStopsWithoutLoop(s: State, enginePosition: real, lib: Library)
    requires Inv(s) && Openable(lib)
    ensures var r := Tick(s, false, enginePosition, LoopNone, lib);
      && !r.musicLoaded && r.currentIndex == -1
      && r.slots == s.slots && r.currentPath == s.currentPath && r.loopLock == s.loopLock
  {
  }

  /**
   * Looping one song: a stopped track still in the store is replayed from
   * position 0 at the slot holding it (its index, when that is the current
   * index); one no longer in the store is not.
   */
  lemma TickRepeatsSong(s: State, enginePosition: real, lib: Library)
    requires Inv(s) && Openable(lib)
    ensures var r := Tick(s, false, enginePosition, LoopSong, lib);
      && (FindPath(s.slots, s.currentPath) == -1 ==> r == s)
      && (FindPath(s.slots, s.currentPath) != -1 && s.currentPath.value in lib ==>
            && r.slots == s.slots
            && r.currentIndex == FindPath(s.slots, s.currentPath)
            && r.currentPath == s.currentPath
            && r.position == 0.0
            && r.musicLoaded)
  {
    if FindPath(s.slots, s.currentPath) != -1 && s.currentPath.value in lib {
      PlayLoads(s, s.currentPath.value, lib);
    }
  }

  /**
   * Looping all, first stopped frame: the lock is set and, when the current
   * track is still in the store, the slot `GetNextIndex` picks is played and
   * becomes current when it opens.
   */
  lemma TickAdvancesAll(s: State, enginePosition: real, lib: Library)
    requires Inv(s) && Openable(lib) && TickDefined(s, LoopAll) && !s.loopLock
    ensures var r := Tick(s, false, enginePosition, LoopAll, lib);
      && r.loopLock
      && (FindPath(s.slots, s.currentPath) == -1 ==> r == s.(loopLock := true))
      && (FindPath(s.slots, s.currentPath) != -1 ==>
            var next := NextIndex(s.slots, s.currentIndex);
            s.slots[next].path in lib ==>
              && r.slots == s.slots
              && r.currentIndex == next
              && r.currentPath == Some(s.slots[next].path)
              && r.position == 0.0
              && r.musicLoaded)
  {
    if FindPath(s.slots, s.currentPath) != -1 {
      var next := NextIndex(s.slots, s.currentIndex);
      var p := s.slots[next].path;
      if p in lib {
        var locked := s.(loopLock := true);
        assert HasSegment(p);
        PlaylistFacts.FindOccupied(s.slots, next);
        PlayLoads(locked, p, lib);
      }
    }
  }

  /**
   * Looping all, a further stopped frame with the lock set: the current slot
   * is replayed and stays current when it opens.
   */
  lemma TickRepeatsAll(s: State, enginePosition: real, lib: Library)
    requires Inv(s) && Openable(lib) && TickDefined(s, LoopAll) && s.loopLock
    ensures var r := Tick(s, false, enginePosition, LoopAll, lib);
      && (FindPath(s.slots, s.currentPath) == -1 ==> r == s)
      && (FindPath(s.slots, s.currentPath) != -1 && s.slots[s.currentIndex].path in lib ==>
            && r.slots == s.slots
            && r.currentIndex == s.currentIndex
            && r.position == 0.0
            && r.loopLock
            && r.musicLoaded)
  {
    if FindPath(s.slots, s.currentPath) != -1 {
      var p := s.slots[s.currentIndex].path;
      if p in lib {
        assert HasSegment(p);
        PlaylistFacts.FindOccupied(s.slots, s.currentIndex);
        PlayLoads(s, p, lib);
      }
    }
  }

  /**
   * Playing a path and then ticking while the engine still plays leaves the
   * store, the current index and the current path as the play left them and
   * only refreshes the position.
   */
  lemma PlayThenTickWhilePlaying(s: State, path: string, enginePosition: real, loop: LoopMode, lib: Library)
    requires Inv(s) && Openable(lib) && path in lib
    ensures Inv(Play(s, path, lib).state) && TickDefined(Play(s, path, lib).state, loop)
    ensures var played := Play(s, path, lib).state;
      var r := Tick(played, true, enginePosition, loop, lib);
      && r.slots == played.slots
      && r.currentIndex == played.currentIndex == FindPath(played.slots, Some(path))
      && r.currentPath == Some(path)
      && r.position == enginePosition
      && !r.loopLock
  {
    PlayKeepsInv(s, path, lib);
    PlayLoads(s, path, lib);
  }

  /**
   * `TickDefined` is not kept by the tick itself: playing a track and letting
   * it end with no loop leaves no current index while the track is still in
   * the store, so a later looping-all frame would read `Audio[-1]`.
   */
  lemma StoppedTrackLeavesLoopAllUndefined(lib: Library)
    requires Openable(lib) && "a" in lib
    ensures Inv(Play(Initial, "a", lib).state)
    ensures var stopped := Tick(Play(Initial, "a", lib).state, false, 0.0, LoopNone, lib);
      Inv(stopped) && !TickDefined(stopped, LoopAll)
  {
    assert Consistent(Initial.slots);
    PlayKeepsInv(Initial, "a", lib);
    PlayLoads(Initial, "a", lib);
    var played := Play(Initial, "a", lib).state;
    TickKeepsInv(played, false, 0.0, LoopNone, lib);
  }
}
