/**
 * src/audio.c as a class: the `Audio` array, `SA_TotalAudio` and the
 * transport globals are fields; each function of the file is a method
 * proved against the value-level statement in modules Playlist and
 * Transport.
 */
module Audio {
  import opened Wrappers
  import opened Playlist
  import opened LoopModes
  import Transport
  import PlaylistFacts

  /** `LayoutOrder -= 1` on a 32-bit unsigned field. */
  function Decrement32(x: nat): nat {
    if x == 0 then 0xFFFF_FFFF else x - 1
  }

  /**
   * The title fallback of `AddAudio`: walk the path with `strspn`/`strcspn`,
   * remember where the last segment starts, and take the path from there.
   */
  method TitleFallback(path: string) returns (title: string)
    requires HasSegment(path)
    ensures title == PathTitle(path)
  {
    var pos := 0;    // LocalPath - Path
    var last := -1;  // LastPathPointer - Path, -1 while unset
    while true
      invariant 0 <= pos <= |path|
      invariant -1 <= last < pos || (last == -1 && pos == 0)
      invariant last >= 0 ==> SegmentStart(path, last)
      invariant forall j :: last < j < pos ==> !SegmentStart(path, j)
      invariant pos == 0 || pos == |path| || path[pos] == Delimiter
      decreases |path| - pos
    {
      // LocalPath += strspn(LocalPath, PathDelimiter)
      ghost var start := pos;
      while pos < |path| && path[pos] == Delimiter
        invariant start <= pos <= |path|
        invariant forall j :: last < j < pos ==> !SegmentStart(path, j)
        invariant pos == start || path[pos - 1] == Delimiter
      {
        pos := pos + 1;
      }
      if pos == |path| {
        break;
      }
      last := pos;
      // LocalPath += strcspn(LocalPath, PathDelimiter)
      while pos < |path| && path[pos] != Delimiter
        invariant last <= pos <= |path|
        invariant forall j :: last < j < pos ==> !SegmentStart(path, j)
        invariant forall j :: last <= j < pos ==> path[j] != Delimiter
      {
        pos := pos + 1;
      }
    }
    ghost var k := LastSegmentStart(path);
    assert last == k;
    title := path[last..];
  }

  /**
   * The record `AddAudio` writes for a path that opened: the tag title or the
   * path's last segment, "N/A" for each empty tag, the category or "All".
   */
  method NewRecord(path: string, category: Option<string>, media: Media, index: nat) returns (record: Slot)
    requires media.title == "" ==> HasSegment(path)
    ensures record == NewSlot(path, category, media, index)
  {
    var title;
    if media.title != "" {
      title := media.title;
    } else {
      title := TitleFallback(path);
    }
    var artist := if media.artist == "" then MissingTag else media.artist;
    var copyright := if media.copyright == "" then MissingTag else media.copyright;
    var album := if media.album == "" then MissingTag else media.album;
    var list := if category.None? then DefaultCategory else category.value;
    record := Slot(path, title, artist, album, copyright, list, index);
  }

  // ---------------------------------------------------------------- growth counters

  /** The type of `i` in the growth loops: `uint16_t`. */
  type Counter16 = x: int | 0 <= x < 0x1_0000

  /** `i++` on a `uint16_t`. */
  function Increment16(i: Counter16): Counter16 {
    (i + 1) % 0x1_0000
  }

  /**
   * The zeroing loop of the growth step as written: it starts at
   * `SA_TotalAudio` truncated to 16 bits and runs while `i < SA_TotalAudio * 2`,
   * where the product is a 32-bit unsigned one.
   */
  function ZeroingLoopStart(total: nat): Counter16 {
    total % 0x1_0000
  }

  predicate ZeroingLoopContinues(i: Counter16, total: nat) {
    i < (2 * total) % 0x1_0000_0000
  }

  /**
   * As written, growing a store of 32768 slots or more (and below 2^31, where
   * the doubled size still fits in 32 bits) never finishes: every value a
   * 16-bit counter can take passes the guard, so the loop runs again after
   * every increment. `Grow` counts with an unbounded integer instead.
   */
  lemma ZeroingLoopNeverExits(total: nat, i: Counter16)
    requires 0x8000 <= total < 0x8000_0000
    ensures ZeroingLoopContinues(ZeroingLoopStart(total), total)
    ensures ZeroingLoopContinues(i, total) && ZeroingLoopContinues(Increment16(i), total)
  {
  }

  class Player {
    var audio: array<Slot>          // Audio
    var totalAudio: nat             // SA_TotalAudio
    var currentIndex: int           // AudioCurrentIndex
    var currentPath: Option<string> // AudioCurrentPath, held as a copy
    var loopLock: bool              // LoopLock
    var musicLoaded: bool           // Music != NULL
    var position: real              // AudioPosition

    ghost function State(): Transport.State
      reads this, audio
    {
      Transport.State(audio[..], currentIndex, currentPath, loopLock, musicLoaded, position)
    }

    ghost predicate Valid()
      reads this, audio
    {
      audio.Length == totalAudio && Transport.Inv(State())
    }

    /** `InitializeAudio`'s two-slot array, its slots taken as zeroed. */
    constructor ()
      ensures Valid() && fresh(audio)
      ensures State() == Transport.Initial
    {
      audio := new Slot[2](_ => EmptySlot);
      totalAudio := 2;
      currentIndex := -1;
      currentPath := None;
      loopLock := false;
      musicLoaded := false;
      position := 0.0;
      new;
      assert audio[..] == [EmptySlot, EmptySlot];
    }

    method AudioRemove(index: nat)
      requires Valid() && index <= totalAudio
      modifies audio
      ensures Valid()
      ensures audio[..] == Remove(old(audio[..]), index)
    {
      if index == totalAudio || !Occupied(audio[index]) {
        return;
      }
      audio[index] := EmptySlot;
      for i := index + 1 to totalAudio
        invariant audio[..] == old(audio[..])[index := EmptySlot]
      {
        // the renumbering tests slot `index`, just cleared, so it never decrements
        var cleared := audio[index];
        audio[index] := if Occupied(cleared) then cleared.(layoutOrder := Decrement32(cleared.layoutOrder)) else cleared;
      }
      PlaylistFacts.RemoveKeepsConsistent(old(audio[..]), index);
    }

    method GetEmptyIndex() returns (r: int)
      requires Valid()
      ensures r == FirstEmpty(audio[..])
    {
      for i := 0 to totalAudio
        invariant forall j :: 0 <= j < i ==> Occupied(audio[j])
      {
        if !Occupied(audio[i]) {
          return i;
        }
      }
      return -1;
    }

    method GetNextIndex(index: nat) returns (r: nat)
      requires Valid() && index < totalAudio
      ensures r == NextIndex(audio[..], index)
    {
      var layoutOrder := audio[index].layoutOrder;
      for i := 0 to totalAudio
        invariant forall j :: 0 <= j < i ==> !IsSuccessor(audio[..], index, j)
      {
        if !Occupied(audio[index]) {
          continue;
        }
        if audio[i].layoutOrder <= layoutOrder {
          continue;
        }
        if audio[index].assignedList == audio[i].assignedList {
          assert IsSuccessor(audio[..], index, i);
          return i;
        }
      }
      return 0;
    }

    method GetAudioIndex(path: Option<string>) returns (r: int)
      requires Valid()
      ensures r == FindPath(audio[..], path)
    {
      if path.None? {
        return -1;
      }
      for i := 0 to totalAudio
        invariant forall j :: 0 <= j < i ==> !HoldsPath(audio[j], path.value)
      {
        if !Occupied(audio[i]) {
          continue;
        }
        if audio[i].path == path.value {
          return i;
        }
      }
      return -1;
    }

    /** The growth step of `AddAudio`: a new array of twice the size, old slots copied, the rest zeroed. */
    method Grow()
      requires Valid()
      modifies this
      ensures Valid() && fresh(audio)
      ensures totalAudio == 2 * old(totalAudio)
      ensures audio[..] == Grown(old(audio[..]))
      ensures currentIndex == old(currentIndex) && currentPath == old(currentPath)
      ensures loopLock == old(loopLock) && musicLoaded == old(musicLoaded) && position == old(position)
    {
      var current, total := audio, totalAudio;
      var grown := new Slot[2 * total];
      for i := 0 to total
        modifies grown
        invariant forall j :: 0 <= j < i ==> grown[j] == current[j]
      {
        grown[i] := current[i];
      }
      for i := total to 2 * total
        modifies grown
        invariant forall j :: 0 <= j < total ==> grown[j] == current[j]
        invariant forall j :: total <= j < i ==> grown[j] == EmptySlot
      {
        grown[i] := EmptySlot;
      }
      assert grown[..] == Grown(current[..]);
      PlaylistFacts.GrownKeepsConsistent(audio[..]);
      totalAudio := 2 * totalAudio;
      audio := grown;
    }

    method AddAudio(path: string, category: Option<string>, lib: Library) returns (index: int)
      requires Valid() && Openable(lib)
      modifies this, audio
      ensures Valid()
      ensures audio == old(audio) || fresh(audio)
      ensures AddOutcome(audio[..], index) == Add(old(audio[..]), path, category, lib)
      ensures currentIndex == old(currentIndex) && currentPath == old(currentPath)
      ensures loopLock == old(loopLock) && musicLoaded == old(musicLoaded) && position == old(position)
    {
      ghost var slots := audio[..];
      var found := GetAudioIndex(Some(path));
      if found != -1 {
        return -1;
      }
      index := GetEmptyIndex();
      if index == -1 {
        index := totalAudio;
        Grow();
      }
      ghost var store := audio[..];
      assert store == if FirstEmpty(slots) == -1 then Grown(slots) else slots;
      assert index == if FirstEmpty(slots) == -1 then |slots| else FirstEmpty(slots);
      // Mix_LoadMUS
      if path !in lib {
        return -1;
      }
      var record := NewRecord(path, category, lib[path], index);
      audio[index] := record;
      assert audio[..] == store[index := record];
      PlaylistFacts.AddKeepsConsistent(old(audio[..]), path, category, lib);
    }

    method PlayAudio(path: string, lib: Library) returns (loopLength: real)
      requires Valid() && Openable(lib)
      modifies this, audio
      ensures Valid()
      ensures audio == old(audio) || fresh(audio)
      ensures State() == Transport.Play(old(State()), path, lib).state
      ensures loopLength == Transport.Play(old(State()), path, lib).loopLength
    {
      ghost var before := State();
      Transport.PlayKeepsInv(before, path, lib);
      var index := GetAudioIndex(Some(path));
      if index == -1 {
        index := AddAudio(path, None, lib);
      }
      // Mix_FreeMusic on the loaded media
      if musicLoaded {
        musicLoaded := false;
      }
      // Mix_LoadMUS
      musicLoaded := path in lib;
      if musicLoaded {
        currentIndex := index;
        currentPath := Some(path);
        position := 0.0;
        return lib[path].loopLength;
      }
      return 0.0;
    }

    /** One frame of `UpdateAudioPosition`; `playing` is `Mix_PlayingMusic()`. */
    method UpdateAudioPosition(playing: bool, enginePosition: real, loop: LoopMode, lib: Library)
      requires Valid() && Openable(lib) && Transport.TickDefined(State(), loop)
      modifies this, audio
      ensures Valid()
      ensures audio == old(audio) || fresh(audio)
      ensures State() == Transport.Tick(old(State()), playing, enginePosition, loop, lib)
    {
      if playing {
        loopLock := false;
        position := enginePosition;
      } else if loop == LoopSong {
        var found := GetAudioIndex(currentPath);
        if found != -1 {
          var _ := PlayAudio(currentPath.value, lib);
        }
      } else if loop == LoopAll && !loopLock {
        loopLock := true;
        var found := GetAudioIndex(currentPath);
        if found != -1 {
          var next := GetNextIndex(currentIndex);
          var _ := PlayAudio(audio[next].path, lib);
        }
      } else if loop == LoopAll && loopLock {
        var found := GetAudioIndex(currentPath);
        if found != -1 {
          var _ := PlayAudio(audio[currentIndex].path, lib);
        }
      } else if loop == LoopNone {
        musicLoaded := false;
        currentIndex := -1;
      }
    }
  }
}
