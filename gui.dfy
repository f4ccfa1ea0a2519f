/**
 * The event logic of src/gui.c without the rendering: the loop-mode and
 * pause buttons, the directory scan, the playlist rows and their clicks,
 * and the Remove popup.
 */
module Gui {
  import opened Wrappers
  import opened Playlist
  import opened LoopModes
  import Transport
  import PlaylistFacts
  import Audio

  // ---------------------------------------------------------------- loop and pause buttons

  /** The loop button's cycle: no loop, then looping the song, then looping all. */
  function NextLoopMode(m: LoopMode): (r: LoopMode)
    ensures r != m
  {
    match m
    case LoopNone => LoopSong
    case LoopSong => LoopAll
    case LoopAll => LoopNone
  }

  /** The loop button's label for each mode; each label names one mode. */
  function LoopLabel(m: LoopMode): (r: string)
    ensures r == "No loop" <==> m == LoopNone
    ensures r == "Looping song" <==> m == LoopSong
    ensures r == "Looping all" <==> m == LoopAll
  {
    match m
    case LoopNone => "No loop"
    case LoopSong => "Looping song"
    case LoopAll => "Looping all"
  }

  /** Three clicks of the loop button restore the mode, and no fewer do. */
  lemma LoopCycleRestores(m: LoopMode)
    ensures NextLoopMode(m) != m && NextLoopMode(NextLoopMode(m)) != m
    ensures NextLoopMode(NextLoopMode(NextLoopMode(m))) == m
  {
  }

  /** The pause button names the action that undoes the current state. */
  function PauseLabel(paused: bool): (r: string)
    ensures r == "Resume" <==> paused
    ensures r == "Pause" <==> !paused
  {
    if paused then "Resume" else "Pause"
  }

  // ---------------------------------------------------------------- directory scan

  /** A directory entry as `readdir` and `stat` report it. */
  datatype DirEntry = DirEntry(name: string, isRegular: bool, statOk: bool)

  /** The scan passes an entry to `AddAudio`: not "." or "..", `stat` succeeded, a regular file. */
  function Admitted(e: DirEntry): (r: bool)
    ensures e.name == "." || e.name == ".." ==> !r
    ensures !e.statOk || !e.isRegular ==> !r
    ensures e.name != "." && e.name != ".." && e.statOk && e.isRegular ==> r
  {
    e.name != "." && e.name != ".." && e.statOk && e.isRegular
  }

  /** `FullPath` after the join: the directory, one delimiter, the entry's name. */
  function JoinPath(dir: string, name: string): (r: string)
    ensures |r| == |dir| + 1 + |name|
    ensures r[..|dir|] == dir && r[|dir|] == Delimiter && r[|dir| + 1..] == name
  {
    dir + "/" + name
  }

  /** The paths the scan of `dir` adds, in `readdir` order. */
  function ScanTargets(dir: string, entries: seq<DirEntry>): (r: seq<string>)
    ensures |r| <= |entries|
    ensures forall e :: e in entries && Admitted(e) ==> JoinPath(dir, e.name) in r
    ensures forall p :: p in r ==> exists e :: e in entries && Admitted(e) && p == JoinPath(dir, e.name)
  {
    if entries == [] then []
    else
      var rest := entries[..|entries| - 1];
      var last := entries[|entries| - 1];
      assert entries == rest + [last];
      ScanTargets(dir, rest) + (if Admitted(last) then [JoinPath(dir, last.name)] else [])
  }

  /** `AddAudio` (no category) on each path in turn. */
  function AddAll(slots: seq<Slot>, paths: seq<string>, lib: Library): (r: seq<Slot>)
    requires |slots| > 0 && Openable(lib)
    ensures |r| >= |slots|
  {
    if paths == [] then slots
    else Add(AddAll(slots, paths[..|paths| - 1], lib), paths[|paths| - 1], None, lib).slots
  }

  /** One more entry: the targets grow by that entry's join when it is admitted. */
  lemma ScanTargetsStep(dir: string, entries: seq<DirEntry>, k: nat)
    requires k < |entries|
    ensures ScanTargets(dir, entries[..k + 1]) ==
      ScanTargets(dir, entries[..k]) + (if Admitted(entries[k]) then [JoinPath(dir, entries[k].name)] else [])
  {
    assert entries[..k + 1][..k] == entries[..k];
  }

  /** One more path: adding it last is one more `AddAudio`. */
  lemma AddAllStep(slots: seq<Slot>, paths: seq<string>, p: string, lib: Library)
    requires |slots| > 0 && Openable(lib)
    ensures AddAll(slots, paths + [p], lib) == Add(AddAll(slots, paths, lib), p, None, lib).slots
  {
    assert (paths + [p])[..|paths|] == paths;
  }

  /** Adding a sequence of paths keeps a consistent store consistent. */
  lemma {:induction false} AddAllKeepsConsistent(slots: seq<Slot>, paths: seq<string>, lib: Library)
    requires |slots| > 0 && Openable(lib) && Consistent(slots)
    ensures Consistent(AddAll(slots, paths, lib))
  {
    if paths != [] {
      var init := paths[..|paths| - 1];
      AddAllKeepsConsistent(slots, init, lib);
      PlaylistFacts.AddKeepsConsistent(AddAll(slots, init, lib), paths[|paths| - 1], None, lib);
    }
  }

  /** Adding a sequence of paths leaves every occupied slot as it was. */
  lemma {:induction false} AddAllKeepsOccupied(slots: seq<Slot>, paths: seq<string>, lib: Library)
    requires |slots| > 0 && Openable(lib)
    ensures var r := AddAll(slots, paths, lib);
      forall i :: 0 <= i < |slots| && Occupied(slots[i]) ==> r[i] == slots[i]
  {
    if paths != [] {
      var init := paths[..|paths| - 1];
      AddAllKeepsOccupied(slots, init, lib);
      PlaylistFacts.AddKeepsOccupied(AddAll(slots, init, lib), paths[|paths| - 1], None, lib);
    }
  }

  /** After adding a sequence of paths, each of them that opens is in the store. */
  lemma {:induction false} AddAllFindsOpened(slots: seq<Slot>, paths: seq<string>, lib: Library)
    requires |slots| > 0 && Openable(lib)
    ensures var r := AddAll(slots, paths, lib);
      forall p :: p in paths && p in lib ==> FindPath(r, Some(p)) != -1
  {
    if paths != [] {
      var init := paths[..|paths| - 1];
      var last := paths[|paths| - 1];
      assert paths == init + [last];
      AddAllFindsOpened(slots, init, lib);
      var mid := AddAll(slots, init, lib);
      var r := AddAll(slots, paths, lib);
      PlaylistFacts.AddKeepsOccupied(mid, last, None, lib);
      forall p | p in paths && p in lib
        ensures FindPath(r, Some(p)) != -1
      {
        var k := FindPath(mid, Some(p));
        if k != -1 {
          assert HoldsPath(r[k], p);
        } else {
          assert p !in init;
          PlaylistFacts.AddSuccess(mid, last, None, lib);
        }
      }
    }
  }

  /** Adding a sequence of paths occupies slots with those paths only. */
  lemma {:induction false} AddAllOccupiesOnlyPaths(slots: seq<Slot>, paths: seq<string>, lib: Library)
    requires |slots| > 0 && Openable(lib)
    ensures var r := AddAll(slots, paths, lib);
      forall i :: 0 <= i < |r| && Occupied(r[i]) ==> (i < |slots| && r[i] == slots[i]) || r[i].path in paths
  {
    if paths != [] {
      var init := paths[..|paths| - 1];
      var last := paths[|paths| - 1];
      assert paths == init + [last];
      AddAllOccupiesOnlyPaths(slots, init, lib);
      PlaylistFacts.AddOccupiesOnlyPath(AddAll(slots, init, lib), last, None, lib);
    }
  }

  /**
   * What a scan does to a consistent store: it stays consistent, occupied
   * slots stay, each admitted entry whose joined path opens is present, and
   * every newly occupied slot holds the joined path of an admitted entry.
   */
  lemma ScanAddsAdmittedFiles(slots: seq<Slot>, dir: string, entries: seq<DirEntry>, lib: Library)
    requires |slots| > 0 && Openable(lib) && Consistent(slots)
    ensures var r := AddAll(slots, ScanTargets(dir, entries), lib);
      && Consistent(r)
      && (forall i :: 0 <= i < |slots| && Occupied(slots[i]) ==> r[i] == slots[i])
      && (forall e :: e in entries && Admitted(e) && JoinPath(dir, e.name) in lib ==>
            FindPath(r, Some(JoinPath(dir, e.name))) != -1)
      && (forall i :: 0 <= i < |r| && Occupied(r[i]) && !(i < |slots| && r[i] == slots[i]) ==>
            exists e :: e in entries && Admitted(e) && r[i].path == JoinPath(dir, e.name))
  {
    var targets := ScanTargets(dir, entries);
    AddAllKeepsConsistent(slots, targets, lib);
    AddAllKeepsOccupied(slots, targets, lib);
    AddAllFindsOpened(slots, targets, lib);
    AddAllOccupiesOnlyPaths(slots, targets, lib);
  }

  /**
   * Scanning `dir`: "." and ".." are skipped, each joined path is built from
   * the directory prefix (`FullPath[PathLen] = '\0'` before each join), an
   * entry whose `stat` fails or that is not a regular file is skipped, and
   * every other entry is added with no category.
   */
  method ScanDirectory(player: Audio.Player, dir: string, entries: seq<DirEntry>, lib: Library)
    requires player.Valid() && Openable(lib)
    modifies player, player.audio
    ensures player.Valid()
    ensures player.audio[..] == AddAll(old(player.audio[..]), ScanTargets(dir, entries), lib)
    ensures player.currentIndex == old(player.currentIndex) && player.currentPath == old(player.currentPath)
    ensures player.loopLock == old(player.loopLock) && player.musicLoaded == old(player.musicLoaded)
    ensures player.position == old(player.position)
  {
    var fullPath := dir;  // memcpy(FullPath, Path, PathLen)
    for k := 0 to |entries|
      invariant player.Valid()
      invariant player.audio == old(player.audio) || fresh(player.audio)
      invariant |fullPath| >= |dir| && fullPath[..|dir|] == dir
      invariant player.audio[..] == AddAll(old(player.audio[..]), ScanTargets(dir, entries[..k]), lib)
      invariant player.currentIndex == old(player.currentIndex) && player.currentPath == old(player.currentPath)
      invariant player.loopLock == old(player.loopLock) && player.musicLoaded == old(player.musicLoaded)
      invariant player.position == old(player.position)
    {
      var entry := entries[k];
      ScanTargetsStep(dir, entries, k);
      ghost var targets := ScanTargets(dir, entries[..k]);
      if entry.name == "." || entry.name == ".." {
        assert ScanTargets(dir, entries[..k + 1]) == targets;
        continue;
      }
      fullPath := fullPath[..|dir|] + "/" + entry.name;
      assert fullPath == JoinPath(dir, entry.name);
      if !entry.statOk {
        assert ScanTargets(dir, entries[..k + 1]) == targets;
        continue;
      }
      if entry.isRegular {
        assert ScanTargets(dir, entries[..k + 1]) == targets + [fullPath];
        AddAllStep(old(player.audio[..]), targets, fullPath, lib);
        var _ := player.AddAudio(fullPath, None, lib);
      } else {
        assert ScanTargets(dir, entries[..k + 1]) == targets;
      }
    }
    assert entries[..|entries|] == entries;
  }

  /** "Choose file": add the chosen path, if the dialog returned one. */
  method ChooseFile(player: Audio.Player, chosen: Option<string>, lib: Library)
    requires player.Valid() && Openable(lib)
    modifies player, player.audio
    ensures player.Valid()
    ensures chosen.None? ==> player.audio[..] == old(player.audio[..])
    ensures chosen.Some? ==> player.audio[..] == Add(old(player.audio[..]), chosen.value, None, lib).slots
    ensures player.currentIndex == old(player.currentIndex) && player.musicLoaded == old(player.musicLoaded)
    ensures player.currentPath == old(player.currentPath) && player.loopLock == old(player.loopLock)
    ensures player.position == old(player.position)
  {
    if chosen.Some? {
      var _ := player.AddAudio(chosen.value, None, lib);
    }
  }

  // ---------------------------------------------------------------- playlist rows

  /** The slots listed as rows of the playlist panel: the occupied ones, in slot order. */
  function Rows(slots: seq<Slot>): (r: seq<nat>)
    ensures forall k :: 0 <= k < |r| ==> r[k] < |slots| && Occupied(slots[r[k]])
    ensures forall i :: 0 <= i < |slots| && Occupied(slots[i]) ==> i in r
    ensures forall k, l :: 0 <= k < l < |r| ==> r[k] < r[l]
  {
    RowsBelow(slots, |slots|)
  }

  function RowsBelow(slots: seq<Slot>, n: nat): (r: seq<nat>)
    requires n <= |slots|
    ensures forall k :: 0 <= k < |r| ==> r[k] < n && Occupied(slots[r[k]])
    ensures forall i :: 0 <= i < n && Occupied(slots[i]) ==> i in r
    ensures forall k, l :: 0 <= k < l < |r| ==> r[k] < r[l]
  {
    if n == 0 then []
    else RowsBelow(slots, n - 1) + (if Occupied(slots[n - 1]) then [n - 1] else [])
  }

  /** A mouse press on one row's control (`mouse_pressed` with the row in focus). */
  datatype Press = NoPress | LeftPress | RightPress

  /** The statics of src/gui.c that the event logic updates. */
  class Controls {
    var loopStatus: LoopMode        // LoopStatus
    var loopButtonText: string      // LoopButtonText
    var interactButtonText: string  // InteractButtonText
    var selectedAudio: nat          // SelectedAudio
    var menuOpen: bool              // the "Menu" popup is open

    ghost predicate Valid()
      reads this
    {
      loopButtonText == LoopLabel(loopStatus)
    }

    constructor ()
      ensures Valid()
      ensures loopStatus == LoopNone && interactButtonText == PauseLabel(false)
      ensures selectedAudio == 0 && !menuOpen
    {
      loopStatus := LoopNone;
      loopButtonText := "No loop";
      interactButtonText := "Pause";
      selectedAudio := 0;
      menuOpen := false;
    }

    /** The loop button: advance the mode and relabel. */
    method ClickLoop()
      requires Valid()
      modifies this
      ensures Valid()
      ensures loopStatus == NextLoopMode(old(loopStatus))
      ensures interactButtonText == old(interactButtonText)
      ensures selectedAudio == old(selectedAudio) && menuOpen == old(menuOpen)
    {
      if loopStatus == LoopNone {
        loopButtonText := "Looping song";
        loopStatus := LoopSong;
      } else if loopStatus == LoopSong {
        loopButtonText := "Looping all";
        loopStatus := LoopAll;
      } else if loopStatus == LoopAll {
        loopButtonText := "No loop";
        loopStatus := LoopNone;
      }
    }

    /**
     * The pause button, given `Mix_PausedMusic()`: resume a paused engine or
     * pause a running one, and label the button with the opposite action.
     */
    method ClickPause(paused: bool) returns (nowPaused: bool)
      modifies this
      ensures nowPaused == !paused
      ensures interactButtonText == PauseLabel(nowPaused)
      ensures loopStatus == old(loopStatus) && loopButtonText == old(loopButtonText)
      ensures selectedAudio == old(selectedAudio) && menuOpen == old(menuOpen)
    {
      if paused {
        nowPaused := false;  // Mix_ResumeMusic
        interactButtonText := "Pause";
      } else {
        nowPaused := true;   // Mix_PauseMusic
        interactButtonText := "Resume";
      }
    }

    /**
     * `PAP_AudioButton`: a left press plays the row's path; a right press on
     * a row other than the current track opens the Remove popup for it.
     */
    method AudioButton(player: Audio.Player, audioId: nat, press: Press, lib: Library)
      requires player.Valid() && Openable(lib) && audioId < player.totalAudio
      modifies this, player, player.audio
      ensures player.Valid()
      ensures press == LeftPress ==>
        && player.State() == Transport.Play(old(player.State()), old(player.audio[audioId].path), lib).state
        && selectedAudio == old(selectedAudio) && menuOpen == old(menuOpen)
      ensures press == RightPress && audioId != old(player.currentIndex) ==>
        && player.State() == old(player.State())
        && menuOpen && selectedAudio == audioId
      ensures (press == NoPress || (press == RightPress && audioId == old(player.currentIndex))) ==>
        && player.State() == old(player.State())
        && selectedAudio == old(selectedAudio) && menuOpen == old(menuOpen)
      ensures loopStatus == old(loopStatus) && loopButtonText == old(loopButtonText)
      ensures interactButtonText == old(interactButtonText)
    {
      if press == LeftPress {
        var _ := player.PlayAudio(player.audio[audioId].path, lib);
      } else if press == RightPress && audioId != player.currentIndex {
        menuOpen := true;
        selectedAudio := audioId;
      }
    }

    /** The popup's "Remove" button: remove the selected slot and close the popup. */
    method ClickRemove(player: Audio.Player)
      requires player.Valid() && selectedAudio <= player.totalAudio
      modifies this, player.audio
      ensures player.Valid()
      ensures !menuOpen && selectedAudio == old(selectedAudio)
      ensures player.audio[..] == Remove(old(player.audio[..]), selectedAudio)
      ensures loopStatus == old(loopStatus) && loopButtonText == old(loopButtonText)
      ensures interactButtonText == old(interactButtonText)
    {
      player.AudioRemove(selectedAudio);
      menuOpen := false;
    }
  }
}
