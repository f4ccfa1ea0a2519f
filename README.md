# Puius Audio Player — playlist store and transport, in Dafny

This project models the core of a small desktop audio player: the playlist
slot table and the transport state machine of `src/audio.c`, and the event
logic of `src/gui.c` (loop-mode button, pause button, directory scan,
playlist rows, row clicks and the Remove popup), without any rendering.

- `playlist.dfy` (module `Playlist`): the track record `Slot`, the decoder
  as an oracle (`Library`: a map from each path the decoder can open to its
  tags and loop length), and value-level definitions of the slot-table
  operations: `FindPath` (`GetAudioIndex`), `FirstEmpty` (`GetEmptyIndex`),
  `NextIndex` (`GetNextIndex`), `Remove` (`AudioRemove`), `Add`
  (`AddAudio`) with its title fallback `LastSegmentStart`/`PathTitle`, and
  the store invariant `Consistent`.
- `playlist_facts.dfy` (module `PlaylistFacts`): what those operations
  promise, as lemmas.
- `loop_modes.dfy` (module `LoopModes`): `enum LoopEnum` of `src/gui.h`.
- `transport.dfy` (module `Transport`): the transport globals plus the store
  as a value `State`, `Play` (`PlayAudio`) and `Tick` (one frame of
  `UpdateAudioPosition`), and lemmas about them.
- `audio.dfy` (module `Audio`): `src/audio.c` in its own imperative form. A
  class `Player` holds the `Audio` array (`array<Slot>`), `SA_TotalAudio` and
  the transport globals; each function of the file is a method (the scans,
  the growth and the title walk with their loops), proved to produce exactly
  what the value-level definition says.
- `gui.dfy` (module `Gui`): the button logic, the directory scan loop over a
  list of entries, the rows of the playlist panel, and a class `Controls`
  holding the statics of `src/gui.c`.

Inputs that come from outside the program are parameters. The decoder
(`Mix_LoadMUS` and the tag getters) is the `Library` map. The engine's
playing and paused flags and its reported position are arguments of the
methods that read them. Directory entries arrive as a list of
(name, regular file, `stat` succeeded). Mouse presses arrive as a `Press` value.

Where the code and the design description disagree, the model follows the
code:
- `GetNextIndex` returns the lowest slot index that passes its test. It does
  not search for the smallest `LayoutOrder`. The two agree because an
  occupied slot's `LayoutOrder` always equals its index
  (`PlaylistFacts.NextIndexIsNextInCategory`).
- `AudioRemove` checks only `Index == SA_TotalAudio`, not a general range.
- The fallback title is copied from the start of the last segment to the end
  of the path (`strlen(LastPathPointer)`). So trailing delimiters stay in
  it: `"a/b/"` gets the title `"b/"`.

## Model

| member | source | states |
|---|---|---|
| Playlist.FindPath | src/audio.c:88-101 | -1 for a NULL path or a path held by no occupied slot; otherwise the lowest occupied slot whose path equals it; never an empty slot |
| Playlist.FirstEmpty | src/audio.c:64-69 | -1 exactly when every slot is occupied; otherwise the lowest empty slot |
| Playlist.NextIndex | src/audio.c:71-86 | 0 when the source slot is empty; otherwise the lowest slot with a larger `LayoutOrder` and an equal category; 0 when there is none |
| Playlist.LastSegmentStart | src/audio.c:151-158 | for a path with a non-delimiter character, the start of its last run of non-delimiter characters |
| Playlist.Remove | src/audio.c:50-62 | the store keeps its size; at `SA_TotalAudio` or on an empty slot nothing changes; otherwise that slot becomes empty and every other slot stays |
| Playlist.PathTitle | src/audio.c:147-161 | a non-empty suffix of the path that starts right after a delimiter (or at the start) with a non-delimiter, and holds one segment followed only by delimiters |
| Playlist.NewSlot | src/audio.c:142-178 | the record holds the path, `LayoutOrder` = index, the category or "All"; title and tags are never blank: a present tag or title is kept, an empty tag becomes "N/A", and an empty title becomes `PathTitle` of the path |
| Playlist.Grown | src/audio.c:119-133 | twice the capacity, the old slots first at their indices, every new slot zero |
| Playlist.Add | src/audio.c:103-182 | the store keeps or doubles its capacity, and the result is -1 or a slot of the new store |
| PlaylistFacts.FindOccupied | src/audio.c:88-101 | in a consistent store, looking up an occupied slot's path returns that slot |
| PlaylistFacts.SuccessorIsOccupied | src/audio.c:71-86 | in a consistent store, every slot passing `GetNextIndex`'s test is occupied, so testing `Audio[Index]` instead of `Audio[i]` lets no empty slot through |
| PlaylistFacts.NextIndexIsNextInCategory | src/audio.c:71-86 | from an occupied slot: either the next occupied same-category slot after it, which also has the smallest larger `LayoutOrder` of that category, or 0 when no later slot shares the category |
| PlaylistFacts.AddRejectsDuplicate | src/audio.c:104-107 | a path already present gives -1 and an unchanged store, with no growth |
| PlaylistFacts.AddFillsFirstEmpty | src/audio.c:109-111 | with an empty slot available: no growth, only the lowest empty slot may change and it is the returned index; a load failure changes nothing |
| PlaylistFacts.AddGrowsWhenFull | src/audio.c:119-133 | with no empty slot: capacity doubles, old slots stay at their indices, the new half is zeroed except the record put at the old capacity |
| PlaylistFacts.AddLoadFailure | src/audio.c:135-140 | a path that does not open gives -1, old slots unchanged, any added slots empty (growth stays) |
| PlaylistFacts.AddSuccess | src/audio.c:142-181 | the filled slot holds the path, `LayoutOrder` = index, category or "All", "N/A" for each empty tag, the tag title or the last path segment; the path is then found at that index |
| PlaylistFacts.AddKeepsOccupied | src/audio.c:111-178 | adding changes no occupied slot |
| PlaylistFacts.AddOccupiesOnlyPath | src/audio.c:171-178 | adding occupies no slot except with the added path |
| PlaylistFacts.GrownKeepsConsistent | src/audio.c:120-132 | growth keeps the store invariant |
| PlaylistFacts.AddKeepsConsistent | src/audio.c:103-182 | adding keeps the store invariant (empty slots zero, `LayoutOrder` = index, unique paths) |
| PlaylistFacts.RemoveIsIdempotent | src/audio.c:50-54 | removing the same slot twice is the same as removing it once: the second call takes the early return for an empty slot |
| PlaylistFacts.RemoveKeepsConsistent | src/audio.c:50-62 | removal keeps the store invariant |
| PlaylistFacts.RemovedPathNotFound | src/audio.c:50-62 | after removing an occupied slot, its path is not found |
| PlaylistFacts.RemovedSlotIsReused | src/audio.c:50-69 | after a removal, adding a new path that opens reuses a slot at or below the removed one, without growth |
| PlaylistFacts.TwoTracksScenario | src/audio.c:103-182 | adding A then B to a fresh store uses slots 0 and 1, and the next track after A is B |
| Transport.Play | src/audio.c:210-242 | media is loaded exactly when the path opens; the lock stays; the store only grows and keeps every occupied slot; on success the path is current at a slot holding it, from 0, and its loop length is returned; on failure 0 is returned and index, path and position stay |
| Transport.Tick | src/audio.c:184-208 | the store only grows and keeps every occupied slot; while playing only the lock is cleared and the position refreshed; with no loop a stopped track is released and the index is -1; looping all sets the lock |
| Transport.StoppedTrackLeavesLoopAllUndefined | src/audio.c:192-205 | after a track plays and ends with no loop, the index is -1 while the path is still in the store, so the looping-all read of `Audio[AudioCurrentIndex]` is out of range |
| Transport.PlayKeepsInv | src/audio.c:210-242 | `PlayAudio` keeps the store invariant and the current index in range |
| Transport.PlayLoads | src/audio.c:210-239 | on a successful load: media loaded, current index = the slot holding the path (found or added), current path set, position 0, loop lock untouched, loop length returned |
| Transport.PlayLoadFailure | src/audio.c:213-221 | on a failed load: nothing loaded, 0 returned, current index, path and position untouched, no new occupied slot |
| Transport.TickKeepsInv | src/audio.c:184-208 | a tick keeps the invariant |
| Transport.TickWhilePlaying | src/audio.c:185-187 | while the engine plays, a tick only clears the loop lock and refreshes the position |
| Transport.TickStopsWithoutLoop | src/audio.c:201-205 | with no loop, a stopped tick releases the media and sets the index to -1 |
| Transport.TickRepeatsSong | src/audio.c:189-191 | looping a song replays the current path from 0 at its slot when it is still in the store, and does nothing otherwise |
| Transport.TickAdvancesAll | src/audio.c:192-196 | looping all with the lock clear sets the lock and plays the slot `GetNextIndex` picks, which becomes current when it opens |
| Transport.TickRepeatsAll | src/audio.c:197-200 | looping all with the lock set replays the current slot, whose index stays |
| Transport.PlayThenTickWhilePlaying | src/audio.c:184-187 | a play followed by a tick while playing keeps the store, index and path and only refreshes the position |
| Audio.TitleFallback | src/audio.c:147-161 | the `strspn`/`strcspn` walk yields the path from the start of its last segment |
| Audio.NewRecord | src/audio.c:142-178 | the record written for a path that opened is the one `Add` specifies |
| Audio.ZeroingLoopNeverExits | src/audio.c:127-128 | with at least 32768 and fewer than 2^31 slots (the doubled size's 32-bit product does not wrap), every 16-bit counter value passes the zeroing loop's guard, so growth never ends |
| Audio.Player.constructor | src/audio.c:27-45 | two empty slots, no current track, nothing loaded |
| Audio.Player.AudioRemove | src/audio.c:50-62 | the array becomes `Remove` of the old one (the renumber loop runs and changes nothing) |
| Audio.Player.GetEmptyIndex | src/audio.c:64-69 | the scan returns `FirstEmpty` of the array |
| Audio.Player.GetNextIndex | src/audio.c:71-86 | the scan returns `NextIndex` of the array |
| Audio.Player.GetAudioIndex | src/audio.c:88-101 | the scan returns `FindPath` of the array |
| Audio.Player.Grow | src/audio.c:119-133 | a fresh array of twice the size holding the old slots then zeroed slots |
| Audio.Player.AddAudio | src/audio.c:103-182 | array and result are exactly `Add` of the old array; transport state untouched |
| Audio.Player.PlayAudio | src/audio.c:210-242 | state and result are exactly `Play` of the old state |
| Audio.Player.UpdateAudioPosition | src/audio.c:184-208 | the new state is exactly `Tick` of the old state |
| Gui.NextLoopMode | src/gui.c:232-243 | the loop button always changes the mode |
| Gui.LoopLabel | src/gui.c:232-243 | "No loop", "Looping song" and "Looping all" each name exactly one mode |
| Gui.PauseLabel | src/gui.c:220-228 | the label is "Resume" exactly when the engine is paused and "Pause" exactly when it is not |
| Gui.LoopCycleRestores | src/gui.c:232-243 | three clicks restore the mode, one or two do not |
| Gui.Admitted | src/gui.c:130-143 | "." and "..", entries whose `stat` fails and entries that are not regular files are skipped; every other entry is added |
| Gui.JoinPath | src/gui.c:134-136 | the joined path is the directory, one delimiter and the entry name, so both parts can be read back |
| Gui.ScanTargets | src/gui.c:126-145 | every admitted entry's `Dir + "/" + Name` is a target, and every target is one |
| Gui.AddAll | src/gui.c:126-145 | adding in turn never shrinks the store |
| Gui.AddAllKeepsConsistent | src/gui.c:143-144 | a sequence of adds keeps the store invariant |
| Gui.AddAllKeepsOccupied | src/gui.c:143-144 | a sequence of adds changes no occupied slot |
| Gui.AddAllFindsOpened | src/gui.c:143-144 | after a sequence of adds each added path that opens is present |
| Gui.AddAllOccupiesOnlyPaths | src/gui.c:143-144 | a sequence of adds occupies slots only with those paths |
| Gui.ScanAddsAdmittedFiles | src/gui.c:126-145 | after a scan the store is consistent, old tracks stay, each admitted file that opens is present, and each new track is an admitted entry's joined path |
| Gui.ScanDirectory | src/gui.c:120-147 | the scan loop adds exactly `ScanTargets`, in order; the buffer is cut back to the directory prefix before each join |
| Gui.ChooseFile | src/gui.c:155-162 | the chosen path, if any, is added with no category |
| Gui.Rows | src/gui.c:189-197 | the rows are exactly the occupied slots, in increasing slot order |
| Gui.Controls.constructor | src/gui.c:17-34 | mode `LOOP_NONE` labelled "No loop", pause label "Pause" |
| Gui.Controls.ClickLoop | src/gui.c:232-243 | the mode advances, and the label stays `LoopLabel` of the mode |
| Gui.Controls.ClickPause | src/gui.c:220-228 | a paused engine is resumed and labelled "Pause", a running one paused and labelled "Resume" |
| Gui.Controls.AudioButton | src/gui.c:45-59 | a left press plays the row's path; a right press on a row other than the current track opens the popup and selects it; otherwise nothing changes |
| Gui.Controls.ClickRemove | src/gui.c:201-205 | "Remove" removes the selected slot and closes the popup |

## Left out

- SDL_mixer is not modelled: device opening and the `exit` on failure, play, pause and resume, position queries and seeking, volume, and freeing the temporary handle. Its answers enter as parameters.
- Floating point is left out: duration, loop start/end, the position and volume sliders, and the scroll-wheel arithmetic (including its division by zero for a one-step scroll). The position and the returned loop length are copied as reals and never computed with.
- All microui layout, drawing, windows, popups, colours and widget ids are left out. So are `TextWidth`/`TextHeight`, the file dialogs, and `opendir`/`readdir`/`stat`/`closedir`. The scan receives the entry list. "Directory is NULL" is the empty list.
- The Windows build is not modelled: it uses `\` as the delimiter and has no directory scan.
- Decoder oracle: both loads in `PlayAudio` get the same answer for a path. The decoder never opens `""` or a path made only of delimiters (`Openable`). This also rules out the fallback title's uninitialised `LastPathPointer`.
- C memory hazards are preconditions, not behaviour:
  - the first `malloc` is taken as zeroed;
  - `AudioRemove` requires `Index <= SA_TotalAudio`;
  - `UpdateAudioPosition` requires `AudioCurrentIndex >= 0` when looping all with the current path still present (`TickDefined`). Otherwise it would read `Audio[-1]` (with the lock set) or call `GetNextIndex(-1)`, which reads `Audio[0xFFFFFFFF]`. The tick does not keep this precondition, and the C program can reach the bad state: a track ends under `LOOP_NONE`, so the index becomes -1; the user switches to `LOOP_SONG` while the path is absent from the store or fails to open; the path is added again; the user switches to `LOOP_ALL`. `Transport.StoppedTrackLeavesLoopAllUndefined` shows the first step of this;
  - fixed-size buffers (`Path`, `Title`, the 256-byte `LocalTagTitle`, `PATH_MAX`) are unbounded strings;
  - `AudioCurrentPath` is a copied value. In C it aliases a slot buffer, which growth frees. `AudioRemove`'s `memset` (src/audio.c:54) also turns the aliased path into "". If `AddAudio` (src/audio.c:172) then reuses that slot, the current path reads as the new track, and a `LOOP_SONG` tick replays that other track. In the model the current path keeps the removed track's name, so that tick finds nothing and does nothing;
  - strings hold no NUL character.
- The playlist rows loop runs to `PAP_MAX_AUDIO`, which is defined in `audio.h`. `audio.h` is not part of this model, so the rows range over the whole array.
- `SA_TotalAudio` and `LayoutOrder` are `nat`. Their 32-bit wrap-around cannot be reached: growth hangs first (see Findings). The dead decrement keeps its 32-bit form (`Decrement32`).
- `Playlist.Grown`, `Playlist.Add`, `Audio.Player.Grow` and `Audio.Player.AddAudio`, and through them `Transport.Play`, `Transport.Tick`, `Gui.AddAll` and `Gui.ScanDirectory`, finish growth at every size. They model the intended doubling. The C code never finishes growing a store of 32768 or more slots, because the zeroing loop never exits (see Findings and `Audio.ZeroingLoopNeverExits`).
- `LoopStatus` is an `int` in C. It only ever holds the three enum values, so it is modelled as a three-valued datatype.
- `gui.c` calls `AddAudio` with the path only. The model passes no category, which gives "All".
- The pause label tracks the engine only as long as nothing else pauses or resumes the engine. The engine's paused flag is an input, and the model does not keep it.
- Logging (`SDL_Log`) is not modelled.

## Findings

| source | as written | input that shows it | evidently intended | confidence | as-written member | corrected member |
|---|---|---|---|---|---|---|
| src/audio.c:127-128 | the zeroing loop of the growth step counts with `uint16_t i` while `i < SA_TotalAudio * 2` | 32768 occupied slots, then `AddAudio` of a new path: every value of `i` passes the guard and `i++` wraps to 0 | zero slots 32768..65535, then finish the growth with 65536 slots | high (not executed) | Audio.ZeroingLoopNeverExits | Audio.Player.Grow |
