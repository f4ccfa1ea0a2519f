/**
 * The playlist slot table of src/audio.c, stated on values.
 *
 * The store is a sequence of slots (the `Audio` array, whose length is
 * `SA_TotalAudio`). A slot is empty exactly when its path is empty
 * (`Path[0] == 0`). Strings stand for the contents of the C buffers up to
 * their terminator.
 */
module Playlist {
  import opened Wrappers

  /** One track record (`AudioData`). */
  datatype Slot = Slot(
    path: string,
    title: string,
    tagArtist: string,
    tagAlbum: string,
    tagCopyright: string,
    assignedList: string,
    layoutOrder: nat)

  /** A slot after `memset(..., 0, sizeof(AudioData))`. */
  const EmptySlot: Slot := Slot("", "", "", "", "", "", 0)

  predicate Occupied(s: Slot) {
    s.path != ""
  }

  /** What the decoder reports about a file it can open. */
  datatype Media = Media(title: string, artist: string, album: string, copyright: string, loopLength: real)

  /**
   * The decoder as an oracle: a path opens (`Mix_LoadMUS` returns non-NULL)
   * exactly when it is a key, and then reports that key's tags.
   */
  type Library = map<string, Media>

  /** `PathDelimiter` of the non-Windows build. */
  const Delimiter: char := '/'
  const DefaultCategory: string := "All"
  const MissingTag: string := "N/A"

  /** The path has at least one character that is not a delimiter. */
  predicate HasSegment(path: string) {
    exists j :: 0 <= j < |path| && path[j] != Delimiter
  }

  /**
   * A file the decoder can open is named by a path with a non-delimiter
   * character: neither "" nor a run of delimiters names an audio file.
   */
  predicate Openable(lib: Library) {
    forall p :: p in lib ==> HasSegment(p)
  }

  /**
   * The invariant every operation of the store keeps: empty slots are all
   * zero, an occupied slot's `LayoutOrder` is its index, and no two occupied
   * slots share a path.
   */
  ghost predicate Consistent(slots: seq<Slot>) {
    && (forall i :: 0 <= i < |slots| && !Occupied(slots[i]) ==> slots[i] == EmptySlot)
    && (forall i :: 0 <= i < |slots| && Occupied(slots[i]) ==> slots[i].layoutOrder == i)
    && (forall i, j :: 0 <= i < j < |slots| && Occupied(slots[i]) && Occupied(slots[j]) ==> slots[i].path != slots[j].path)
  }

  // ---------------------------------------------------------------- lookup

  predicate HoldsPath(s: Slot, path: string) {
    Occupied(s) && s.path == path
  }

  /** `GetAudioIndex`: the lowest occupied slot holding `path`, or -1. */
  function FindPath(slots: seq<Slot>, path: Option<string>): (r: int)
    ensures -1 <= r < |slots|
    ensures r == -1 <==> path.None? || forall i :: 0 <= i < |slots| ==> !HoldsPath(slots[i], path.value)
    ensures r >= 0 ==> path.Some? && HoldsPath(slots[r], path.value)
    ensures r >= 0 ==> forall j :: 0 <= j < r ==> !HoldsPath(slots[j], path.value)
  {
    if path.None? then -1 else FindPathFrom(slots, path.value, 0)
  }

  function FindPathFrom(slots: seq<Slot>, path: string, from: nat): (r: int)
    requires from <= |slots|
    ensures r == -1 || from <= r < |slots|
    ensures r == -1 <==> forall i :: from <= i < |slots| ==> !HoldsPath(slots[i], path)
    ensures r >= 0 ==> HoldsPath(slots[r], path) && forall j :: from <= j < r ==> !HoldsPath(slots[j], path)
    decreases |slots| - from
  {
    if from == |slots| then -1
    else if HoldsPath(slots[from], path) then from
    else FindPathFrom(slots, path, from + 1)
  }

  /** `GetEmptyIndex`: the lowest empty slot, or -1 when every slot is occupied. */
  function FirstEmpty(slots: seq<Slot>): (r: int)
    ensures -1 <= r < |slots|
    ensures r == -1 <==> forall i :: 0 <= i < |slots| ==> Occupied(slots[i])
    ensures r >= 0 ==> !Occupied(slots[r]) && forall j :: 0 <= j < r ==> Occupied(slots[j])
  {
    FirstEmptyFrom(slots, 0)
  }

  function FirstEmptyFrom(slots: seq<Slot>, from: nat): (r: int)
    requires from <= |slots|
    ensures r == -1 || from <= r < |slots|
    ensures r == -1 <==> forall i :: from <= i < |slots| ==> Occupied(slots[i])
    ensures r >= 0 ==> !Occupied(slots[r]) && forall j :: from <= j < r ==> Occupied(slots[j])
    decreases |slots| - from
  {
    if from == |slots| then -1
    else if !Occupied(slots[from]) then from
    else FirstEmptyFrom(slots, from + 1)
  }

  /**
   * The test `GetNextIndex` applies to candidate `i`. As written, it checks
   * that the SOURCE slot `index` is occupied (not slot `i`), then compares
   * `LayoutOrder` and category.
   */
  predicate IsSuccessor(slots: seq<Slot>, index: nat, i: nat)
    requires index < |slots| && i < |slots|
  {
    && Occupied(slots[index])
    && slots[i].layoutOrder > slots[index].layoutOrder
    && slots[i].assignedList == slots[index].assignedList
  }

  /** `GetNextIndex`: the lowest candidate passing the test, with 0 as the fallback. */
  function NextIndex(slots: seq<Slot>, index: nat): (r: nat)
    requires index < |slots|
    ensures r < |slots|
    ensures (exists i :: 0 <= i < |slots| && IsSuccessor(slots, index, i)) ==>
              IsSuccessor(slots, index, r) && forall j :: 0 <= j < r ==> !IsSuccessor(slots, index, j)
    ensures (forall i :: 0 <= i < |slots| ==> !IsSuccessor(slots, index, i)) ==> r == 0
    ensures !Occupied(slots[index]) ==> r == 0
  {
    NextIndexFrom(slots, index, 0)
  }

  function NextIndexFrom(slots: seq<Slot>, index: nat, from: nat): (r: nat)
    requires index < |slots| && from <= |slots|
    ensures r < |slots|
    ensures (exists i :: from <= i < |slots| && IsSuccessor(slots, index, i)) ==>
              from <= r && IsSuccessor(slots, index, r) && forall j :: from <= j < r ==> !IsSuccessor(slots, index, j)
    ensures (forall i :: from <= i < |slots| ==> !IsSuccessor(slots, index, i)) ==> r == 0
    decreases |slots| - from
  {
    if from == |slots| then 0
    else if IsSuccessor(slots, index, from) then from
    else NextIndexFrom(slots, index, from + 1)
  }

  // ---------------------------------------------------------------- removal

  /**
   * `AudioRemove`: no-op at `index == SA_TotalAudio` or on an empty slot,
   * otherwise slot `index` is zeroed. The renumbering loop never changes a
   * slot (it tests the slot it has just cleared), so nothing else changes.
   */
  function Remove(slots: seq<Slot>, index: nat): (r: seq<Slot>)
    requires index <= |slots|
    ensures |r| == |slots|
    ensures forall i :: 0 <= i < |slots| && i != index ==> r[i] == slots[i]
    ensures index < |slots| && Occupied(slots[index]) ==> r[index] == EmptySlot
    ensures index < |slots| && !Occupied(slots[index]) ==> r[index] == slots[index]
  {
    if index == |slots| || !Occupied(slots[index]) then slots else slots[index := EmptySlot]
  }

  // ---------------------------------------------------------------- title

  /** Position `j` starts a maximal run of non-delimiter characters. */
  predicate SegmentStart(path: string, j: int) {
    0 <= j < |path| && path[j] != Delimiter && (j == 0 || path[j - 1] == Delimiter)
  }

  /** Where the last segment of `path` starts (`LastPathPointer` after the walk). */
  function LastSegmentStart(path: string): (k: nat)
    requires HasSegment(path)
    ensures SegmentStart(path, k)
    ensures forall j :: k < j < |path| ==> !SegmentStart(path, j)
  {
    LastSegmentStartBelow(path, |path|)
  }

  function LastSegmentStartBelow(path: string, n: nat): (k: nat)
    requires n <= |path|
    requires exists j :: 0 <= j < n && path[j] != Delimiter
    ensures k < n && SegmentStart(path, k)
    ensures forall j :: k < j < n ==> !SegmentStart(path, j)
    decreases n
  {
    if SegmentStart(path, n - 1) then n - 1
    else
      assert exists j :: 0 <= j < n - 1 && path[j] != Delimiter by {
        var j :| 0 <= j < n && path[j] != Delimiter;
        if j == n - 1 {
          assert path[n - 2] != Delimiter;
        }
      }
      LastSegmentStartBelow(path, n - 1)
  }

  /**
   * The fallback title: the path from the start of its last segment to the
   * end of the string (`memcpy(..., LastPathPointer, strlen(LastPathPointer))`),
   * so trailing delimiters stay in it.
   */
  function PathTitle(path: string): (r: string)
    requires HasSegment(path)
    ensures 0 < |r| <= |path| && r == path[|path| - |r|..]
    ensures r[0] != Delimiter && (|r| < |path| ==> path[|path| - |r| - 1] == Delimiter)
    ensures forall j :: 0 < j < |r| && r[j - 1] == Delimiter ==> r[j] == Delimiter
  {
    var k := LastSegmentStart(path);
    assert forall j :: k < j < |path| && path[j - 1] == Delimiter ==> path[j] == Delimiter by {
      forall j | k < j < |path| && path[j - 1] == Delimiter
        ensures path[j] == Delimiter
      {
        assert !SegmentStart(path, j);
      }
    }
    path[k..]
  }

  // ---------------------------------------------------------------- insertion

  /** A tag as stored: an empty tag becomes "N/A". */
  function OrMissing(tag: string): string {
    if tag == "" then MissingTag else tag
  }

  /** The record `AddAudio` writes into slot `index`. */
  function NewSlot(path: string, category: Option<string>, media: Media, index: nat): (r: Slot)
    requires media.title == "" ==> HasSegment(path)
    ensures r.path == path && r.layoutOrder == index
    ensures r.assignedList == category.UnwrapOr(DefaultCategory)
    ensures r.title != "" && r.tagArtist != "" && r.tagAlbum != "" && r.tagCopyright != ""
    ensures media.title != "" ==> r.title == media.title
    ensures media.title == "" ==> r.title == PathTitle(path)
    ensures media.artist != "" ==> r.tagArtist == media.artist
    ensures media.artist == "" ==> r.tagArtist == MissingTag
    ensures media.album != "" ==> r.tagAlbum == media.album
    ensures media.album == "" ==> r.tagAlbum == MissingTag
    ensures media.copyright != "" ==> r.tagCopyright == media.copyright
    ensures media.copyright == "" ==> r.tagCopyright == MissingTag
  {
    Slot(
      path := path,
      title := if media.title != "" then media.title else PathTitle(path),
      tagArtist := OrMissing(media.artist),
      tagAlbum := OrMissing(media.album),
      tagCopyright := OrMissing(media.copyright),
      assignedList := category.UnwrapOr(DefaultCategory),
      layoutOrder := index)
  }

  /** The store after growth: twice the capacity, the new half empty. */
  function Grown(slots: seq<Slot>): (r: seq<Slot>)
    ensures |r| == 2 * |slots| && r[..|slots|] == slots
    ensures forall i :: |slots| <= i < |r| ==> r[i] == EmptySlot
  {
    slots + seq(|slots|, _ => EmptySlot)
  }

  datatype AddOutcome = AddOutcome(slots: seq<Slot>, index: int)

  /**
   * `AddAudio`: reject a path already present; pick the lowest empty slot or
   * grow; fail (keeping any growth) when the decoder cannot open the path;
   * otherwise fill the chosen slot.
   */
  function Add(slots: seq<Slot>, path: string, category: Option<string>, lib: Library): (r: AddOutcome)
    requires |slots| > 0 && Openable(lib)
    ensures |r.slots| == |slots| || |r.slots| == 2 * |slots|
    ensures -1 <= r.index < |r.slots|
  {
    if FindPath(slots, Some(path)) != -1 then AddOutcome(slots, -1)
    else
      var free := FirstEmpty(slots);
      var store := if free == -1 then Grown(slots) else slots;
      var index := if free == -1 then |slots| else free;
      if path !in lib then AddOutcome(store, -1)
      else AddOutcome(store[index := NewSlot(path, category, lib[path], index)], index)
  }
}
