/** What the slot-table operations of src/audio.c promise, proved about the spec in module Playlist. */
module PlaylistFacts {
  import opened Wrappers
  import opened Playlist

  // ---------------------------------------------------------------- lookup

  /** In a consistent store, looking up an occupied slot's path finds that slot. */
  lemma FindOccupied(slots: seq<Slot>, i: nat)
    requires Consistent(slots) && i < |slots| && Occupied(slots[i])
    ensures FindPath(slots, Some(slots[i].path)) == i
  {
    assert HoldsPath(slots[i], slots[i].path);
    assert forall j :: 0 <= j < i ==> !HoldsPath(slots[j], slots[i].path);
  }

  // ---------------------------------------------------------------- next index

  /**
   * The `Audio[Index]` test of `GetNextIndex` in place of `Audio[i]` is
   * harmless for an occupied source slot: in a consistent store an empty
   * candidate has `LayoutOrder` 0 and never passes, and every passing
   * candidate is occupied.
   */
  lemma SuccessorIsOccupied(slots: seq<Slot>, index: nat, i: nat)
    requires Consistent(slots) && index < |slots| && i < |slots|
    requires IsSuccessor(slots, index, i)
    ensures Occupied(slots[i]) && Occupied(slots[index])
  {
    assert slots[i].layoutOrder > 0 && EmptySlot.layoutOrder == 0;
  }

  /**
   * In a consistent store, `GetNextIndex` from an occupied slot returns the
   * next occupied slot of the same category after it in slot order, which is
   * also the one with the smallest greater `LayoutOrder`; with no such slot it
   * falls back to 0.
   */
  lemma NextIndexIsNextInCategory(slots: seq<Slot>, index: nat)
    requires Consistent(slots) && index < |slots| && Occupied(slots[index])
    ensures var r := NextIndex(slots, index);
      || (&& index < r
          && Occupied(slots[r])
          && slots[r].assignedList == slots[index].assignedList
          && (forall j :: index < j < r && Occupied(slots[j]) ==> slots[j].assignedList != slots[index].assignedList)
          && (forall j ::
                (&& 0 <= j < |slots| && Occupied(slots[j])
                 && slots[j].assignedList == slots[index].assignedList
                 && slots[j].layoutOrder > slots[index].layoutOrder)
                ==> slots[r].layoutOrder <= slots[j].layoutOrder))
      || (&& r == 0
          && forall j :: index < j < |slots| && Occupied(slots[j]) ==> slots[j].assignedList != slots[index].assignedList)
  {
    var r := NextIndex(slots, index);
    forall j | index < j < |slots| && Occupied(slots[j]) && slots[j].assignedList == slots[index].assignedList
      ensures IsSuccessor(slots, index, j)
    {
    }
    if exists i :: 0 <= i < |slots| && IsSuccessor(slots, index, i) {
      SuccessorIsOccupied(slots, index, r);
      forall j | index < j < r && Occupied(slots[j])
        ensures slots[j].assignedList != slots[index].assignedList
      {
        assert !IsSuccessor(slots, index, j);
      }
    }
  }

  // ---------------------------------------------------------------- insertion

  /** Growth keeps the store consistent: the new half is empty and zeroed. */
  lemma GrownKeepsConsistent(slots: seq<Slot>)
    requires Consistent(slots)
    ensures Consistent(Grown(slots))
  {
    var g := Grown(slots);
    assert forall i :: |slots| <= i < |g| ==> g[i] == EmptySlot;
    assert forall i :: 0 <= i < |slots| ==> g[i] == slots[i];
  }

  /** A path already present is rejected and the store is left as it was, before any growth. */
  lemma AddRejectsDuplicate(slots: seq<Slot>, path: string, category: Option<string>, lib: Library)
    requires |slots| > 0 && Openable(lib)
    requires FindPath(slots, Some(path)) != -1
    ensures Add(slots, path, category, lib) == AddOutcome(slots, -1)
  {
  }

  /** With an empty slot available, `AddAudio` uses the lowest one and does not grow. */
  lemma AddFillsFirstEmpty(slots: seq<Slot>, path: string, category: Option<string>, lib: Library)
    requires |slots| > 0 && Openable(lib)
    requires FindPath(slots, Some(path)) == -1 && FirstEmpty(slots) != -1
    ensures var r := Add(slots, path, category, lib);
      && |r.slots| == |slots|
      && (forall i :: 0 <= i < |slots| && i != FirstEmpty(slots) ==> r.slots[i] == slots[i])
      && (path in lib ==> r.index == FirstEmpty(slots))
      && (path !in lib ==> r == AddOutcome(slots, -1))
  {
  }

  /**
   * With no empty slot, `AddAudio` doubles the capacity, keeps every record
   * at its index, zeroes the new half and puts the new record at the old
   * capacity.
   */
  lemma AddGrowsWhenFull(slots: seq<Slot>, path: string, category: Option<string>, lib: Library)
    requires |slots| > 0 && Openable(lib)
    requires FindPath(slots, Some(path)) == -1 && FirstEmpty(slots) == -1
    ensures var r := Add(slots, path, category, lib);
      && |r.slots| == 2 * |slots|
      && (forall i :: 0 <= i < |slots| ==> r.slots[i] == slots[i])
      && (forall i :: |slots| < i < 2 * |slots| ==> r.slots[i] == EmptySlot)
      && (path in lib ==> r.index == |slots| && Occupied(r.slots[|slots|]))
      && (path !in lib ==> r.index == -1 && r.slots[|slots|] == EmptySlot)
  {
  }

  /**
   * A path the decoder cannot open gives -1 and no newly occupied slot;
   * growth done before the load stays.
   */
  lemma AddLoadFailure(slots: seq<Slot>, path: string, category: Option<string>, lib: Library)
    requires |slots| > 0 && Openable(lib)
    requires path !in lib
    ensures var r := Add(slots, path, category, lib);
      && r.index == -1
      && (forall i :: 0 <= i < |slots| ==> r.slots[i] == slots[i])
      && (forall i :: |slots| <= i < |r.slots| ==> r.slots[i] == EmptySlot)
  {
  }

  /**
   * A successful `AddAudio` fills the chosen slot with the path, its index as
   * `LayoutOrder`, the category or "All", each empty tag as "N/A" and the tag
   * title or the path's last segment; afterwards the path is found there.
   */
  lemma AddSuccess(slots: seq<Slot>, path: string, category: Option<string>, lib: Library)
    requires |slots| > 0 && Openable(lib)
    requires Add(slots, path, category, lib).index >= 0
    ensures var r := Add(slots, path, category, lib);
      var s := r.slots[r.index];
      && path in lib
      && FindPath(slots, Some(path)) == -1
      && s.path == path
      && s.layoutOrder == r.index
      && s.assignedList == (if category.None? then "All" else category.value)
      && s.tagArtist == (if lib[path].artist == "" then "N/A" else lib[path].artist)
      && s.tagAlbum == (if lib[path].album == "" then "N/A" else lib[path].album)
      && s.tagCopyright == (if lib[path].copyright == "" then "N/A" else lib[path].copyright)
      && (lib[path].title != "" ==> s.title == lib[path].title)
      && (lib[path].title == "" ==> s.title == path[LastSegmentStart(path)..])
      && FindPath(r.slots, Some(path)) == r.index
  {
    var r := Add(slots, path, category, lib);
    assert HasSegment(path);
    assert HoldsPath(r.slots[r.index], path);
    forall j | 0 <= j < |r.slots| && j != r.index
      ensures !HoldsPath(r.slots[j], path)
    {
      if j < |slots| {
        assert r.slots[j] == slots[j];
      } else {
        assert r.slots[j] == EmptySlot;
      }
    }
  }

  /** `AddAudio` leaves every occupied slot as it was. */
  lemma AddKeepsOccupied(slots: seq<Slot>, path: string, category: Option<string>, lib: Library)
    requires |slots| > 0 && Openable(lib)
    ensures var r := Add(slots, path, category, lib).slots;
      forall i :: 0 <= i < |slots| && Occupied(slots[i]) ==> r[i] == slots[i]
  {
  }

  /** `AddAudio` occupies no slot except with the path it adds. */
  lemma AddOccupiesOnlyPath(slots: seq<Slot>, path: string, category: Option<string>, lib: Library)
    requires |slots| > 0 && Openable(lib)
    ensures var r := Add(slots, path, category, lib).slots;
      forall i :: 0 <= i < |r| && Occupied(r[i]) ==> (i < |slots| && r[i] == slots[i]) || r[i].path == path
  {
  }

  /** Writing a record with a new path and its own index into an empty slot keeps the store consistent. */
  lemma FillKeepsConsistent(store: seq<Slot>, index: nat, record: Slot)
    requires Consistent(store) && index < |store| && !Occupied(store[index])
    requires Occupied(record) && record.layoutOrder == index
    requires forall i :: 0 <= i < |store| ==> !HoldsPath(store[i], record.path)
    ensures Consistent(store[index := record])
  {
    var n := store[index := record];
    forall i, j | 0 <= i < j < |n| && Occupied(n[i]) && Occupied(n[j])
      ensures n[i].path != n[j].path
    {
      if i == index {
        assert !HoldsPath(store[j], record.path);
      } else if j == index {
        assert !HoldsPath(store[i], record.path);
      }
    }
  }

  /** `AddAudio` keeps the store consistent. */
  lemma AddKeepsConsistent(slots: seq<Slot>, path: string, category: Option<string>, lib: Library)
    requires |slots| > 0 && Openable(lib) && Consistent(slots)
    ensures Consistent(Add(slots, path, category, lib).slots)
  {
    if FindPath(slots, Some(path)) == -1 {
      var free := FirstEmpty(slots);
      var store := if free == -1 then Grown(slots) else slots;
      var index := if free == -1 then |slots| else free;
      if free == -1 {
        GrownKeepsConsistent(slots);
      }
      if path in lib {
        assert HasSegment(path);
        var record := NewSlot(path, category, lib[path], index);
        forall i | 0 <= i < |store|
          ensures !HoldsPath(store[i], path)
        {
          if i >= |slots| {
            assert store[i] == EmptySlot;
          }
        }
        FillKeepsConsistent(store, index, record);
        assert Add(slots, path, category, lib).slots == store[index := record];
      }
    }
  }

  // ---------------------------------------------------------------- removal

  /**
   * Removing the same slot a second time changes nothing: the slot is empty
   * after the first removal, so the second one takes the early return.
   */
  lemma RemoveIsIdempotent(slots: seq<Slot>, index: nat)
    requires index <= |slots|
    ensures Remove(Remove(slots, index), index) == Remove(slots, index)
  {
  }

  /** `AudioRemove` keeps the store consistent. */
  lemma RemoveKeepsConsistent(slots: seq<Slot>, index: nat)
    requires index <= |slots| && Consistent(slots)
    ensures Consistent(Remove(slots, index))
  {
  }

  /** After removing an occupied slot its path is no longer found. */
  lemma RemovedPathNotFound(slots: seq<Slot>, index: nat)
    requires Consistent(slots) && index < |slots| && Occupied(slots[index])
    ensures FindPath(Remove(slots, index), Some(slots[index].path)) == -1
  {
    var r := Remove(slots, index);
    forall i | 0 <= i < |r|
      ensures !HoldsPath(r[i], slots[index].path)
    {
      if i < index {
        assert slots[i].path != slots[index].path || !Occupied(slots[i]);
      } else if i > index {
        assert slots[index].path != slots[i].path || !Occupied(slots[i]);
      }
    }
  }

  /**
   * Removing an occupied slot makes room: the next add of a new openable
   * path reuses a slot at or below it, without growth.
   */
  lemma RemovedSlotIsReused(slots: seq<Slot>, index: nat, path: string, category: Option<string>, lib: Library)
    requires Consistent(slots) && index < |slots| && Occupied(slots[index]) && Openable(lib)
    requires path in lib && FindPath(Remove(slots, index), Some(path)) == -1
    ensures var r := Add(Remove(slots, index), path, category, lib);
      && |r.slots| == |slots|
      && 0 <= r.index <= index
  {
    var removed := Remove(slots, index);
    assert !Occupied(removed[index]);
  }

  // ---------------------------------------------------------------- scenario

  /**
   * From a fresh two-slot store, adding track A and then track B (default
   * category) puts them in slots 0 and 1, and the next track after A is B.
   */
  lemma TwoTracksScenario(a: string, b: string, lib: Library)
    requires Openable(lib) && a in lib && b in lib && a != b
    ensures var first := Add([EmptySlot, EmptySlot], a, None, lib);
      var second := Add(first.slots, b, None, lib);
      && first.index == 0
      && second.index == 1
      && NextIndex(second.slots, 0) == 1
  {
    var first := Add([EmptySlot, EmptySlot], a, None, lib);
    assert HasSegment(a) && HasSegment(b);
    assert FindPath([EmptySlot, EmptySlot], Some(a)) == -1 by {
      assert !HoldsPath([EmptySlot, EmptySlot][0], a) && !HoldsPath([EmptySlot, EmptySlot][1], a);
    }
    assert FirstEmpty([EmptySlot, EmptySlot]) == 0;
    var s1 := first.slots;
    assert s1[0].path == a && s1[1] == EmptySlot;
    assert FindPath(s1, Some(b)) == -1 by {
      assert !HoldsPath(s1[0], b) && !HoldsPath(s1[1], b);
    }
    assert FirstEmpty(s1) == 1;
    var second := Add(s1, b, None, lib);
    var s2 := second.slots;
    assert s2[0] == s1[0] && s2[1].layoutOrder == 1 && s2[1].assignedList == "All";
    assert IsSuccessor(s2, 0, 1);
    assert !IsSuccessor(s2, 0, 0);
  }
}
