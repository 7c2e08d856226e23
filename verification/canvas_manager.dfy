/** The canvas manager as a state machine (canvas-manager.js): the drawing
    surface, the purchase list with its shared entries, the bounded undo
    history and the `isLoadingState` flag that silences the surface's
    object events while a snapshot is restored or objects are removed in a
    batch. Every operation is a pure function from manager to manager. */
module CanvasManager {
  import opened Wrappers
  import opened Text
  import opened JsMap
  import opened CanvasModel
  import H = History

  /** What the surface serialises into a snapshot and restores from one: the
      objects in stacking order and the background image source. */
  datatype Surface = Surface(objects: seq<CanvasObject>, backgroundImage: Option<string>)

  /** A history entry: the serialised surface and the purchase list's entries
      as `[key, entry]` pairs. Snapshots written before the purchase list
      existed carry no list. */
  datatype Snapshot = Snapshot(canvas: Surface, purchaseList: Option<seq<(string, Ref)>>)

  /** `entries` is the store of purchase entries; the live list and every
      snapshot name entries by their position in it, so a change to an entry
      is seen through every list that names it. */
  datatype Manager = Manager(
    surface: Surface,
    currentBackground: Option<Background>,
    purchaseList: PurchaseList,
    entries: seq<Entry>,
    history: H.History<Snapshot>,
    loading: bool)

  ghost predicate RefsIn(pl: PurchaseList, n: nat) {
    forall k :: k in pl.values ==> pl.values[k] < n
  }

  ghost predicate SnapshotRefsIn(s: Snapshot, n: nat) {
    s.purchaseList.Some? ==>
      forall j :: 0 <= j < |s.purchaseList.value| ==> s.purchaseList.value[j].1 < n
  }

  /** The shape every reachable manager has, also in the middle of a batch:
      the list is a well-formed map naming stored entries, each quantity is
      at least 1, and the history holds at least the start-up checkpoint. */
  ghost predicate WellFormed(m: Manager) {
    && m.purchaseList.Valid()
    && RefsIn(m.purchaseList, |m.entries|)
    && (forall i :: 0 <= i < |m.entries| ==> m.entries[i].quantity >= 1)
    && H.Valid(m.history) && m.history.snapshots != []
    && (forall s :: s in m.history.snapshots ==> SnapshotRefsIn(s, |m.entries|))
  }

  /** The snapshot under the cursor shows the objects on the surface. */
  ghost predicate Synced(m: Manager)
    requires H.Valid(m.history) && m.history.snapshots != []
  {
    H.Current(m.history).canvas.objects == m.surface.objects
  }

  /** A manager between two user operations. */
  ghost predicate Valid(m: Manager) {
    WellFormed(m) && !m.loading && Synced(m)
  }

  /** The snapshot under the cursor is exactly what is shown, purchase list
      included; this holds right after every checkpoint. */
  ghost predicate Checkpointed(m: Manager)
    requires WellFormed(m)
  {
    H.Current(m.history) == Snapshot(m.surface, Some(m.purchaseList.Entries()))
  }

  /** The quantity of the entry the list holds under `k`. */
  function Quantity(m: Manager, k: string): int
    requires WellFormed(m) && m.purchaseList.Has(k)
  {
    m.entries[m.purchaseList.values[k]].quantity
  }

  // ---------------------------------------------------------------------------
  // Checkpoints and the surface's object events

  /** `saveState` with the objects serialised together with their items, as
      `toDatalessJSON(['itemData'])` would: the current surface and list
      become the newest snapshot. `SaveStateAsWritten` is the source's own
      serialisation, which drops the items. */
  function SaveState(m: Manager): (r: Manager)
    requires WellFormed(m)
    ensures WellFormed(r) && Synced(r) && Checkpointed(r)
    ensures r.(history := m.history) == m
    ensures r.history == H.Push(m.history, Snapshot(m.surface, Some(m.purchaseList.Entries())))
  {
    var s := Snapshot(m.surface, Some(m.purchaseList.Entries()));
    H.PushMembers(m.history, s);
    m.(history := H.Push(m.history, s))
  }

  /** The `object:added` and `object:modified` handlers. */
  function SaveUnlessLoading(m: Manager): (r: Manager)
    requires WellFormed(m)
    ensures WellFormed(r)
    ensures r.(history := m.history) == m
    ensures m.loading ==> r == m
  {
    if m.loading then m else SaveState(m)
  }

  /** The `object:removed` handler: drop unreferenced keys, then save. */
  function OnRemoved(m: Manager): (r: Manager)
    requires WellFormed(m)
    ensures WellFormed(r)
    ensures r.(history := m.history, purchaseList := m.purchaseList) == m
    ensures m.loading ==> r == m
  {
    if m.loading then m
    else SaveState(m.(purchaseList := Cleanup(m.purchaseList, m.surface.objects)))
  }

  /** `canvas.add(o)`: the object goes on top and `object:added` fires. */
  function AddObject(m: Manager, o: CanvasObject): (r: Manager)
    requires WellFormed(m)
    ensures WellFormed(r)
    ensures r.surface.objects == m.surface.objects + [o]
    ensures r.surface.backgroundImage == m.surface.backgroundImage
    ensures r.purchaseList == m.purchaseList && r.entries == m.entries
    ensures r.loading == m.loading && r.currentBackground == m.currentBackground
    ensures m.loading ==> r.history == m.history
    ensures !m.loading ==> Synced(r) && r.history.cursor == H.Min(m.history.cursor + 1, H.Capacity - 1)
  {
    SaveUnlessLoading(m.(surface := m.surface.(objects := m.surface.objects + [o])))
  }

  /** `canvas.remove` of the object at position `i`: it leaves the stack and
      `object:removed` fires. */
  function RemoveAt(m: Manager, i: nat): (r: Manager)
    requires WellFormed(m) && i < |m.surface.objects|
    ensures WellFormed(r)
    ensures r.surface == m.surface.(objects := m.surface.objects[..i] + m.surface.objects[i + 1..])
    ensures r.entries == m.entries && r.loading == m.loading && r.currentBackground == m.currentBackground
    ensures m.loading ==> r.purchaseList == m.purchaseList && r.history == m.history
    ensures !m.loading ==>
      && Synced(r) && r.history.cursor == H.Min(m.history.cursor + 1, H.Capacity - 1)
      && r.purchaseList == Cleanup(m.purchaseList, r.surface.objects)
  {
    var objects := m.surface.objects[..i] + m.surface.objects[i + 1..];
    OnRemoved(m.(surface := m.surface.(objects := objects)))
  }

  // ---------------------------------------------------------------------------
  // Removing many objects

  /** The objects whose flag is not set, in order. */
  function Keep(objects: seq<CanvasObject>, flags: seq<bool>): (r: seq<CanvasObject>)
    requires |flags| == |objects|
    ensures |r| <= |objects|
    ensures forall o :: o in r ==> o in objects
  {
    if objects == [] then []
    else (if flags[0] then [] else [objects[0]]) + Keep(objects[1..], flags[1..])
  }

  /** The number of set flags. */
  function Count(flags: seq<bool>): (r: nat)
    ensures r <= |flags|
  {
    if flags == [] then 0 else (if flags[0] then 1 else 0) + Count(flags[1..])
  }

  function AllFlags(n: nat): (r: seq<bool>)
    ensures |r| == n && forall i :: 0 <= i < n ==> r[i]
  {
    seq(n, _ => true)
  }

  /** Every object whose flag is clear survives. */
  lemma {:induction false} KeepUnflagged(objects: seq<CanvasObject>, flags: seq<bool>, i: nat)
    requires |flags| == |objects| && i < |objects| && !flags[i]
    ensures objects[i] in Keep(objects, flags)
  {
    if i > 0 {
      KeepUnflagged(objects[1..], flags[1..], i - 1);
    }
  }

  lemma {:induction false} KeepNone(objects: seq<CanvasObject>, flags: seq<bool>)
    requires |flags| == |objects| && Count(flags) == 0
    ensures Keep(objects, flags) == objects
  {
    if objects != [] {
      KeepNone(objects[1..], flags[1..]);
      assert objects == [objects[0]] + objects[1..];
    }
  }

  lemma {:induction false} KeepAllFlagged(objects: seq<CanvasObject>)
    ensures Keep(objects, AllFlags(|objects|)) == []
  {
    if objects != [] {
      assert AllFlags(|objects|)[1..] == AllFlags(|objects| - 1);
      KeepAllFlagged(objects[1..]);
    }
  }

  /** Removes, in stacking order, every object from position `i` on whose
      flag is set, one `canvas.remove` at a time. */
  function RemoveFlagged(m: Manager, flags: seq<bool>, i: nat): (r: Manager)
    requires WellFormed(m) && |flags| == |m.surface.objects| && i <= |flags|
    ensures WellFormed(r)
    decreases |flags| - i
  {
    if i == |flags| then m
    else if flags[i] then RemoveFlagged(RemoveAt(m, i), flags[..i] + flags[i + 1..], i)
    else RemoveFlagged(m, flags, i + 1)
  }

  /** The removals take exactly the flagged objects from position `i` on. */
  lemma {:induction false} RemoveFlaggedObjects(m: Manager, flags: seq<bool>, i: nat)
    requires WellFormed(m) && |flags| == |m.surface.objects| && i <= |flags|
    ensures RemoveFlagged(m, flags, i).surface.objects == m.surface.objects[..i] + Keep(m.surface.objects[i..], flags[i..])
    decreases |flags| - i
  {
    if i < |flags| {
      if flags[i] {
        var m' := RemoveAt(m, i);
        RemoveFlaggedObjects(m', flags[..i] + flags[i + 1..], i);
        KeepSkip(m.surface.objects, flags, i);
      } else {
        RemoveFlaggedObjects(m, flags, i + 1);
        KeepAdvance(m.surface.objects, flags, i);
      }
    }
  }

  /** Removing the flagged object at `i` and keeping from `i` on in what is
      left keeps the same objects. */
  lemma KeepSkip(objects: seq<CanvasObject>, flags: seq<bool>, i: nat)
    requires |flags| == |objects| && i < |objects| && flags[i]
    ensures var rest := objects[..i] + objects[i + 1..];
      rest[..i] + Keep(rest[i..], (flags[..i] + flags[i + 1..])[i..]) == objects[..i] + Keep(objects[i..], flags[i..])
  {
    KeepFrom(objects, flags, i);
    var rest := objects[..i] + objects[i + 1..];
    assert rest[..i] == objects[..i] && rest[i..] == objects[i + 1..];
    assert (flags[..i] + flags[i + 1..])[i..] == flags[i + 1..];
  }

  /** Passing over the unflagged object at `i` keeps it. */
  lemma KeepAdvance(objects: seq<CanvasObject>, flags: seq<bool>, i: nat)
    requires |flags| == |objects| && i < |objects| && !flags[i]
    ensures objects[..i + 1] + Keep(objects[i + 1..], flags[i + 1..]) == objects[..i] + Keep(objects[i..], flags[i..])
  {
    KeepFrom(objects, flags, i);
    assert objects[..i + 1] == objects[..i] + [objects[i]];
  }

  /** The removals touch neither the background, the entries nor the flag;
      with the events silenced they touch neither the list nor the history. */
  lemma {:induction false} RemoveFlaggedFields(m: Manager, flags: seq<bool>, i: nat)
    requires WellFormed(m) && |flags| == |m.surface.objects| && i <= |flags|
    ensures var r := RemoveFlagged(m, flags, i);
      && r.surface.backgroundImage == m.surface.backgroundImage
      && r.entries == m.entries && r.loading == m.loading && r.currentBackground == m.currentBackground
      && (m.loading ==> r.purchaseList == m.purchaseList && r.history == m.history)
    decreases |flags| - i
  {
    if i < |flags| {
      if flags[i] {
        RemoveFlaggedFields(RemoveAt(m, i), flags[..i] + flags[i + 1..], i);
      } else {
        RemoveFlaggedFields(m, flags, i + 1);
      }
    }
  }

  /** The objects kept from position `i` on: the one at `i` unless flagged,
      then those kept after it. */
  lemma KeepFrom(objects: seq<CanvasObject>, flags: seq<bool>, i: nat)
    requires |flags| == |objects| && i < |objects|
    ensures Keep(objects[i..], flags[i..]) == (if flags[i] then [] else [objects[i]]) + Keep(objects[i + 1..], flags[i + 1..])
  {
    assert objects[i..][1..] == objects[i + 1..] && flags[i..][1..] == flags[i + 1..];
  }

  /** One step of the removal loop: the flags from `i` on are the flag at `i`
      followed by those after it. */
  lemma FlagCountStep(flags: seq<bool>, i: nat)
    requires i < |flags|
    ensures Count(flags[i..]) == (if flags[i] then 1 else 0) + Count(flags[i + 1..])
  {
    assert flags[i..][1..] == flags[i + 1..];
  }

  /** With nothing flagged from `i` on, nothing is removed. */
  lemma {:induction false} RemoveFlaggedNone(m: Manager, flags: seq<bool>, i: nat)
    requires WellFormed(m) && |flags| == |m.surface.objects| && i <= |flags|
    requires Count(flags[i..]) == 0
    ensures RemoveFlagged(m, flags, i) == m
    decreases |flags| - i
  {
    if i < |flags| {
      FlagCountStep(flags, i);
      RemoveFlaggedNone(m, flags, i + 1);
    }
  }

  /** With events enabled, each removal saves its own checkpoint. */
  lemma {:induction false} RemoveFlaggedCursor(m: Manager, flags: seq<bool>, i: nat)
    requires WellFormed(m) && !m.loading && |flags| == |m.surface.objects| && i <= |flags|
    ensures RemoveFlagged(m, flags, i).history.cursor == H.Min(m.history.cursor + Count(flags[i..]), H.Capacity - 1)
    decreases |flags| - i, 1
  {
    if i < |flags| {
      if flags[i] {
        RemovedCursor(m, flags, i);
      } else {
        FlagCountStep(flags, i);
        RemoveFlaggedCursor(m, flags, i + 1);
        assert RemoveFlagged(m, flags, i) == RemoveFlagged(m, flags, i + 1);
      }
    }
  }

  /** The removal of a flagged object is one more checkpoint. */
  lemma {:induction false} RemovedCursor(m: Manager, flags: seq<bool>, i: nat)
    requires WellFormed(m) && !m.loading && |flags| == |m.surface.objects| && i < |flags| && flags[i]
    ensures RemoveFlagged(m, flags, i).history.cursor == H.Min(m.history.cursor + Count(flags[i..]), H.Capacity - 1)
    decreases |flags| - i, 0
  {
    FlagCountStep(flags, i);
    var m', flags' := RemovedStep(m, flags, i);
    RemoveFlaggedCursor(m', flags', i);
    MinShift(m.history.cursor, Count(flags[i + 1..]));
  }

  /** One flagged removal: the object goes, its flag goes, and one more
      checkpoint is saved. */
  lemma RemovedStep(m: Manager, flags: seq<bool>, i: nat) returns (m': Manager, flags': seq<bool>)
    requires WellFormed(m) && !m.loading && |flags| == |m.surface.objects| && i < |flags| && flags[i]
    ensures WellFormed(m') && !m'.loading && |flags'| == |m'.surface.objects| && i <= |flags'|
    ensures flags'[i..] == flags[i + 1..]
    ensures m'.history.cursor == H.Min(m.history.cursor + 1, H.Capacity - 1)
    ensures RemoveFlagged(m, flags, i) == RemoveFlagged(m', flags', i)
  {
    m' := RemoveAt(m, i);
    flags' := flags[..i] + flags[i + 1..];
    assert flags'[i..] == flags[i + 1..];
  }

  lemma MinShift(c: int, n: nat)
    ensures H.Min(H.Min(c + 1, H.Capacity - 1) + n, H.Capacity - 1) == H.Min(c + 1 + n, H.Capacity - 1)
  {
  }

  /** With events enabled, each removal runs a cleanup; since objects only
      leave, the final list is the cleanup of the original one against the
      surviving objects, and the last checkpoint shows the result. */
  lemma {:induction false} RemoveFlaggedWithEvents(m: Manager, flags: seq<bool>, i: nat)
    requires WellFormed(m) && !m.loading && |flags| == |m.surface.objects| && i <= |flags|
    requires Count(flags[i..]) > 0
    ensures var r := RemoveFlagged(m, flags, i);
      Synced(r) && r.purchaseList == Cleanup(m.purchaseList, r.surface.objects)
    decreases |flags| - i
  {
    FlagCountStep(flags, i);
    if flags[i] {
      var m' := RemoveAt(m, i);
      var flags' := flags[..i] + flags[i + 1..];
      assert flags'[i..] == flags[i + 1..];
      var r := RemoveFlagged(m', flags', i);
      assert r == RemoveFlagged(m, flags, i);
      if Count(flags[i + 1..]) > 0 {
        RemoveFlaggedObjects(m', flags', i);
        RemoveFlaggedWithEvents(m', flags', i);
        CleanupCompose(m.purchaseList, m'.surface.objects, r.surface.objects);
      } else {
        RemoveFlaggedNone(m', flags', i);
      }
    } else {
      RemoveFlaggedWithEvents(m, flags, i + 1);
    }
  }

  /** Removes the flagged objects one by one, each through its own
      `object:removed` event. */
  function RemoveEach(m: Manager, flags: seq<bool>): (r: Manager)
    requires WellFormed(m) && !m.loading && |flags| == |m.surface.objects|
    ensures WellFormed(r) && !r.loading
    ensures r.surface == m.surface.(objects := Keep(m.surface.objects, flags))
    ensures r.entries == m.entries && r.currentBackground == m.currentBackground
    ensures Count(flags) == 0 ==> r == m
    ensures Count(flags) > 0 ==> Synced(r) && r.purchaseList == Cleanup(m.purchaseList, r.surface.objects)
    ensures r.history.cursor == H.Min(m.history.cursor + Count(flags), H.Capacity - 1)
  {
    FromStart(m.surface.objects, flags);
    RemoveFlaggedObjects(m, flags, 0);
    RemoveFlaggedFields(m, flags, 0);
    RemoveFlaggedCursor(m, flags, 0);
    if Count(flags) == 0 then
      RemoveFlaggedNone(m, flags, 0);
      RemoveFlagged(m, flags, 0)
    else
      RemoveFlaggedWithEvents(m, flags, 0);
      RemoveFlagged(m, flags, 0)
  }

  /** Keeping from position 0 on is keeping everything. */
  lemma FromStart(objects: seq<CanvasObject>, flags: seq<bool>)
    requires |flags| == |objects|
    ensures flags[0..] == flags
    ensures objects[..0] + Keep(objects[0..], flags[0..]) == Keep(objects, flags)
  {
    assert objects[0..] == objects && objects[..0] == [];
  }

  /** Removes the flagged objects with the events silenced, as the batch
      deletes do: neither the list nor the history changes. */
  function RemoveSilently(m: Manager, flags: seq<bool>): (r: Manager)
    requires WellFormed(m) && !m.loading && |flags| == |m.surface.objects|
    ensures WellFormed(r) && !r.loading
    ensures r == m.(surface := m.surface.(objects := Keep(m.surface.objects, flags)))
  {
    FromStart(m.surface.objects, flags);
    RemoveFlaggedObjects(m.(loading := true), flags, 0);
    RemoveFlaggedFields(m.(loading := true), flags, 0);
    RemoveFlagged(m.(loading := true), flags, 0).(loading := false)
  }

  /** Cleaning up against a surface and then against a surface with fewer
      objects is one cleanup against the second. */
  lemma CleanupCompose(pl: PurchaseList, before: seq<CanvasObject>, after: seq<CanvasObject>)
    requires pl.Valid()
    requires forall o :: o in after ==> o in before
    ensures Cleanup(Cleanup(pl, before), after) == Cleanup(pl, after)
  {
    OnCanvasMonotone(before, after);
    KeepOnCanvasCompose(pl.keys, before, after);
    SameEntriesSameList(Cleanup(Cleanup(pl, before), after), Cleanup(pl, after));
  }

  lemma OnCanvasMonotone(before: seq<CanvasObject>, after: seq<CanvasObject>)
    requires forall o :: o in after ==> o in before
    ensures forall k :: OnCanvas(after, k) ==> OnCanvas(before, k)
  {
    forall k | OnCanvas(after, k) ensures OnCanvas(before, k) {
      var i :| 0 <= i < |after| && HasKey(after[i], k);
      assert after[i] in before;
    }
  }

  /** Two well-formed lists with the same keys and the same entry under each
      key are the same list. */
  lemma SameEntriesSameList(a: PurchaseList, b: PurchaseList)
    requires a.Valid() && b.Valid() && a.keys == b.keys
    requires forall k :: a.Has(k) && b.Has(k) ==> a.values[k] == b.values[k]
    ensures a == b
  {
    assert a.values.Keys == b.values.Keys;
  }

  lemma {:induction false} KeepOnCanvasCompose(s: seq<string>, before: seq<CanvasObject>, after: seq<CanvasObject>)
    requires forall k :: OnCanvas(after, k) ==> OnCanvas(before, k)
    ensures KeepOnCanvas(KeepOnCanvas(s, before), after) == KeepOnCanvas(s, after)
  {
    if s != [] {
      KeepOnCanvasCompose(s[1..], before, after);
    }
  }

  // ---------------------------------------------------------------------------
  // Restoring a snapshot

  /** `new Map(state.purchaseList)`, or the emptied list for an old snapshot. */
  function Restore(list: Option<seq<(string, Ref)>>): (r: PurchaseList)
    ensures r.Valid()
    ensures list.Some? ==> forall k :: r.Has(k) <==> exists j :: 0 <= j < |list.value| && list.value[j].0 == k
    ensures list.None? ==> r.keys == []
  {
    if list.Some? then
      FromEntriesValid(list.value);
      FromEntries(list.value)
    else Empty()
  }

  /** `canvas.add` for each object in turn. */
  function InsertAll(m: Manager, objects: seq<CanvasObject>): (r: Manager)
    requires WellFormed(m)
    ensures WellFormed(r)
    ensures r.surface == m.surface.(objects := m.surface.objects + objects)
    ensures r.entries == m.entries && r.loading == m.loading && r.currentBackground == m.currentBackground
    ensures m.loading ==> r.purchaseList == m.purchaseList && r.history == m.history
    decreases |objects|
  {
    if objects == [] then
      assert m.surface.objects + objects == m.surface.objects;
      m
    else
      assert m.surface.objects + objects == (m.surface.objects + [objects[0]]) + objects[1..];
      InsertAll(AddObject(m, objects[0]), objects[1..])
  }

  /** `loadState`: with the flag raised, the list is replaced, the surface
      is cleared object by object and refilled from the snapshot. Because the
      flag silences every event on the way, the history is not touched and
      the restored list is not cleaned up. */
  function LoadState(m: Manager, s: Snapshot): (r: Manager)
    requires WellFormed(m) && SnapshotRefsIn(s, |m.entries|)
    ensures WellFormed(r) && !r.loading
    ensures r.surface == s.canvas
    ensures r.purchaseList == Restore(s.purchaseList)
    ensures r.history == m.history && r.entries == m.entries
    ensures r.currentBackground == m.currentBackground
  {
    var restored := Restore(s.purchaseList);
    assert RefsIn(restored, |m.entries|) by {
      if s.purchaseList.Some? {
        FromEntriesValues(s.purchaseList.value);
      }
    }
    var m1 := m.(loading := true, purchaseList := restored);
    var m2 := RemoveFlagged(m1, AllFlags(|m1.surface.objects|), 0);
    RemoveFlaggedObjects(m1, AllFlags(|m1.surface.objects|), 0);
    RemoveFlaggedFields(m1, AllFlags(|m1.surface.objects|), 0);
    KeepAllFlagged(m1.surface.objects);
    var m3 := m2.(surface := Surface([], s.canvas.backgroundImage));
    InsertAll(m3, s.canvas.objects).(loading := false)
  }

  /** `undo`: a no-op on the oldest snapshot; otherwise the previous snapshot
      is shown. Entries are shared, so quantities are not rolled back. */
  function Undo(m: Manager): (r: Manager)
    requires Valid(m)
    ensures Valid(r)
    ensures r.history.snapshots == m.history.snapshots && r.entries == m.entries
    ensures H.CanUndo(m.history) ==>
      && r.history.cursor == m.history.cursor - 1
      && r.surface == H.Current(r.history).canvas
      && r.purchaseList == Restore(H.Current(r.history).purchaseList)
    ensures !H.CanUndo(m.history) ==> r == m
  {
    if H.CanUndo(m.history) then
      var h := H.Undo(m.history);
      LoadState(m.(history := h), H.Current(h))
    else m
  }

  /** `redo`: a no-op on the newest snapshot; otherwise the next snapshot is
      shown. */
  function Redo(m: Manager): (r: Manager)
    requires Valid(m)
    ensures Valid(r)
    ensures r.history.snapshots == m.history.snapshots && r.entries == m.entries
    ensures H.CanRedo(m.history) ==>
      && r.history.cursor == m.history.cursor + 1
      && r.surface == H.Current(r.history).canvas
      && r.purchaseList == Restore(H.Current(r.history).purchaseList)
    ensures !H.CanRedo(m.history) ==> r == m
  {
    if H.CanRedo(m.history) then
      var h := H.Redo(m.history);
      LoadState(m.(history := h), H.Current(h))
    else m
  }

  /** Restoring a checkpoint gives back exactly the surface and purchase list
      it was taken from, key order included. */
  lemma SaveThenLoad(m: Manager)
    requires WellFormed(m)
    ensures var saved := SaveState(m);
      var r := LoadState(saved, H.Current(saved.history));
      r.surface == m.surface && r.purchaseList == m.purchaseList
  {
    EntriesRoundTrip(m.purchaseList);
  }

  /** An undo followed by a redo shows the same objects again and keeps every
      quantity; right after a checkpoint it restores the manager exactly. */
  lemma RedoAfterUndo(m: Manager)
    requires Valid(m) && H.CanUndo(m.history)
    ensures Redo(Undo(m)).surface.objects == m.surface.objects
    ensures Redo(Undo(m)).history == m.history
    ensures Redo(Undo(m)).entries == m.entries
    ensures Checkpointed(m) ==> Redo(Undo(m)) == m
  {
    H.RedoUndo(m.history);
    if Checkpointed(m) {
      EntriesRoundTrip(m.purchaseList);
    }
  }

  // ---------------------------------------------------------------------------
  // Snapshots as written

  /** The surface as `saveState` serialises it: `toDatalessJSON()` is called
      without `['itemData']`, and the drawing library writes only its own
      properties, so every object loses the item it was placed from. The
      rest of the model serialises with the item kept, as
      `toDatalessJSON(['itemData'])` would. */
  function DatalessSurface(s: Surface): (r: Surface)
    ensures |r.objects| == |s.objects| && r.backgroundImage == s.backgroundImage
    ensures forall i | 0 <= i < |s.objects| ::
      r.objects[i].visual == s.objects[i].visual && r.objects[i].itemData.None?
  {
    Surface(seq(|s.objects|, i requires 0 <= i < |s.objects| => CanvasObject(s.objects[i].visual, None)),
      s.backgroundImage)
  }

  /** `saveState` as written: the newest snapshot shows the objects without
      their items, next to the full purchase list. */
  function SaveStateAsWritten(m: Manager): (r: Manager)
    requires WellFormed(m)
    ensures WellFormed(r)
    ensures r.surface == m.surface && r.purchaseList == m.purchaseList && r.entries == m.entries
    ensures r.loading == m.loading && r.currentBackground == m.currentBackground
    ensures H.Current(r.history).canvas == DatalessSurface(m.surface)
    ensures H.Current(r.history).purchaseList == Some(m.purchaseList.Entries())
  {
    var s := Snapshot(DatalessSurface(m.surface), Some(m.purchaseList.Entries()));
    H.PushMembers(m.history, s);
    m.(history := H.Push(m.history, s))
  }

  /** Restoring a checkpoint saved as written gives back the pictures and
      the purchase list, but no object carries its item any more. */
  lemma ReloadAsWrittenLosesItems(m: Manager)
    requires WellFormed(m)
    ensures var saved := SaveStateAsWritten(m);
      var r := LoadState(saved, H.Current(saved.history));
      && |r.surface.objects| == |m.surface.objects|
      && (forall i | 0 <= i < |m.surface.objects| ::
            r.surface.objects[i].visual == m.surface.objects[i].visual && r.surface.objects[i].itemData.None?)
      && r.purchaseList == m.purchaseList
  {
    EntriesRoundTrip(m.purchaseList);
  }

  /** After that restore, a list that names any key is no longer reconciled
      with the surface, and the cleanup the next removal runs empties it. */
  lemma ReloadAsWrittenEmptiesList(m: Manager)
    requires WellFormed(m)
    ensures var saved := SaveStateAsWritten(m);
      var r := LoadState(saved, H.Current(saved.history));
      && (m.purchaseList.keys != [] ==> !Reconciled(r.purchaseList, r.surface.objects))
      && Cleanup(r.purchaseList, r.surface.objects).keys == []
  {
    var saved := SaveStateAsWritten(m);
    var r := LoadState(saved, H.Current(saved.history));
    ReloadAsWrittenLosesItems(m);
    CleanupWithoutItems(r.purchaseList, r.surface.objects);
    if m.purchaseList.keys != [] {
      var k := m.purchaseList.keys[0];
      assert r.purchaseList.Has(k) && !OnCanvas(r.surface.objects, k);
    }
  }

  // ---------------------------------------------------------------------------
  // Start-up

  /** The manager after construction: an empty surface and the start-up
      checkpoint, the history that `Push` onto the empty history gives
      (`H.PushInitial`). */
  function Init(): (r: Manager)
    ensures Valid(r) && Checkpointed(r)
    ensures r.surface == Surface([], None) && r.purchaseList.keys == [] && r.entries == []
    ensures r.history.snapshots == [Snapshot(Surface([], None), Some([]))]
  {
    var s := Snapshot(Surface([], None), Some([]));
    var r := Manager(Surface([], None), None, Empty(), [], H.History([s], 0), false);
    StartUp(r);
    r
  }

  /** An empty surface and list whose one snapshot shows them is valid and
      checkpointed. */
  lemma StartUp(r: Manager)
    requires r.surface == Surface([], None) && r.purchaseList == Empty() && r.entries == [] && !r.loading
    requires r.history == H.History([Snapshot(Surface([], None), Some([]))], 0)
    ensures Valid(r) && Checkpointed(r)
  {
    var s := Snapshot(Surface([], None), Some([]));
    assert r.purchaseList.Entries() == [];
    assert SnapshotRefsIn(s, 0);
    assert forall x :: x in r.history.snapshots ==> x == s;
    assert H.Current(r.history) == s;
  }

  // ---------------------------------------------------------------------------
  // Adding a catalogue item

  datatype AddError = MissingImagePath | AllImagesFailed

  /** The item's image list, or its single `src` when the list is empty. */
  function ImageList(item: ItemData): (r: seq<Option<string>>)
    ensures r != []
  {
    if item.images != [] then item.images else [item.src]
  }

  /** Image `i` is placed when it has a url and its load succeeds; `loaded`
      holds the load outcomes, and a missing outcome is a failure. */
  predicate Loads(images: seq<Option<string>>, loaded: seq<bool>, i: nat)
    requires i < |images|
  {
    Truthy(images[i]) && i < |loaded| && loaded[i]
  }

  /** The positions, from `i` on and ascending, of the images that load. */
  function LoadedIndices(images: seq<Option<string>>, loaded: seq<bool>, i: nat): (r: seq<nat>)
    requires i <= |images|
    ensures forall j :: 0 <= j < |r| ==> i <= r[j] < |images| && Loads(images, loaded, r[j])
    ensures forall j :: i <= j < |images| && Loads(images, loaded, j) ==> j in r
    decreases |images| - i
  {
    if i == |images| then []
    else if Loads(images, loaded, i) then [i] + LoadedIndices(images, loaded, i + 1)
    else LoadedIndices(images, loaded, i + 1)
  }

  /** Image `i` of an item, centred on the surface and shifted by 30 pixels
      per position, carrying the item. */
  function Placement(item: ItemData, url: string, i: nat): CanvasObject {
    CanvasObject(
      Visual(url, CanvasWidth / 2 + i * ImageOffset, CanvasHeight / 2 + i * ImageOffset),
      Some(item))
  }

  /** Places the images that load, from position `i` on, each with its own
      `canvas.add`. */
  function PlaceImages(m: Manager, item: ItemData, images: seq<Option<string>>, loaded: seq<bool>, i: nat)
    : (r: (Manager, seq<CanvasObject>))
    requires WellFormed(m) && i <= |images|
    ensures WellFormed(r.0)
    ensures r.0.surface.objects == m.surface.objects + r.1
    ensures PlacedAt(r.1, item, images, LoadedIndices(images, loaded, i))
    ensures r.0.surface.backgroundImage == m.surface.backgroundImage
    ensures r.0.purchaseList == m.purchaseList && r.0.entries == m.entries
    ensures r.0.loading == m.loading && r.0.currentBackground == m.currentBackground
    ensures r.1 == [] ==> r.0 == m
    ensures !m.loading && r.1 != [] ==> Synced(r.0)
    ensures !m.loading ==> r.0.history.cursor == H.Min(m.history.cursor + |r.1|, H.Capacity - 1)
    decreases |images| - i
  {
    if i == |images| then
      assert m.surface.objects + [] == m.surface.objects;
      (m, [])
    else if Loads(images, loaded, i) then
      var o := Placement(item, images[i].value, i);
      var m1 := AddObject(m, o);
      var rest := PlaceImages(m1, item, images, loaded, i + 1);
      assert m.surface.objects + ([o] + rest.1) == m1.surface.objects + rest.1;
      PlacedCons(rest.1, item, images, loaded, i);
      (rest.0, [o] + rest.1)
    else
      PlaceImages(m, item, images, loaded, i + 1)
  }

  /** `placed[j]` is image `idx[j]` of the item at its own position. */
  predicate PlacedAt(placed: seq<CanvasObject>, item: ItemData, images: seq<Option<string>>, idx: seq<nat>) {
    && |placed| == |idx|
    && forall j :: 0 <= j < |idx| ==>
         idx[j] < |images| && images[idx[j]].Some? && placed[j] == Placement(item, images[idx[j]].value, idx[j])
  }

  /** Placing the image at `i` before those placed after it. */
  lemma PlacedCons(rest: seq<CanvasObject>, item: ItemData, images: seq<Option<string>>, loaded: seq<bool>, i: nat)
    requires i < |images| && Loads(images, loaded, i)
    requires PlacedAt(rest, item, images, LoadedIndices(images, loaded, i + 1))
    ensures PlacedAt([Placement(item, images[i].value, i)] + rest, item, images, LoadedIndices(images, loaded, i))
  {
    var idx' := LoadedIndices(images, loaded, i + 1);
    assert LoadedIndices(images, loaded, i) == [i] + idx';
    var placed := [Placement(item, images[i].value, i)] + rest;
    forall j | 1 <= j < |placed|
      ensures placed[j] == rest[j - 1] && ([i] + idx')[j] == idx'[j - 1]
    {
    }
  }

  /** The purchase-list step of `addItem`: an unlisted key gets a new entry
      of quantity 1; a listed key keeps its entry. */
  function ListItem(m: Manager, item: ItemData): (r: Manager)
    requires WellFormed(m)
    ensures WellFormed(r) && r.purchaseList.Has(ItemKey(item))
    ensures m.purchaseList.Has(ItemKey(item)) ==> r == m
    ensures !m.purchaseList.Has(ItemKey(item)) ==>
      && r.purchaseList == m.purchaseList.Set(ItemKey(item), |m.entries|)
      && r.entries == m.entries + [Entry(item, 1)]
      && Quantity(r, ItemKey(item)) == 1
    ensures r.surface == m.surface && r.history == m.history
    ensures r.loading == m.loading && r.currentBackground == m.currentBackground
  {
    var k := ItemKey(item);
    SetValid(m.purchaseList, k, |m.entries|);
    if m.purchaseList.Has(k) then m
    else m.(purchaseList := m.purchaseList.Set(k, |m.entries|), entries := m.entries + [Entry(item, 1)])
  }

  /** `addItem`, with the outcome of every image load given. */
  function AddItem(m: Manager, item: ItemData, loaded: seq<bool>)
    : (r: (Manager, Result<seq<CanvasObject>, AddError>))
    requires Valid(m)
    ensures Valid(r.0)
    ensures r.1 == Failure(MissingImagePath) <==> !Truthy(ImageList(item)[0])
    ensures r.1 == Failure(MissingImagePath) ==> r.0 == m
    ensures r.1 != Failure(MissingImagePath) ==>
      var k := ItemKey(item);
      && r.0.purchaseList.Has(k)
      && (m.purchaseList.Has(k) ==>
            r.0.purchaseList == m.purchaseList && r.0.entries == m.entries)
      && (!m.purchaseList.Has(k) ==>
            && r.0.purchaseList == m.purchaseList.Set(k, |m.entries|)
            && r.0.entries == m.entries + [Entry(item, 1)]
            && Quantity(r.0, k) == 1)
    ensures r.1 == Failure(AllImagesFailed) <==>
      Truthy(ImageList(item)[0]) && LoadedIndices(ImageList(item), loaded, 0) == []
    ensures r.1 == Failure(AllImagesFailed) ==> r.0.surface == m.surface && r.0.history == m.history
    ensures r.1.Success? ==>
      var idx := LoadedIndices(ImageList(item), loaded, 0);
      && r.0.surface.objects == m.surface.objects + r.1.value
      && |r.1.value| == |idx| > 0
      && (forall j :: 0 <= j < |idx| ==>
            r.1.value[j] == Placement(item, ImageList(item)[idx[j]].value, idx[j]))
      && r.0.history.cursor == H.Min(m.history.cursor + |idx|, H.Capacity - 1)
  {
    var images := ImageList(item);
    if !Truthy(images[0]) then (m, Failure(MissingImagePath))
    else
      var m1 := ListItem(m, item);
      var placed := PlaceImages(m1, item, images, loaded, 0);
      if placed.1 == [] then
        assert placed.0.surface.objects == m.surface.objects;
        (placed.0, Failure(AllImagesFailed))
      else (placed.0, Success(placed.1))
  }

  /** An add whose loads all fail still leaves the new purchase entry behind,
      so the list names a key that no object carries. */
  lemma FailedAddLeavesEntry(m: Manager, item: ItemData, loaded: seq<bool>)
    requires Valid(m) && !OnCanvas(m.surface.objects, ItemKey(item))
    requires AddItem(m, item, loaded).1 == Failure(AllImagesFailed)
    ensures !Reconciled(AddItem(m, item, loaded).0.purchaseList, AddItem(m, item, loaded).0.surface.objects)
  {
    assert AddItem(m, item, loaded).0.purchaseList.Has(ItemKey(item));
  }

  /** A successful add keeps the list reconciled: its key is carried by the
      objects just placed. */
  lemma AddItemKeepsReconciled(m: Manager, item: ItemData, loaded: seq<bool>)
    requires Valid(m) && Reconciled(m.purchaseList, m.surface.objects)
    requires AddItem(m, item, loaded).1.Success?
    ensures Reconciled(AddItem(m, item, loaded).0.purchaseList, AddItem(m, item, loaded).0.surface.objects)
  {
    var r := AddItem(m, item, loaded);
    var objects := r.0.surface.objects;
    assert objects[|m.surface.objects|] == r.1.value[0];
    forall k | r.0.purchaseList.Has(k) ensures OnCanvas(objects, k) {
      if k != ItemKey(item) {
        assert m.purchaseList.Has(k);
        var i :| 0 <= i < |m.surface.objects| && HasKey(m.surface.objects[i], k);
        assert objects[i] == m.surface.objects[i];
      } else {
        assert HasKey(objects[|m.surface.objects|], k);
      }
    }
  }

  // ---------------------------------------------------------------------------
  // Deleting

  /** The flags of the objects whose position is in the selection. */
  function SelectionFlags(objects: seq<CanvasObject>, selection: set<nat>): (r: seq<bool>)
    ensures |r| == |objects| && forall i :: 0 <= i < |r| ==> (r[i] <==> i in selection)
  {
    seq(|objects|, i => i in selection)
  }

  /** `deleteSelected` as written: one selected object goes through the
      normal removal event; several are removed with events silenced and one
      checkpoint is saved afterwards, without a cleanup of the list. */
  function DeleteSelectedAsWritten(m: Manager, selection: set<nat>): (r: Manager)
    requires Valid(m)
    ensures Valid(r)
    ensures var flags := SelectionFlags(m.surface.objects, selection);
      && r.surface.objects == Keep(m.surface.objects, flags)
      && (Count(flags) > 1 ==> r.purchaseList == m.purchaseList)
  {
    var flags := SelectionFlags(m.surface.objects, selection);
    var n := Count(flags);
    if n == 0 then
      KeepNone(m.surface.objects, flags);
      m
    else if n > 1 then
      SaveState(RemoveSilently(m, flags))
    else RemoveEach(m, flags)
  }

  /** Deleting both objects of a surface that shows one item twice, the only
      objects carrying its key, leaves that key in the list as written. */
  lemma DeleteSelectedAsWrittenLeavesStaleKey(m: Manager, o: CanvasObject, k: string)
    requires o.itemData.Some? && ItemKey(o.itemData.value) == k
    requires m.surface == Surface([o, o], None) && !m.loading
    requires m.purchaseList == OrderedMap([k], map[k := 0]) && m.entries == [Entry(o.itemData.value, 1)]
    requires m.history == H.History([Snapshot(m.surface, Some(m.purchaseList.Entries()))], 0)
    ensures Valid(m) && Reconciled(m.purchaseList, m.surface.objects)
    ensures !Reconciled(DeleteSelectedAsWritten(m, {0, 1}).purchaseList,
                        DeleteSelectedAsWritten(m, {0, 1}).surface.objects)
  {
    TwiceOnCanvas(m, o, k);
    var flags := SelectionFlags(m.surface.objects, {0, 1});
    assert flags == [true, true] && Count(flags) == 2;
    KeepNoneOfTwo(o);
    StaleWhenAllRemoved(m, {0, 1}, k);
  }

  /** A surface showing one item twice, listed once and checkpointed. */
  lemma TwiceOnCanvas(m: Manager, o: CanvasObject, k: string)
    requires o.itemData.Some? && ItemKey(o.itemData.value) == k
    requires m.surface == Surface([o, o], None) && !m.loading
    requires m.purchaseList == OrderedMap([k], map[k := 0]) && m.entries == [Entry(o.itemData.value, 1)]
    requires m.history == H.History([Snapshot(m.surface, Some(m.purchaseList.Entries()))], 0)
    ensures Valid(m) && Reconciled(m.purchaseList, m.surface.objects) && m.purchaseList.Has(k)
  {
    assert HasKey(m.surface.objects[0], k);
    assert m.purchaseList.Entries() == [(k, 0)];
  }

  lemma KeepNoneOfTwo(o: CanvasObject)
    ensures Keep([o, o], [true, true]) == []
  {
    assert [o, o][1..] == [o] && [true, true][1..] == [true];
    assert Keep([o], [true]) == [] + Keep([], []);
  }

  /** Removing every object of a multiple selection as written leaves each
      listed key without an object. */
  lemma StaleWhenAllRemoved(m: Manager, selection: set<nat>, k: string)
    requires Valid(m) && m.purchaseList.Has(k)
    requires var flags := SelectionFlags(m.surface.objects, selection);
      Count(flags) > 1 && Keep(m.surface.objects, flags) == []
    ensures !Reconciled(DeleteSelectedAsWritten(m, selection).purchaseList,
                        DeleteSelectedAsWritten(m, selection).surface.objects)
  {
    var r := DeleteSelectedAsWritten(m, selection);
    assert r.purchaseList.Has(k) && !OnCanvas(r.surface.objects, k);
  }

  /** `deleteSelected` with the cleanup the event handler would have run:
      the batch path cleans the list up before its single checkpoint. */
  function DeleteSelected(m: Manager, selection: set<nat>): (r: Manager)
    requires Valid(m)
    ensures Valid(r)
    ensures var flags := SelectionFlags(m.surface.objects, selection);
      && r.surface.objects == Keep(m.surface.objects, flags)
      && r.entries == m.entries
      && (Count(flags) == 0 ==> r == m)
      && (Count(flags) > 0 ==> r.purchaseList == Cleanup(m.purchaseList, r.surface.objects))
  {
    var flags := SelectionFlags(m.surface.objects, selection);
    var n := Count(flags);
    if n == 0 then
      KeepNone(m.surface.objects, flags);
      m
    else if n > 1 then
      var m1 := RemoveSilently(m, flags);
      SaveState(m1.(purchaseList := Cleanup(m1.purchaseList, m1.surface.objects)))
    else RemoveEach(m, flags)
  }

  /** After a delete the list is reconciled with the surface whenever it was
      before, and any key whose objects all went is gone. */
  lemma DeleteSelectedReconciles(m: Manager, selection: set<nat>)
    requires Valid(m) && Reconciled(m.purchaseList, m.surface.objects)
    ensures Reconciled(DeleteSelected(m, selection).purchaseList, DeleteSelected(m, selection).surface.objects)
  {
    var r := DeleteSelected(m, selection);
    if r != m {
      CleanupIdempotent(m.purchaseList, r.surface.objects);
    }
  }

  /** The flags of the objects carrying key `k`. */
  function KeyFlags(objects: seq<CanvasObject>, k: string): (r: seq<bool>)
    ensures |r| == |objects| && forall i :: 0 <= i < |r| ==> (r[i] <==> HasKey(objects[i], k))
  {
    seq(|objects|, i requires 0 <= i < |objects| => HasKey(objects[i], k))
  }

  /** Removing the objects of one key leaves every object of another key. */
  lemma KeepOtherKeys(objects: seq<CanvasObject>, k: string, x: string)
    requires x != k && OnCanvas(objects, x)
    ensures OnCanvas(Keep(objects, KeyFlags(objects, k)), x)
  {
    var i :| 0 <= i < |objects| && HasKey(objects[i], x);
    KeepUnflagged(objects, KeyFlags(objects, k), i);
    var kept := Keep(objects, KeyFlags(objects, k));
    var j :| 0 <= j < |kept| && kept[j] == objects[i];
    assert HasKey(kept[j], x);
  }

  /** No object carries `k` after its objects are removed. */
  lemma KeyGone(objects: seq<CanvasObject>, k: string)
    ensures !OnCanvas(Keep(objects, KeyFlags(objects, k)), k)
  {
    KeyGoneFrom(objects, KeyFlags(objects, k), k);
  }

  lemma {:induction false} KeyGoneFrom(objects: seq<CanvasObject>, flags: seq<bool>, k: string)
    requires |flags| == |objects| && forall i :: 0 <= i < |objects| ==> (flags[i] <==> HasKey(objects[i], k))
    ensures forall o :: o in Keep(objects, flags) ==> !HasKey(o, k)
  {
    if objects != [] {
      KeyGoneFrom(objects[1..], flags[1..], k);
    }
  }

  /** The list's delete-all button for key `k`: every object carrying `k`
      is removed (with events silenced when there are several, through the
      normal event when there is one), then the entry goes and one more
      checkpoint is saved. */
  function DeleteAllForKey(m: Manager, k: string): (r: Manager)
    requires Valid(m)
    ensures Valid(r) && Checkpointed(r)
    ensures r.surface.objects == Keep(m.surface.objects, KeyFlags(m.surface.objects, k))
    ensures !OnCanvas(r.surface.objects, k) && !r.purchaseList.Has(k)
    ensures forall x :: x != k && r.purchaseList.Has(x) ==>
      m.purchaseList.Has(x) && r.purchaseList.values[x] == m.purchaseList.values[x]
    ensures Count(KeyFlags(m.surface.objects, k)) != 1 ==>
      forall x :: x != k ==> (r.purchaseList.Has(x) <==> m.purchaseList.Has(x))
    ensures Reconciled(m.purchaseList, m.surface.objects) ==>
      && Reconciled(r.purchaseList, r.surface.objects)
      && forall x :: x != k ==> (r.purchaseList.Has(x) <==> m.purchaseList.Has(x))
    ensures r.entries == m.entries
  {
    var flags := KeyFlags(m.surface.objects, k);
    var m1 := if Count(flags) > 1 then RemoveSilently(m, flags) else RemoveEach(m, flags);
    KeyGone(m.surface.objects, k);
    DeleteValid(m1.purchaseList, k);
    assert forall x :: x != k && OnCanvas(m.surface.objects, x) ==> OnCanvas(m1.surface.objects, x) by {
      forall x | x != k && OnCanvas(m.surface.objects, x) ensures OnCanvas(m1.surface.objects, x) {
        KeepOtherKeys(m.surface.objects, k, x);
      }
    }
    SaveState(m1.(purchaseList := m1.purchaseList.Delete(k)))
  }

  // ---------------------------------------------------------------------------
  // Duplicating, modifying, clearing

  /** `duplicate`: a copy of the active object, 20 pixels right and down,
      is added on top and becomes a checkpoint. */
  function Duplicate(m: Manager, active: Option<nat>): (r: Manager)
    requires Valid(m)
    ensures Valid(r)
    ensures r.purchaseList == m.purchaseList && r.entries == m.entries
    ensures active.Some? && active.value < |m.surface.objects| ==>
      var o := m.surface.objects[active.value];
      && |r.surface.objects| == |m.surface.objects| + 1
      && r.surface.objects[..|m.surface.objects|] == m.surface.objects
      && var copy := r.surface.objects[|m.surface.objects|];
      && copy.itemData == o.itemData && copy.visual.src == o.visual.src
      && copy.visual.left == o.visual.left + DuplicateOffset
      && copy.visual.top == o.visual.top + DuplicateOffset
      && Checkpointed(r)
    ensures !(active.Some? && active.value < |m.surface.objects|) ==> r == m
    ensures Reconciled(m.purchaseList, m.surface.objects) ==> Reconciled(r.purchaseList, r.surface.objects)
  {
    if active.Some? && active.value < |m.surface.objects| then
      var o := m.surface.objects[active.value];
      var copy := CanvasObject(
        o.visual.(left := o.visual.left + DuplicateOffset, top := o.visual.top + DuplicateOffset),
        o.itemData);
      var r := AddObject(m, copy);
      assert r.surface.objects[..|m.surface.objects|] == m.surface.objects;
      assert forall k :: OnCanvas(m.surface.objects, k) ==> OnCanvas(r.surface.objects, k) by {
        forall k | OnCanvas(m.surface.objects, k) ensures OnCanvas(r.surface.objects, k) {
          var i :| 0 <= i < |m.surface.objects| && HasKey(m.surface.objects[i], k);
          assert r.surface.objects[i] == m.surface.objects[i];
        }
      }
      r
    else m
  }

  /** `object:modified` after the user moves, scales or rotates object `i`. */
  function ModifyObject(m: Manager, i: nat, v: Visual): (r: Manager)
    requires Valid(m)
    ensures Valid(r)
    ensures i < |m.surface.objects| ==>
      && r.surface.objects == m.surface.objects[i := m.surface.objects[i].(visual := v)]
      && Checkpointed(r)
    ensures !(i < |m.surface.objects|) ==> r == m
    ensures r.purchaseList == m.purchaseList && r.entries == m.entries
    ensures Reconciled(m.purchaseList, m.surface.objects) ==> Reconciled(r.purchaseList, r.surface.objects)
  {
    if i < |m.surface.objects| then
      var objects := m.surface.objects[i := m.surface.objects[i].(visual := v)];
      assert forall k :: OnCanvas(m.surface.objects, k) ==> OnCanvas(objects, k) by {
        forall k | OnCanvas(m.surface.objects, k) ensures OnCanvas(objects, k) {
          var j :| 0 <= j < |m.surface.objects| && HasKey(m.surface.objects[j], k);
          assert HasKey(objects[j], k);
        }
      }
      SaveState(m.(surface := m.surface.(objects := objects)))
    else m
  }

  /** Some object carries an item, or a background is set. */
  predicate HasContent(m: Manager) {
    (exists i | 0 <= i < |m.surface.objects| :: m.surface.objects[i].itemData.Some?)
    || m.currentBackground.Some?
  }

  /** `clear`, with the user's answer to the confirmation. Clearing removes
      the objects one by one through their events, drops the background and
      the whole list, and saves the empty surface. */
  function Clear(m: Manager, confirmed: bool): (r: Manager)
    requires Valid(m)
    ensures Valid(r)
    ensures HasContent(m) && !confirmed ==> r == m
    ensures !HasContent(m) || confirmed ==>
      && r.surface == Surface([], None) && r.currentBackground == None
      && r.purchaseList.keys == [] && r.entries == m.entries
      && H.Current(r.history) == Snapshot(Surface([], None), Some([]))
      && r.history.cursor == H.Min(m.history.cursor + |m.surface.objects| + 1, H.Capacity - 1)
  {
    if HasContent(m) && !confirmed then m
    else
      var flags := AllFlags(|m.surface.objects|);
      AllFlagsCount(|m.surface.objects|);
      var m1 := RemoveEach(m, flags);
      SaveState(m1.(surface := Surface([], None), currentBackground := None, purchaseList := Empty()))
  }

  lemma {:induction false} AllFlagsCount(n: nat)
    ensures Count(AllFlags(n)) == n
  {
    if n > 0 {
      assert AllFlags(n)[1..] == AllFlags(n - 1);
      AllFlagsCount(n - 1);
    }
  }

  // ---------------------------------------------------------------------------
  // Quantities

  /** Sets the quantity of the entry under `k` in place. */
  function WithQuantity(m: Manager, k: string, q: int): (r: Manager)
    requires Valid(m) && m.purchaseList.Has(k) && q >= 1
    ensures Valid(r) && r.purchaseList == m.purchaseList && Quantity(r, k) == q
    ensures r.(entries := m.entries) == m && |r.entries| == |m.entries|
    ensures forall j :: 0 <= j < |m.entries| && j != m.purchaseList.values[k] ==> r.entries[j] == m.entries[j]
  {
    var ref := m.purchaseList.values[k];
    m.(entries := m.entries[ref := m.entries[ref].(quantity := q)])
  }

  /** The increase button; a key no longer in the list changes nothing. */
  function Increase(m: Manager, k: string): (r: Manager)
    requires Valid(m)
    ensures Valid(r) && r.(entries := m.entries) == m
    ensures m.purchaseList.Has(k) ==> Quantity(r, k) == Quantity(m, k) + 1
    ensures !m.purchaseList.Has(k) ==> r == m
  {
    if m.purchaseList.Has(k) then WithQuantity(m, k, Quantity(m, k) + 1) else m
  }

  /** The decrease button: a quantity of 1 stays 1. */
  function Decrease(m: Manager, k: string): (r: Manager)
    requires Valid(m)
    ensures Valid(r) && r.(entries := m.entries) == m
    ensures m.purchaseList.Has(k) ==> Quantity(r, k) == if Quantity(m, k) > 1 then Quantity(m, k) - 1 else 1
    ensures !m.purchaseList.Has(k) ==> r == m
  {
    if m.purchaseList.Has(k) && Quantity(m, k) > 1 then WithQuantity(m, k, Quantity(m, k) - 1) else m
  }

  /** The quantity input, given `parseInt` of what was typed (None when it is
      not a number): a value below 1 becomes 1. */
  function SetQuantity(m: Manager, k: string, parsed: Option<int>): (r: Manager)
    requires Valid(m)
    ensures Valid(r) && r.(entries := m.entries) == m
    ensures m.purchaseList.Has(k) ==>
      Quantity(r, k) == if parsed.Some? && parsed.value >= 1 then parsed.value else 1
    ensures !m.purchaseList.Has(k) ==> r == m
  {
    if !m.purchaseList.Has(k) then m
    else if parsed.Some? && parsed.value >= 1 then WithQuantity(m, k, parsed.value)
    else WithQuantity(m, k, 1)
  }

  /** A decrease undoes an increase. */
  lemma DecreaseAfterIncrease(m: Manager, k: string)
    requires Valid(m)
    ensures Decrease(Increase(m, k), k) == m
  {
    if m.purchaseList.Has(k) {
      var ref := m.purchaseList.values[k];
      assert Decrease(Increase(m, k), k).entries == m.entries[ref := m.entries[ref]];
    }
  }

  /** Quantities live in the shared entries and no checkpoint is saved, so
      an undo right after an increase keeps the new quantity for every key
      the restored list still maps to the same entry, and undo then redo
      returns to the increased state. */
  lemma QuantityNotVersioned(m: Manager, k: string)
    requires Valid(m) && m.purchaseList.Has(k) && H.CanUndo(m.history)
    ensures var r := Undo(Increase(m, k));
      r.purchaseList.Has(k) && r.purchaseList.values[k] == m.purchaseList.values[k] ==>
        Quantity(r, k) == Quantity(m, k) + 1
    ensures Checkpointed(m) ==> Redo(Undo(Increase(m, k))) == Increase(m, k)
  {
    if Checkpointed(m) {
      RedoAfterUndo(Increase(m, k));
    }
  }

  // ---------------------------------------------------------------------------
  // Background

  datatype BackgroundError = MissingBackgroundSource | BackgroundLoadFailed

  /** `setBackground`, with the outcome of the image load given. The
      background is not a checkpoint. */
  function SetBackground(m: Manager, bg: Background, loadOk: bool): (r: Result<Manager, BackgroundError>)
    requires Valid(m)
    ensures r.Success? <==> Truthy(bg.src) && loadOk
    ensures !Truthy(bg.src) ==> r == Failure(MissingBackgroundSource)
    ensures r.Success? ==>
      && Valid(r.value)
      && r.value.surface == m.surface.(backgroundImage := bg.src)
      && r.value.currentBackground == Some(bg)
      && r.value.(surface := m.surface, currentBackground := m.currentBackground) == m
  {
    if !Truthy(bg.src) then Failure(MissingBackgroundSource)
    else if !loadOk then Failure(BackgroundLoadFailed)
    else Success(m.(surface := m.surface.(backgroundImage := bg.src), currentBackground := Some(bg)))
  }
}
