/** The canvas's linear undo history (canvas-manager.js, `saveState`, `undo`,
    `redo`): at most 50 snapshots and a cursor at the one currently shown.
    Saving after an undo discards the snapshots that could have been redone. */
module History {

  /** `maxHistorySize`. */
  const Capacity: nat := 50

  datatype History<T> = History(snapshots: seq<T>, cursor: int)

  /** `history = []`, `historyIndex = -1`, before the first checkpoint. */
  function Initial<T>(): (h: History<T>)
    ensures Valid(h) && h.snapshots == []
  {
    History([], -1)
  }

  /** The first checkpoint is the only snapshot, under the cursor. */
  lemma PushInitial<T>(s: T)
    ensures Push(Initial(), s) == History([s], 0)
  {
    assert ([] + [s]) == [s];
  }

  /** The cursor is -1 exactly while there is no snapshot, and otherwise
      points into the at most `Capacity` snapshots. */
  ghost predicate Valid<T>(h: History<T>) {
    && |h.snapshots| <= Capacity
    && (if h.snapshots == [] then h.cursor == -1 else 0 <= h.cursor < |h.snapshots|)
  }

  function Min(a: int, b: int): int {
    if a <= b then a else b
  }

  /** `saveState`: cut everything after the cursor, append `s`, drop the
      oldest snapshot when more than `Capacity` remain, point at the end. */
  function Push<T>(h: History<T>, s: T): (r: History<T>)
    requires Valid(h)
    ensures Valid(r)
    ensures 1 <= |r.snapshots| <= Capacity && r.cursor == |r.snapshots| - 1
    ensures r.snapshots[r.cursor] == s
    ensures |r.snapshots| == Min(h.cursor + 2, Capacity)
    ensures r.snapshots[..r.cursor] == h.snapshots[h.cursor + 2 - |r.snapshots|..h.cursor + 1]
  {
    var kept := if h.cursor < |h.snapshots| - 1 then h.snapshots[..h.cursor + 1] else h.snapshots;
    var grown := kept + [s];
    var trimmed := if |grown| > Capacity then grown[1..] else grown;
    History(trimmed, |trimmed| - 1)
  }

  /** A save introduces no snapshot other than the one saved. */
  lemma PushMembers<T>(h: History<T>, s: T)
    requires Valid(h)
    ensures forall x :: x in Push(h, s).snapshots ==> x in h.snapshots || x == s
  {
    var r := Push(h, s);
    forall x | x in r.snapshots ensures x in h.snapshots || x == s {
      var i :| 0 <= i < |r.snapshots| && r.snapshots[i] == x;
      if i < r.cursor {
        assert x == r.snapshots[..r.cursor][i];
        assert x in h.snapshots[h.cursor + 2 - |r.snapshots|..h.cursor + 1];
      }
    }
  }

  predicate CanUndo<T>(h: History<T>) {
    h.cursor > 0
  }

  predicate CanRedo<T>(h: History<T>) {
    h.cursor < |h.snapshots| - 1
  }

  /** `undo`'s cursor move; a no-op at the oldest snapshot. */
  function Undo<T>(h: History<T>): (r: History<T>)
    requires Valid(h)
    ensures Valid(r) && r.snapshots == h.snapshots
    ensures CanUndo(h) ==> r.cursor == h.cursor - 1
    ensures !CanUndo(h) ==> r == h
  {
    if h.cursor > 0 then History(h.snapshots, h.cursor - 1) else h
  }

  /** `redo`'s cursor move; a no-op at the newest snapshot. */
  function Redo<T>(h: History<T>): (r: History<T>)
    requires Valid(h)
    ensures Valid(r) && r.snapshots == h.snapshots
    ensures CanRedo(h) ==> r.cursor == h.cursor + 1
    ensures !CanRedo(h) ==> r == h
  {
    if h.cursor < |h.snapshots| - 1 then History(h.snapshots, h.cursor + 1) else h
  }

  /** The snapshot the cursor points at. */
  function Current<T>(h: History<T>): T
    requires Valid(h) && h.snapshots != []
  {
    h.snapshots[h.cursor]
  }

  /** An effective undo is reversed by a redo. */
  lemma RedoUndo<T>(h: History<T>)
    requires Valid(h) && CanUndo(h)
    ensures CanRedo(Undo(h)) && Redo(Undo(h)) == h
  {
  }

  /** An effective redo is reversed by an undo. */
  lemma UndoRedo<T>(h: History<T>)
    requires Valid(h) && CanRedo(h)
    ensures CanUndo(Redo(h)) && Undo(Redo(h)) == h
  {
  }

  /** Saving while redo is possible discards the redo branch: the new history
      is the snapshots up to the cursor followed by the new one (while below
      capacity), so nothing that was undone can be redone any more. */
  lemma PushDiscardsRedoBranch<T>(h: History<T>, s: T)
    requires Valid(h) && CanRedo(h) && h.cursor + 2 <= Capacity
    ensures Push(h, s).snapshots == h.snapshots[..h.cursor + 1] + [s]
    ensures !CanRedo(Push(h, s))
  {
  }

  /** Saves `xs` one after another. */
  function PushAll<T>(h: History<T>, xs: seq<T>): (r: History<T>)
    requires Valid(h)
    ensures Valid(r)
  {
    if xs == [] then h else Push(PushAll(h, xs[..|xs| - 1]), xs[|xs| - 1])
  }

  /** Starting from the empty history, any number of saves leaves exactly the
      last `min(n, 50)` snapshots, oldest first, with the cursor on the newest:
      the earliest survivor of `n > 50` saves is the `(n - 49)`-th saved. */
  lemma {:induction false} PushAllKeepsNewest<T>(xs: seq<T>)
    ensures PushAll(Initial(), xs).snapshots == xs[|xs| - Min(|xs|, Capacity)..]
    ensures PushAll(Initial(), xs).cursor == Min(|xs|, Capacity) - 1
  {
    if xs != [] {
      PushAllKeepsNewest(xs[..|xs| - 1]);
      PushKeepsNewest(PushAll(Initial(), xs[..|xs| - 1]), xs);
    }
  }

  /** One more save onto a history holding the newest saves of all but the
      last of `xs`. */
  lemma PushKeepsNewest<T>(h: History<T>, xs: seq<T>)
    requires Valid(h) && xs != []
    requires var ys := xs[..|xs| - 1];
      h.snapshots == ys[|ys| - Min(|ys|, Capacity)..] && h.cursor == Min(|ys|, Capacity) - 1
    ensures Push(h, xs[|xs| - 1]).snapshots == xs[|xs| - Min(|xs|, Capacity)..]
    ensures Push(h, xs[|xs| - 1]).cursor == Min(|xs|, Capacity) - 1
  {
    var x := xs[|xs| - 1];
    var ys := xs[..|xs| - 1];
    var r := Push(h, x);
    assert r.snapshots == r.snapshots[..r.cursor] + [x];
    if |xs| <= Capacity {
      assert r.snapshots[..r.cursor] == ys;
      assert ys + [x] == xs;
    } else {
      assert r.snapshots[..r.cursor] == ys[|xs| - Capacity..];
      assert xs[|xs| - Capacity..] == ys[|xs| - Capacity..] + [x];
    }
  }
}
