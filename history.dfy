/**
 * The undo/redo history of the store (`history` and `historyIndex` in
 * src/store/formStore.ts): a list of at most 20 form snapshots and a cursor
 * into it. A snapshot is a deep copy (`JSON.parse(JSON.stringify(form))`),
 * which also turns the form's `Date` fields into strings; forms are immutable
 * values here and their dates are integers, so the copy is the form itself. The
 * history does not look inside a snapshot, so it is generic in its type `T`.
 */
module History {
  /** Only the most recent 20 snapshots are kept (`newHistory.slice(-20)`). */
  const Capacity: nat := 20

  /** The history list and the cursor that marks the snapshot shown now; -1 when there is none. */
  datatype Cursor<T> = Cursor(entries: seq<T>, index: int)

  /** What every reachable history satisfies: bounded, and the cursor on an entry exactly when there is one. */
  predicate Valid<T>(h: Cursor<T>) {
    && |h.entries| <= Capacity
    && -1 <= h.index < |h.entries|
    && (h.index == -1 <==> h.entries == [])
  }

  /** The history before any snapshot. */
  function Empty<T>(): Cursor<T> { Cursor([], -1) }

  /**
   * `saveToHistory`: drop the entries after the cursor, append the snapshot,
   * keep the last 20 and put the cursor on the new snapshot.
   */
  function Save<T>(h: Cursor<T>, snapshot: T): (r: Cursor<T>)
    requires Valid(h)
    ensures Valid(r)
    ensures |r.entries| == if h.index + 2 <= Capacity then h.index + 2 else Capacity
    ensures r.index == |r.entries| - 1 && r.entries[r.index] == snapshot
  {
    var kept := h.entries[..h.index + 1] + [snapshot];
    var trimmed := if |kept| > Capacity then kept[|kept| - Capacity..] else kept;
    Cursor(trimmed, if |kept| - 1 < Capacity - 1 then |kept| - 1 else Capacity - 1)
  }

  /**
   * The entries a save keeps before the new snapshot are the most recent ones
   * up to the old cursor, in their old order; the entries after the old cursor
   * (the redo branch) are gone.
   */
  lemma SaveKeepsPrefix<T>(h: Cursor<T>, snapshot: T)
    requires Valid(h)
    ensures var r := Save(h, snapshot);
      forall k :: 0 <= k < r.index ==> r.entries[k] == h.entries[h.index + 1 - r.index + k]
  {
  }

  /** `undo`: step the cursor back one entry unless it is already on the first (or there is none). */
  function Undo<T>(h: Cursor<T>): (r: Cursor<T>)
    requires Valid(h)
    ensures Valid(r) && r.entries == h.entries
    ensures r.index == if h.index > 0 then h.index - 1 else h.index
  {
    if h.index > 0 then h.(index := h.index - 1) else h
  }

  /** `redo`: step the cursor forward one entry unless it is already on the last. */
  function Redo<T>(h: Cursor<T>): (r: Cursor<T>)
    requires Valid(h)
    ensures Valid(r) && r.entries == h.entries
    ensures r.index == if h.index < |h.entries| - 1 then h.index + 1 else h.index
  {
    if h.index < |h.entries| - 1 then h.(index := h.index + 1) else h
  }

  /** Undo followed by redo returns to the same place, wherever undo could act. */
  lemma RedoAfterUndo<T>(h: Cursor<T>)
    requires Valid(h) && h.index > 0
    ensures Redo(Undo(h)) == h
  {
  }

  /** Redo followed by undo returns to the same place, wherever redo could act. */
  lemma UndoAfterRedo<T>(h: Cursor<T>)
    requires Valid(h) && h.index < |h.entries| - 1
    ensures Undo(Redo(h)) == h
  {
  }

  /** Undo right after a save shows again the snapshot that was current before the save. */
  lemma UndoAfterSave<T>(h: Cursor<T>, snapshot: T)
    requires Valid(h) && h.index >= 0
    ensures var u := Undo(Save(h, snapshot)); u.entries[u.index] == h.entries[h.index]
  {
    var s := Save(h, snapshot);
    SaveKeepsPrefix(h, snapshot);
    assert s.index >= 1;
    assert s.entries[s.index - 1] == h.entries[h.index + 1 - s.index + s.index - 1];
  }

  /** `n` undos in a row. */
  function UndoTimes<T>(h: Cursor<T>, n: nat): (r: Cursor<T>)
    requires Valid(h)
    ensures Valid(r)
    decreases n
  {
    if n == 0 then h else UndoTimes(Undo(h), n - 1)
  }

  /** Undo never fails at the boundary: `n` undos move the cursor back `n` entries but never past the first. */
  lemma {:induction false} UndoTimesIndex<T>(h: Cursor<T>, n: nat)
    requires Valid(h)
    ensures UndoTimes(h, n).entries == h.entries
    ensures UndoTimes(h, n).index == if h.index - n >= 0 then h.index - n else if h.index >= 0 then 0 else -1
    decreases n
  {
    if n > 0 {
      UndoTimesIndex(Undo(h), n - 1);
    }
  }

  /** One snapshot per structural edit, oldest first. */
  function SaveAll<T>(h: Cursor<T>, snapshots: seq<T>): (r: Cursor<T>)
    requires Valid(h)
    ensures Valid(r)
  {
    if snapshots == [] then h else Save(SaveAll(h, snapshots[..|snapshots| - 1]), snapshots[|snapshots| - 1])
  }

  /**
   * After saving the snapshots in order, the cursor is on the last one and
   * the entries just before it are the previous snapshots, newest first, as
   * far back as the 20-entry capacity allows.
   */
  lemma {:induction false} SaveAllRecent<T>(h: Cursor<T>, snapshots: seq<T>, back: nat)
    requires Valid(h) && |snapshots| >= 1
    requires back < |snapshots| && back < Capacity
    ensures var r := SaveAll(h, snapshots);
      r.index == |r.entries| - 1 && back <= r.index && r.entries[r.index - back] == snapshots[|snapshots| - 1 - back]
  {
    var init := snapshots[..|snapshots| - 1];
    var last := snapshots[|snapshots| - 1];
    var prev := SaveAll(h, init);
    assert SaveAll(h, snapshots) == Save(prev, last);
    if back > 0 {
      SaveAllRecent(h, init, back - 1);
      SaveKeepsRecent(prev, last, back);
      assert init[|init| - 1 - (back - 1)] == snapshots[|snapshots| - 1 - back];
    }
  }

  /** One save shifts the earlier snapshots one place further from the cursor. */
  lemma SaveKeepsRecent<T>(h: Cursor<T>, snapshot: T, back: nat)
    requires Valid(h) && 0 < back < Capacity && back - 1 <= h.index
    ensures var r := Save(h, snapshot); back <= r.index && r.entries[r.index - back] == h.entries[h.index - (back - 1)]
  {
    var r := Save(h, snapshot);
    SaveKeepsPrefix(h, snapshot);
    var k := r.index - back;
    assert r.entries[k] == h.entries[h.index + 1 - r.index + k];
  }

  /**
   * After `n` structural edits each followed by a snapshot, `back` undos
   * (fewer than `n` and than the capacity) show the document as it was `back`
   * edits ago.
   */
  lemma UndoRestoresEarlierEdit<T>(h: Cursor<T>, snapshots: seq<T>, back: nat)
    requires Valid(h) && |snapshots| >= 1
    requires back < |snapshots| && back < Capacity
    ensures var u := UndoTimes(SaveAll(h, snapshots), back); u.index >= 0 && u.entries[u.index] == snapshots[|snapshots| - 1 - back]
  {
    SaveAllRecent(h, snapshots, back);
    UndoTimesIndex(SaveAll(h, snapshots), back);
  }
}
