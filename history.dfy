/**
 * The bounded, linear undo/redo history of the drawing application, as values:
 * the sequence of canvas snapshots and the cursor `index` into it
 * (`history` and `historyIndex` of `DrawingApp`). The class in `App` is proved
 * to follow these functions step by step.
 */
module UndoHistory {
  /** At most this many snapshots are kept. */
  const Capacity: nat := 20

  datatype History<S> = History(entries: seq<S>, index: int)

  /** What `restoreState` chooses to paint: the background fill alone, or a
      snapshot drawn after the background fill. */
  datatype Display<S> = BackgroundOnly | Snapshot(image: S)

  /** The invariant every reachable history satisfies: the cursor is in
      [-1, length - 1], it is -1 only when there is nothing saved, and the
      length never exceeds the capacity. */
  ghost predicate Valid<S>(h: History<S>) {
    && |h.entries| <= Capacity
    && -1 <= h.index < |h.entries|
    && (h.index == -1 <==> h.entries == [])
  }

  /** The undo button is enabled. */
  predicate CanUndo<S>(h: History<S>) {
    h.index > 0
  }

  /** The redo button is enabled. */
  predicate CanRedo<S>(h: History<S>) {
    h.index < |h.entries| - 1
  }

  /** The empty history the application starts from. */
  function Empty<S>(): (h: History<S>)
    ensures Valid(h) && !CanUndo(h) && !CanRedo(h)
  {
    History([], -1)
  }

  /** Capturing a snapshot: entries after the cursor are discarded, then the
      oldest entry is evicted if the history is full (the cursor stays), or
      else the cursor advances, and the snapshot is appended. */
  function Save<S>(h: History<S>, snap: S): (r: History<S>)
    requires Valid(h)
    ensures Valid(r)
    // the cursor is on the new snapshot, so there is nothing to redo
    ensures r.entries != [] && r.index == |r.entries| - 1
    ensures r.entries[r.index] == snap && !CanRedo(r)
    // the entries before the new one are the old entries up to the cursor,
    // less the oldest when the history was full
    ensures |r.entries| == if h.index + 1 < Capacity then h.index + 2 else Capacity
    ensures forall i :: 0 <= i < r.index ==> r.entries[i] == h.entries[i + (h.index + 1 - r.index)]
  {
    var kept := if h.index < |h.entries| - 1 then h.entries[..h.index + 1] else h.entries;
    if |kept| >= Capacity then History(kept[1..] + [snap], h.index)
    else History(kept + [snap], h.index + 1)
  }

  /** Undo moves the cursor back by one when it is past the first entry. */
  function Undo<S>(h: History<S>): (r: History<S>)
    requires Valid(h)
    ensures Valid(r) && r.entries == h.entries
    ensures CanUndo(h) ==> r.index == h.index - 1
    ensures !CanUndo(h) ==> r == h
  {
    if h.index > 0 then h.(index := h.index - 1) else h
  }

  /** Redo moves the cursor forward by one when it is before the last entry. */
  function Redo<S>(h: History<S>): (r: History<S>)
    requires Valid(h)
    ensures Valid(r) && r.entries == h.entries
    ensures CanRedo(h) ==> r.index == h.index + 1
    ensures !CanRedo(h) ==> r == h
  {
    if h.index < |h.entries| - 1 then h.(index := h.index + 1) else h
  }

  /** A confirmed "new canvas": the history is emptied and the blank canvas
      is captured as its only entry. */
  function Reset<S>(blank: S): (r: History<S>)
    ensures Valid(r) && r.entries == [blank] && r.index == 0
    ensures !CanUndo(r) && !CanRedo(r)
  {
    Save(Empty(), blank)
  }

  /** The selection made by `restoreState`. */
  function Shown<S>(h: History<S>): (d: Display<S>)
    ensures d.Snapshot? <==> 0 <= h.index < |h.entries|
    ensures d.Snapshot? ==> d.image == h.entries[h.index]
  {
    if 0 <= h.index < |h.entries| then Snapshot(h.entries[h.index]) else BackgroundOnly
  }

  /** Every capture in turn, oldest first. */
  function SaveAll<S>(h: History<S>, snaps: seq<S>): (r: History<S>)
    requires Valid(h)
    ensures Valid(r)
    decreases |snaps|
  {
    if snaps == [] then h
    else Save(SaveAll(h, snaps[..|snaps| - 1]), snaps[|snaps| - 1])
  }

  /** `k` presses of the undo button. */
  function Undos<S>(h: History<S>, k: nat): (r: History<S>)
    requires Valid(h)
    ensures Valid(r) && r.entries == h.entries
  {
    if k == 0 then h else Undo(Undos(h, k - 1))
  }

  /** `k` presses of the redo button. */
  function Redos<S>(h: History<S>, k: nat): (r: History<S>)
    requires Valid(h)
    ensures Valid(r) && r.entries == h.entries
  {
    if k == 0 then h else Redo(Redos(h, k - 1))
  }

  // ---------------------------------------------------------------------
  // Properties of the history

  /** The history keeps the most recent entries of `all` (at most 20), with
      the cursor on the last of them. */
  ghost predicate KeepsLatest<S>(h: History<S>, all: seq<S>) {
    && |h.entries| == (if |all| < Capacity then |all| else Capacity)
    && h.entries == all[|all| - |h.entries|..]
    && h.index == |h.entries| - 1
  }

  /** Capturing on a history whose cursor is at the end slides the window of
      the most recent entries by one. */
  lemma SaveSlidesWindow<S>(p: History<S>, all: seq<S>, snap: S)
    requires Valid(p) && all != [] && KeepsLatest(p, all)
    ensures KeepsLatest(Save(p, snap), all + [snap])
  {
    var h := Save(p, snap);
    var all' := all + [snap];
    assert h.entries == p.entries[|p.entries| - h.index ..] + [snap];
    assert h.entries == all'[|all'| - |h.entries|..];
  }

  /** Starting from a fresh canvas and capturing `snaps`, the history holds
      the most recent captures (at most 20 of them, the oldest evicted first),
      the cursor is on the last one, undo is possible exactly when something
      was captured after the blank canvas, and redo is never possible. */
  lemma {:induction false} SaveAllFromReset<S>(blank: S, snaps: seq<S>)
    ensures KeepsLatest(SaveAll(Reset(blank), snaps), [blank] + snaps)
    ensures CanUndo(SaveAll(Reset(blank), snaps)) <==> snaps != []
    ensures !CanRedo(SaveAll(Reset(blank), snaps))
    decreases |snaps|
  {
    if snaps == [] {
      SaveNoneFromReset(blank, snaps);
    } else {
      SaveAllFromReset(blank, snaps[..|snaps| - 1]);
      SaveAllStep(blank, snaps);
    }
  }

  /** The base case of `SaveAllFromReset`: nothing captured. */
  lemma SaveNoneFromReset<S>(blank: S, snaps: seq<S>)
    requires snaps == []
    ensures KeepsLatest(SaveAll(Reset(blank), snaps), [blank] + snaps)
    ensures !CanUndo(SaveAll(Reset(blank), snaps))
  {
    assert SaveAll(Reset(blank), snaps) == Reset(blank);
    assert [blank] + snaps == [blank];
  }

  /** The inductive step of `SaveAllFromReset`: one more capture. */
  lemma SaveAllStep<S>(blank: S, snaps: seq<S>)
    requires snaps != []
    requires KeepsLatest(SaveAll(Reset(blank), snaps[..|snaps| - 1]), [blank] + snaps[..|snaps| - 1])
    ensures KeepsLatest(SaveAll(Reset(blank), snaps), [blank] + snaps)
    ensures |SaveAll(Reset(blank), snaps).entries| >= 2
  {
    var init, last := snaps[..|snaps| - 1], snaps[|snaps| - 1];
    var p := SaveAll(Reset(blank), init);
    assert SaveAll(Reset(blank), snaps) == Save(p, last);
    SaveSlidesWindow(p, [blank] + init, last);
    ConsLastSplit(blank, snaps);
  }

  lemma ConsLastSplit<S>(x: S, s: seq<S>)
    requires s != []
    ensures ([x] + s[..|s| - 1]) + [s[|s| - 1]] == [x] + s
  {
  }

  /** After `k` effective undos, the same number of redos brings the history
      back exactly where it was. */
  lemma {:induction false} UndosThenRedos<S>(h: History<S>, k: nat)
    requires Valid(h) && k <= h.index
    ensures Undos(h, k).index == h.index - k
    ensures Redos(Undos(h, k), k) == h
  {
    UndosMoveBack(h, k);
    RedosMoveForward(Undos(h, k), k);
  }

  /** `k` undos from a cursor at least `k` move the cursor back by exactly `k`. */
  lemma {:induction false} UndosMoveBack<S>(h: History<S>, k: nat)
    requires Valid(h) && k <= h.index
    ensures Undos(h, k) == h.(index := h.index - k)
  {
    if k > 0 {
      UndosMoveBack(h, k - 1);
    }
  }

  /** `k` redos from a cursor at least `k` before the end move it forward by
      exactly `k`. */
  lemma {:induction false} RedosMoveForward<S>(h: History<S>, k: nat)
    requires Valid(h) && h.index + k <= |h.entries| - 1
    ensures Redos(h, k) == h.(index := h.index + k)
  {
    if k > 0 {
      RedosMoveForward(h, k - 1);
    }
  }

  /** One effective undo is reversed by one redo, and the other way round. */
  lemma UndoRedoInverse<S>(h: History<S>)
    requires Valid(h)
    ensures CanUndo(h) ==> CanRedo(Undo(h)) && Redo(Undo(h)) == h
    ensures CanRedo(h) ==> CanUndo(Redo(h)) && Undo(Redo(h)) == h
  {
  }

  /** Capturing after `k` undos truncates the redo branch: the entries up to
      the new cursor are kept, the `k` undone entries are gone, and redo is
      no longer possible. */
  lemma {:induction false} SaveAfterUndosTruncates<S>(h: History<S>, k: nat, snap: S)
    requires Valid(h) && 0 < k <= h.index
    ensures Save(Undos(h, k), snap).entries == h.entries[..h.index - k + 1] + [snap]
    ensures Redo(Save(Undos(h, k), snap)) == Save(Undos(h, k), snap)
  {
    UndosMoveBack(h, k);
  }

  /** At capacity with the cursor on the last entry, a capture shifts out
      the oldest entry and keeps the length at 20 and the cursor at 19. */
  lemma SaveAtCapacityEvictsOldest<S>(h: History<S>, snap: S)
    requires Valid(h) && |h.entries| == Capacity && h.index == Capacity - 1
    ensures Save(h, snap) == History(h.entries[1..] + [snap], Capacity - 1)
  {
  }

  /** `restoreState` shows the snapshot just captured, and after an effective
      undo it shows the entry before the one that was current. */
  lemma ShownAfterSaveAndUndo<S>(h: History<S>, snap: S)
    requires Valid(h)
    ensures Shown(Save(h, snap)) == Snapshot(snap)
    ensures CanUndo(h) ==> Shown(Undo(h)) == Snapshot(h.entries[h.index - 1])
    ensures h.entries != [] ==> Shown(h).Snapshot?
  {
  }
}
