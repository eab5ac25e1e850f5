/** The undo/redo history manager: a linear, branch-discarding log of opaque raster
    snapshots with a cursor. Snapshots are taken when a local stroke starts; the cursor
    value -1 stands for the empty surface. */
module HistoryLog {
  import opened Wrappers

  datatype History<S> = History(entries: seq<S>, index: int)

  /** The log's index invariant: -1 <= index <= |entries| - 1. */
  predicate Valid<S>(h: History<S>) {
    -1 <= h.index < |h.entries|
  }

  /** Every history the client reaches also has the cursor at -1 exactly when the log is empty. */
  predicate Anchored<S>(h: History<S>) {
    h.index == -1 <==> h.entries == []
  }

  function Empty<S>(): History<S> {
    History([], -1)
  }

  predicate CanUndo<S>(h: History<S>) {
    h.index > 0
  }

  predicate CanRedo<S>(h: History<S>) {
    h.index < |h.entries| - 1
  }

  /** The snapshot the cursor designates, if any. */
  function Current<S>(h: History<S>): Option<S>
    requires Valid(h)
  {
    if h.index == -1 then None else Some(h.entries[h.index])
  }

  /** Taking a snapshot: keeps the entries up to the cursor, drops the redo tail and
      appends the snapshot, which becomes current. */
  function Save<S>(h: History<S>, s: S): (r: History<S>)
    requires Valid(h)
    ensures Valid(r) && Anchored(r) && !CanRedo(r)
    ensures r.index == h.index + 1 && |r.entries| == h.index + 2
    ensures r.entries[..r.index] == h.entries[..h.index + 1]
    ensures Current(r) == Some(s)
  {
    History(h.entries[..h.index + 1] + [s], h.index + 1)
  }

  /** Undo: a no-op at index 0 or -1; otherwise the cursor moves back one entry. */
  function Undo<S>(h: History<S>): (r: History<S>)
    requires Valid(h)
    ensures Valid(r) && r.entries == h.entries
    ensures Anchored(h) ==> Anchored(r)
    ensures CanUndo(h) ==> r.index == h.index - 1 && CanRedo(r)
    ensures !CanUndo(h) ==> r == h
  {
    if h.index <= 0 then h else History(h.entries, h.index - 1)
  }

  /** Redo: a no-op at the last entry; otherwise the cursor moves forward one entry. */
  function Redo<S>(h: History<S>): (r: History<S>)
    requires Valid(h)
    ensures Valid(r) && r.entries == h.entries
    ensures Anchored(h) ==> Anchored(r)
    ensures CanRedo(h) ==> r.index == h.index + 1 && r.index >= 0
    ensures !CanRedo(h) ==> r == h
  {
    if h.index >= |h.entries| - 1 then h else History(h.entries, h.index + 1)
  }

  /** Page load: a stored list replaces the log with the cursor on its last entry;
      with nothing stored the log stays as it is. */
  function Load<S>(h: History<S>, stored: Option<seq<S>>): (r: History<S>)
    requires Valid(h)
    ensures Valid(r)
    ensures Anchored(h) ==> Anchored(r)
    ensures stored.Some? ==> r.entries == stored.value && Anchored(r) && !CanRedo(r)
    ensures stored.None? ==> r == h
  {
    match stored
    case Some(list) => History(list, |list| - 1)
    case None => h
  }

  /** The history operations a client performs. */
  datatype Op<S> = SaveOp(snapshot: S) | UndoOp | RedoOp | ClearOp | LoadOp(stored: Option<seq<S>>)

  function Apply<S>(h: History<S>, op: Op<S>): (r: History<S>)
    requires Valid(h)
    ensures Valid(r)
    ensures Anchored(h) ==> Anchored(r)
  {
    match op
    case SaveOp(s) => Save(h, s)
    case UndoOp => Undo(h)
    case RedoOp => Redo(h)
    case ClearOp => Empty()
    case LoadOp(stored) => Load(h, stored)
  }

  /** Any sequence of operations, from any valid log, keeps the index invariant. */
  function Run<S>(h: History<S>, ops: seq<Op<S>>): (r: History<S>)
    requires Valid(h)
    ensures Valid(r)
    ensures Anchored(h) ==> Anchored(r)
    decreases |ops|
  {
    if ops == [] then h else Run(Apply(h, ops[0]), ops[1..])
  }

  /** `k` undos in a row: the cursor steps back to 0 at the lowest, and never leaves -1. */
  function UndoTimes<S>(h: History<S>, k: nat): (r: History<S>)
    requires Valid(h)
    ensures Valid(r) && r.entries == h.entries
    ensures r.index == if h.index <= 0 then h.index else if k <= h.index then h.index - k else 0
    decreases k
  {
    if k == 0 then h else UndoTimes(Undo(h), k - 1)
  }

  /** `k` redos in a row: the cursor steps forward to the last entry at the highest. */
  function RedoTimes<S>(h: History<S>, k: nat): (r: History<S>)
    requires Valid(h)
    ensures Valid(r) && r.entries == h.entries
    ensures r.index == if h.index + k <= |h.entries| - 1 then h.index + k else |h.entries| - 1
    decreases k
  {
    if k == 0 then h else RedoTimes(Redo(h), k - 1)
  }

  /** Undo then redo returns to the same log, so the same snapshot is current again. */
  lemma UndoThenRedo<S>(h: History<S>)
    requires Valid(h) && CanUndo(h)
    ensures Redo(Undo(h)) == h
  {
  }

  /** Redo then undo returns to the same cursor on every reachable log. */
  lemma RedoThenUndo<S>(h: History<S>)
    requires Valid(h) && Anchored(h) && CanRedo(h)
    ensures Undo(Redo(h)) == h
  {
  }

  /** Without the anchoring, redo-then-undo would not come back: from cursor -1 over a
      non-empty log, redo moves to 0 and undo stays there. */
  lemma RedoThenUndoNeedsAnchored()
    ensures var h := History([0], -1);
      Valid(h) && !Anchored(h) && CanRedo(h) && Undo(Redo(h)) != h
  {
  }

  /** Up to `h.index` undos followed by as many redos restore the log exactly. */
  lemma {:induction false} UndoRedoTimesRoundTrip<S>(h: History<S>, k: nat)
    requires Valid(h) && k <= h.index
    ensures RedoTimes(UndoTimes(h, k), k) == h
  {
    var u := UndoTimes(h, k);
    assert u.entries == h.entries && u.index == h.index - k;
    var r := RedoTimes(u, k);
    assert r.entries == h.entries && r.index == h.index;
  }

  /** Undo never goes past the first snapshot: on a non-empty log some snapshot stays current. */
  lemma UndoKeepsFirstSnapshot<S>(h: History<S>, k: nat)
    requires Valid(h) && Anchored(h) && h.entries != []
    ensures UndoTimes(h, k).index >= 0 && Current(UndoTimes(h, k)).Some?
  {
  }

  /** Saving after an undo discards every redo entry: redo is then a no-op. */
  lemma SaveDiscardsRedoTail<S>(h: History<S>, s: S)
    requires Valid(h) && CanRedo(h)
    ensures Save(h, s).entries == h.entries[..h.index + 1] + [s]
    ensures |Save(h, s).entries| <= |h.entries|
    ensures Redo(Save(h, s)) == Save(h, s)
  {
  }

  /** Saving each snapshot of `ss` in turn. */
  function SaveAll<S>(h: History<S>, ss: seq<S>): (r: History<S>)
    requires Valid(h)
    ensures Valid(r)
    decreases |ss|
  {
    if ss == [] then h else SaveAll(Save(h, ss[0]), ss[1..])
  }

  /** Saves in a row keep the entries up to the cursor, drop any redo tail and append the
      snapshots in order, the last one current. */
  lemma {:induction false} SaveAllAppends<S>(h: History<S>, ss: seq<S>)
    requires Valid(h) && ss != []
    ensures SaveAll(h, ss) == History(h.entries[..h.index + 1] + ss, h.index + |ss|)
    decreases |ss|
  {
    var h' := Save(h, ss[0]);
    if |ss| == 1 {
      assert ss == [ss[0]];
    } else {
      SaveAllAppends(h', ss[1..]);
      assert h'.entries[..h'.index + 1] == h.entries[..h.index + 1] + [ss[0]];
      assert (h.entries[..h.index + 1] + [ss[0]]) + ss[1..] == h.entries[..h.index + 1] + ss;
    }
  }

  /** The stored list does not carry the cursor: reloading puts the cursor on the last
      entry, so a state reached by undo is not the state restored by a reload. */
  lemma ReloadForgetsCursor<S>(h: History<S>)
    requires Valid(h) && CanRedo(h)
    ensures Load(h, Some(h.entries)).entries == h.entries
    ensures Load(h, Some(h.entries)).index == |h.entries| - 1 != h.index
  {
  }
}
