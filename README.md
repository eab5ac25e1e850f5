# Collaborative whiteboard client: session state model

This project models the browser client of a real-time collaborative whiteboard
(`public/script.js`). Clients draw on a canvas and send to a relay every stroke, every erase,
every pointer move made during a stroke, the end of each stroke, and every "clear". They
replay the events of their peers. Pointer moves are sent only while a stroke is in progress,
so peers see the cursor label only during someone's stroke.
The model covers the client's session state and its event handlers:

- **History manager** (`HistoryLog`, and `Whiteboard.SaveState`, `Undo`, `Redo`, `ClearClick`,
  `OnLoad`). It keeps a linear, branch-discarding log of canvas snapshots (opaque to the log) with a cursor.
  A snapshot is taken when a local stroke starts. Saving drops the redo tail. Undo and redo
  are no-ops at the ends. Save, undo and redo ask local storage to store the whole list;
  clear removes it, and load writes nothing.
- **Remote cursor label** (`CursorLabel`, and the four peer-event handlers). There is one
  label slot. Peer events move it and name the peer. Events carrying the local name leave it
  alone. A peer's `stoppedDrawing` hides it.
- **Emit versus replay** (`Stroke`, `Whiteboard.DrawLine`, `Whiteboard.Erase`). A local
  stroke renders and appends one message to the outbox. A replayed stroke only renders. An
  erase clears a `size` x `size` square centred on the destination point.
- **Session identity** (`Identity`, `Whiteboard.SubmitName`, `Whiteboard.OnLoad`). The
  submitted name is trimmed. It is persisted, and the name prompt closed, only when
  something remains.

The pure modules hold the specification functions and the lemmas about them. Module
`Client` holds the `Whiteboard` class. Its fields are the script's module-level variables.
Its methods are the handlers, and their postconditions tie the new state to those
functions. The class invariant `Valid()` has three parts:
- the history index stays in `[-1, |history| - 1]`, and is -1 exactly when the log is empty;
- a non-empty history is always the persisted one (storage writes are taken to succeed, and
  no other page writes the store);
- the label is shown exactly when its text is non-empty.

Behaviour of the code that the model keeps and that a reader might not expect:
- The identity does not gate drawing in the code. `mousedown` never looks at the name; only
  the name prompt covering the page stands in the way. The model follows the code.
- Undo and redo persist the list but not the cursor. A reload puts the cursor on the last
  entry, so an undone state does not survive a reload (`HistoryLog.ReloadForgetsCursor`).
- The label is a single slot, so any peer's `stoppedDrawing` hides it, even while it names
  another peer (`CursorLabel.StopHidesAnyPeer`).
- A stored history is not checked on load. Malformed stored JSON would throw in the code;
  the model does not invent a recovery path for it.
- Snapshots are taken at pointer-down, before the stroke is drawn, so entry `i` holds the
  surface as it was before stroke `i`. A snapshot here is the surface itself, so the model
  states the consequences (`Client.UndoAfterOneStroke`, `Client.UndoAfterTwoStrokes`):
  - after one stroke on a fresh board, undo does nothing (index 0), so that stroke cannot be
    undone on its own;
  - after two strokes, one undo shows the board from before the first stroke, removing both;
  - redo then shows the board with the first stroke only. The board as it was before the
    undo is in no snapshot, so no undo or redo brings it back, and undo followed by redo
    does not restore the raster the user saw;
  - the same holds after redrawing: strokes A and B, undo, strokes C and D, undo leaves the
    board blank again (`Client.UndoAfterRedrawing`);
  - after a reload, the first stroke saves the restored board a second time, so undo and
    redo both show the board as it was loaded (`Client.StrokeAfterReload`).

## Model

| member | source | states |
|---|---|---|
| `HistoryLog.Save` | public/script.js:140-145 | keeps the entries up to the cursor, discards the redo tail, appends the snapshot as the new current last entry (index + 1), keeps the index invariant |
| `HistoryLog.Undo` | public/script.js:147-149 | no-op when the index is 0 or -1; otherwise moves the cursor back one with the entries unchanged, after which redo is possible; keeps the index invariant |
| `HistoryLog.Redo` | public/script.js:159-161 | no-op on the last entry; otherwise moves the cursor forward one with the entries unchanged; keeps the index invariant |
| `HistoryLog.Load` | public/script.js:182-186 | a stored list becomes the log with the cursor on its last entry; with nothing stored the log is unchanged; the index invariant holds either way |
| `HistoryLog.Apply` | public/script.js:120-169 | each history operation (save, undo, redo, clear, load) keeps the index invariant and the anchoring (index -1 exactly on an empty log) |
| `HistoryLog.Run` | public/script.js:120-169 | any sequence of history operations keeps `-1 <= index <= length - 1`, and keeps the anchoring |
| `HistoryLog.UndoTimes` | public/script.js:147-149 | k undos leave the entries alone and move the cursor back k places, stopping at 0, never leaving -1 |
| `HistoryLog.RedoTimes` | public/script.js:159-161 | k redos leave the entries alone and move the cursor forward k places, stopping at the last entry |
| `HistoryLog.UndoThenRedo` | public/script.js:147-167 | when undo is possible, undo then redo gives back the same log (cursor and entries), hence the same current snapshot; this is not the live raster |
| `HistoryLog.RedoThenUndo` | public/script.js:147-167 | on every reachable log, when redo is possible, redo then undo gives back the same log |
| `HistoryLog.RedoThenUndoNeedsAnchored` | public/script.js:147-167 | the anchoring is needed: from index -1 over a non-empty log, redo then undo does not come back |
| `HistoryLog.UndoRedoTimesRoundTrip` | public/script.js:147-167 | up to `index` undos followed by as many redos restore the log exactly |
| `HistoryLog.UndoKeepsFirstSnapshot` | public/script.js:147-149 | no number of undos gets past the first snapshot; some snapshot stays current |
| `HistoryLog.SaveDiscardsRedoTail` | public/script.js:140-143 | saving after an undo keeps the entries up to the cursor and appends the snapshot, dropping the redo entries, so the log grows by no entry; redo is then a no-op |
| `HistoryLog.SaveAll` | public/script.js:140-145 | saving a sequence of snapshots keeps the index invariant |
| `HistoryLog.SaveAllAppends` | public/script.js:140-145 | saves in a row keep the entries up to the cursor, drop any redo tail, and append the snapshots in order with the last one current |
| `HistoryLog.ReloadForgetsCursor` | public/script.js:182-186 | reloading the persisted list restores the entries but puts the cursor on the last one, so a state reached by undo is not restored |
| `CursorLabel.Place` | public/script.js:21-27 | the label is placed at (x, y + 20) with text `user`, and is shown exactly when `user` is non-empty |
| `CursorLabel.Hidden` | public/script.js:106-110 | the label a peer's stop leaves is hidden, with empty text |
| `CursorLabel.Observe` | public/script.js:86-110 | events from the local name (and `clear`) leave the label unchanged; a peer's stop hides it; a peer's stroke or move shows the peer's name at the reported point plus the canvas offset; visibility keeps following the text |
| `CursorLabel.ObserveAll` | public/script.js:86-110 | any sequence of received events keeps "shown exactly when the text is non-empty" |
| `CursorLabel.StopIdempotent` | public/script.js:106-110 | a peer's second `stoppedDrawing` in a row leaves the label as the first left it |
| `CursorLabel.StopHidesAnyPeer` | public/script.js:106-110 | with one slot, peer B's stop hides the label while it names peer A |
| `CursorLabel.OwnEventsIgnored` | public/script.js:86-110 | a run of events all carrying the local name leaves the label unchanged |
| `CursorLabel.ObserveAllSnoc` | public/script.js:86-110 | receiving one more event acts on the label the earlier events left |
| `CursorLabel.LastPeerEventDecides` | public/script.js:86-110 | the label after a run ending in a peer event depends on that last event only |
| `Stroke.EraseRect` | public/script.js:76-77 | the erased rectangle is a square of side `size` centred on the destination point |
| `Stroke.EraseIgnoresOrigin` | public/script.js:76-77 | erasing does not depend on the origin point of the segment |
| `Stroke.EraseRectCovers` | public/script.js:77 | for a non-negative size, the square holds exactly the points within size/2 of the destination on each axis |
| `Identity.LeadingEnd` | public/script.js:201 | the scan from position i stops at the first non-white-space character (or the end); everything it passes is white space |
| `Identity.TrailingStart` | public/script.js:201 | the backward scan from position j stops after the last non-white-space character (not below lo); everything it passes is white space |
| `Identity.Trim` | public/script.js:201 | empty exactly when the input is all white space; otherwise it neither starts nor ends with white space |
| `Identity.TrimIdempotent` | public/script.js:201 | trimming a trimmed name changes nothing |
| `Identity.TrimIsSlice` | public/script.js:201 | the trimmed name is a contiguous piece of the input with only white space before and after it |
| `Client.Whiteboard.constructor` | public/script.js:1-11 | start-up state: name from storage or empty, black pen of size 5, no stroke in progress, empty history at index -1, empty outbox |
| `Client.Whiteboard.DrawLine` | public/script.js:60-74 | renders the segment; appends one `drawing` message with the same points, colour, size and local name exactly when `emit` holds |
| `Client.Whiteboard.Erase` | public/script.js:76-84 | clears the square centred on the destination; appends one `erasing` message with the same points, size and local name exactly when `emit` holds |
| `Client.Whiteboard.SaveState` | public/script.js:140-145 | the log becomes `Save` of the old log with the current surface as the snapshot, and the whole list is persisted |
| `Client.Whiteboard.Undo` | public/script.js:147-157 | the log becomes `Undo` of the old log; when it moved, the surface is replaced by the new current snapshot and the list is persisted; otherwise nothing changes |
| `Client.Whiteboard.Redo` | public/script.js:159-169 | the log becomes `Redo` of the old log; when it moved, the surface is replaced by the new current snapshot and the list is persisted; otherwise nothing changes |
| `Client.Whiteboard.ClearClick` | public/script.js:120-126 | wipes the surface, sends one `clear`, empties the history at index -1 and removes the persisted list |
| `Client.Whiteboard.OnLoad` | public/script.js:182-198 | the log becomes `Load` of the stored list; when that list is non-empty its last entry becomes the surface; otherwise the surface is unchanged; the name prompt is shown exactly when the name is empty |
| `Client.Whiteboard.CanvasMouseDown` | public/script.js:29-35 | starts a stroke at the pointer and saves the surface as it is before the stroke |
| `Client.Whiteboard.CanvasMouseUp` | public/script.js:37-40 | ends the stroke and sends one `stoppedDrawing` with the local name |
| `Client.Whiteboard.CanvasMouseMove` | public/script.js:42-58 | when not drawing, nothing changes; otherwise draws (or erases with twice the pen size) from the last point, sends that stroke then a `mousemove`, and moves the last point |
| `Client.Whiteboard.ToggleEraser` | public/script.js:128-131 | switches between drawing and erasing |
| `Client.Whiteboard.SubmitName` | public/script.js:200-208 | the name becomes the trimmed input; a non-empty name is persisted and closes the prompt; an empty one changes neither |
| `Client.Whiteboard.UpdateCursorLabel` | public/script.js:21-27 | the label becomes `Place(x, y, user)` |
| `Client.Whiteboard.OnDrawing` | public/script.js:86-91 | replays the segment without sending anything; the label follows `Observe`; history untouched |
| `Client.Whiteboard.OnErasing` | public/script.js:93-98 | replays the erase square without sending anything; the label follows `Observe`; history untouched |
| `Client.Whiteboard.OnMouseMove` | public/script.js:100-104 | only the label changes, as `Observe` says |
| `Client.Whiteboard.OnStoppedDrawing` | public/script.js:106-110 | only the label changes, as `Observe` says: hidden for a peer, unchanged for the local name |
| `Client.PenStroke` | public/script.js:29-74 | pointer down, one move, pointer up with the pen: the surface gains one line; the log gains the surface from before it; the outbox gains `drawing`, `mousemove` and `stoppedDrawing` with the local name, in that order; the last point is the move's; label, shown snapshot and name are unchanged |
| `Client.UndoAfterOneStroke` | public/script.js:140-157 | after one stroke on a fresh board, undo restores nothing, the index stays 0 and the surface still holds the stroke: the stroke cannot be undone |
| `Client.UndoAfterTwoStrokes` | public/script.js:140-169 | after two strokes on a fresh board, undo shows the blank board (both strokes gone) and redo shows the first stroke only, never the two-stroke board |
| `Client.UndoAfterRedrawing` | public/script.js:140-157 | strokes A and B on a fresh board, undo, strokes C and D with points of their own, undo: the board is blank after each undo |
| `Client.StrokeAfterReload` | public/script.js:140-191 | reloading a stored one-entry list and drawing one stroke stores that entry twice; undo and redo then both show the board as it was loaded |
| `Client.ReplayScenario` | public/script.js:29-110 | a local stroke sends exactly one `drawing` and one `mousemove` with the local name; a replayed peer stroke paints the peer's line and sends nothing; the label then names the peer at the reported point moved 20 down; the peer's stop, sent twice in a row, leaves it hidden |
| `Client.Whiteboard.OnClear` | public/script.js:133-135 | a peer's clear wipes the surface only; history and outbox are untouched |

## Left out

- The relay servers (`server.js`, `api/server.js`): static file serving, the catch-all route, the port setting and the one-line broadcasts. Their meaning lies in the transport library, which is not part of this model.
- Canvas rendering: the surface is the sequence of primitives applied to it. A snapshot (`canvas.toDataURL()`) is that sequence as it stood when taken, not a pixel encoding.
- The asynchronous image restore: undo, redo and load replace `surface` by the snapshot they ask for (also recorded in `shown`). The restore is taken to finish before the next handler runs; a stroke or peer event arriving before the image has loaded is not modelled. Load draws over the canvas without clearing it; the page is taken to be blank at load, so the drawn image becomes the surface.
- HistoryLog.UndoThenRedo: like `Client.Whiteboard.Undo` and `Client.Whiteboard.Redo`, it speaks of the cursor and the snapshot shown, not of the raster on screen. Undo then redo does not give back the raster seen before the undo (see `Client.UndoAfterTwoStrokes`).
- Client.Whiteboard.SaveState: storage writes are taken to succeed. Each entry is a full-canvas image and the whole list is rewritten, so `setItem` can throw a quota error in ordinary use. The program then keeps the new in-memory log while the store keeps the old list; `ensures storedHistory == Some(history)` and the persistence part of `Valid()` do not describe that case.
- Client.Whiteboard.Undo: as for `SaveState`, a failed write after the cursor moved leaves the store stale; the model takes the write to succeed.
- Client.Whiteboard.Redo: as for `Undo`.
- Client.Whiteboard.Valid: the store is taken to be written by this page only. Local storage is shared by every tab of the same origin, so another tab's save, undo, redo or clear can replace or remove the stored list; this page's history then no longer matches it.
- Pointer geometry (`getMousePos`): handlers receive canvas coordinates. The canvas offset is a pair of constants. Coordinates and sizes are idealised as reals rather than floating-point numbers.
- The pen colour and size input handlers: `color` and `size` keep their start-up values. The size input would in fact deliver a string.
- `localStorage` and JSON: the two keys are fields, and stringify/parse is taken as the identity on the stored list. Malformed stored JSON is not modelled.
- The keyboard shortcuts and the undo/redo buttons: they only call `Undo` and `Redo`.
- UI only: the eraser cursor style, the `alert`, and the name prompt's styling (kept as one boolean). The page's initial prompt display is a constructor argument. The label starts hidden.
- The event loop: each handler runs to completion, as one method call.
- Strings are sequences of Unicode code points, not UTF-16 code units.
