/** The browser client's session state and its event handlers. Module-level variables of the
    client become fields of one `Whiteboard` object, and each handler a method. The raster
    surface is recorded as the primitives applied to it, and an asynchronous image restore as
    the snapshot it was asked to show. */
module Client {
  import opened Wrappers
  import opened Messages
  import opened Stroke
  import HistoryLog
  import opened CursorLabel
  import opened Identity

  /** A full-raster encoding, as `canvas.toDataURL()` returns it: here the surface itself,
      as it was when the snapshot was taken. */
  type Snapshot = seq<RasterOp>

  class Whiteboard {
    // Where the canvas sits in the page (canvas.offsetLeft, canvas.offsetTop).
    const offsetLeft: real
    const offsetTop: real

    // Pointer and tool state.
    var drawing: bool
    var erasing: bool
    var color: string
    var size: real
    var curX: real
    var curY: real

    // Undo/redo history and the snapshot last requested for display.
    var history: seq<Snapshot>
    var historyIndex: int
    var shown: Option<Snapshot>

    // The raster surface, the peer cursor label, and the messages sent to the relay.
    var surface: seq<RasterOp>
    var cursorLabel: Label
    var outbox: seq<Msg>

    // Session identity and the name prompt.
    var username: string
    var nameModalShown: bool

    // The browser's local storage: keys 'canvasHistory' and 'username'.
    var storedHistory: Option<seq<Snapshot>>
    var storedName: Option<string>

    /** The history log as the specification sees it. */
    function Log(): HistoryLog.History<Snapshot>
      reads this
    {
      HistoryLog.History(history, historyIndex)
    }

    /** The session invariant: the history index stays in bounds (and is -1 exactly on an
        empty log), a non-empty history is always the one persisted, and the label is shown
        exactly when it names someone. */
    ghost predicate Valid()
      reads this
    {
      HistoryLog.Valid(Log()) && HistoryLog.Anchored(Log()) &&
      (history != [] ==> storedHistory == Some(history)) &&
      Consistent(cursorLabel)
    }

    /** Script start-up: the name comes from storage (empty if absent), the pen is black of
        size 5, the history is empty at index -1. The name prompt's initial display is set by
        the page and given here. */
    constructor (offsetLeft: real, offsetTop: real, storedName: Option<string>,
                 storedHistory: Option<seq<Snapshot>>, nameModalShown: bool)
      ensures Valid()
      ensures this.offsetLeft == offsetLeft && this.offsetTop == offsetTop
      ensures this.storedName == storedName && this.storedHistory == storedHistory
      ensures this.nameModalShown == nameModalShown
      ensures username == storedName.GetOr("")
      ensures !drawing && !erasing && color == "black" && size == 5.0
      ensures history == [] && historyIndex == -1 && shown == None
      ensures surface == [] && outbox == [] && cursorLabel == Hidden()
    {
      this.offsetLeft, this.offsetTop := offsetLeft, offsetTop;
      this.storedName, this.storedHistory := storedName, storedHistory;
      this.nameModalShown := nameModalShown;
      username := storedName.GetOr("");
      drawing, erasing := false, false;
      color, size := "black", 5.0;
      curX, curY := 0.0, 0.0;
      history, historyIndex, shown := [], -1, None;
      surface, outbox := [], [];
      cursorLabel := Hidden();
    }

    // ---------------------------------------------------------------------------------
    // Stroke renderer with the emit flag: a local call renders and sends, a replay only renders.

    method DrawLine(x0: real, y0: real, x1: real, y1: real, color: string, size: real, emit: bool)
      requires Valid()
      modifies this`surface, this`outbox
      ensures Valid()
      ensures surface == old(surface) + [Line(x0, y0, x1, y1, color, size)]
      ensures outbox == old(outbox) + if emit then [Drawing(x0, y0, x1, y1, color, size, username)] else []
    {
      surface := surface + [Line(x0, y0, x1, y1, color, size)];
      if !emit {
        return;
      }
      outbox := outbox + [Drawing(x0, y0, x1, y1, color, size, username)];
    }

    method Erase(x0: real, y0: real, x1: real, y1: real, size: real, emit: bool)
      requires Valid()
      modifies this`surface, this`outbox
      ensures Valid()
      ensures surface == old(surface) + [EraseOp(x0, y0, x1, y1, size)]
      ensures outbox == old(outbox) + if emit then [Erasing(x0, y0, x1, y1, size, username)] else []
    {
      surface := surface + [EraseOp(x0, y0, x1, y1, size)];
      if !emit {
        return;
      }
      outbox := outbox + [Erasing(x0, y0, x1, y1, size, username)];
    }

    // ---------------------------------------------------------------------------------
    // History manager.

    /** Takes a snapshot of the surface as it is now. */
    method SaveState()
      requires Valid()
      modifies this`history, this`historyIndex, this`storedHistory
      ensures Valid()
      ensures Log() == HistoryLog.Save(old(Log()), surface)
      ensures storedHistory == Some(history)
    {
      history := history[..historyIndex + 1];
      history := history + [surface];
      historyIndex := historyIndex + 1;
      storedHistory := Some(history);
    }

    /** Undo: moves the cursor back and restores the canvas from the snapshot it lands on
        (cleared, then the image drawn). */
    method Undo()
      requires Valid()
      modifies this`historyIndex, this`shown, this`surface, this`storedHistory
      ensures Valid()
      ensures Log() == HistoryLog.Undo(old(Log()))
      ensures HistoryLog.CanUndo(old(Log())) ==>
        shown == HistoryLog.Current(Log()) && shown == Some(surface) && storedHistory == Some(history)
      ensures !HistoryLog.CanUndo(old(Log())) ==>
        shown == old(shown) && surface == old(surface) && storedHistory == old(storedHistory)
    {
      if historyIndex <= 0 {
        return;
      }
      historyIndex := historyIndex - 1;
      shown := Some(history[historyIndex]);
      surface := history[historyIndex];
      storedHistory := Some(history);
    }

    /** Redo: moves the cursor forward and restores the canvas from that snapshot. */
    method Redo()
      requires Valid()
      modifies this`historyIndex, this`shown, this`surface, this`storedHistory
      ensures Valid()
      ensures Log() == HistoryLog.Redo(old(Log()))
      ensures HistoryLog.CanRedo(old(Log())) ==>
        shown == HistoryLog.Current(Log()) && shown == Some(surface) && storedHistory == Some(history)
      ensures !HistoryLog.CanRedo(old(Log())) ==>
        shown == old(shown) && surface == old(surface) && storedHistory == old(storedHistory)
    {
      if historyIndex >= |history| - 1 {
        return;
      }
      historyIndex := historyIndex + 1;
      shown := Some(history[historyIndex]);
      surface := history[historyIndex];
      storedHistory := Some(history);
    }

    /** The clear button: wipes the surface, tells the peers, empties the history and
        removes the persisted list. */
    method ClearClick()
      requires Valid()
      modifies this`surface, this`outbox, this`history, this`historyIndex, this`storedHistory
      ensures Valid()
      ensures surface == old(surface) + [ClearAll]
      ensures outbox == old(outbox) + [Clear]
      ensures Log() == HistoryLog.Empty() && storedHistory == None
    {
      surface := surface + [ClearAll];
      outbox := outbox + [Clear];
      history := [];
      historyIndex := -1;
      storedHistory := None;
    }

    /** Page load: restores a persisted history and draws its last entry on the page, and
        shows the name prompt exactly when no name is known. */
    method OnLoad()
      requires Valid()
      modifies this`history, this`historyIndex, this`shown, this`surface, this`nameModalShown
      ensures Valid()
      ensures Log() == HistoryLog.Load(old(Log()), storedHistory)
      ensures storedHistory.Some? && history != [] ==>
        shown == HistoryLog.Current(Log()) && shown == Some(surface)
      ensures !(storedHistory.Some? && history != []) ==>
        shown == old(shown) && surface == old(surface)
      ensures nameModalShown <==> username == ""
    {
      if storedHistory.Some? {
        history := storedHistory.value;
        historyIndex := |history| - 1;
        if historyIndex >= 0 {
          shown := Some(history[historyIndex]);
          surface := history[historyIndex];
        }
      }
      nameModalShown := username == "";
    }

    // ---------------------------------------------------------------------------------
    // Local pointer and tool input.

    /** Pointer down: a stroke starts here, and the surface as it is now, before the stroke,
        is saved. */
    method CanvasMouseDown(x: real, y: real)
      requires Valid()
      modifies this`drawing, this`curX, this`curY, this`history, this`historyIndex, this`storedHistory
      ensures Valid()
      ensures drawing && curX == x && curY == y
      ensures Log() == HistoryLog.Save(old(Log()), surface) && storedHistory == Some(history)
    {
      drawing := true;
      curX, curY := x, y;
      SaveState();
    }

    /** Pointer up: the stroke ends and the peers are told. */
    method CanvasMouseUp()
      requires Valid()
      modifies this`drawing, this`outbox
      ensures Valid()
      ensures !drawing
      ensures outbox == old(outbox) + [StoppedDrawing(username)]
    {
      drawing := false;
      outbox := outbox + [StoppedDrawing(username)];
    }

    /** Pointer move: while a stroke is in progress, draws (or erases with twice the pen
        size) from the last point to (x, y), sends that stroke and the pointer position. */
    method CanvasMouseMove(x: real, y: real)
      requires Valid()
      modifies this`surface, this`outbox, this`curX, this`curY
      ensures Valid()
      ensures !old(drawing) ==>
        surface == old(surface) && outbox == old(outbox) && curX == old(curX) && curY == old(curY)
      ensures old(drawing) && erasing ==>
        surface == old(surface) + [EraseOp(old(curX), old(curY), x, y, size * 2.0)] &&
        outbox == old(outbox) + [Erasing(old(curX), old(curY), x, y, size * 2.0, username),
                                 MouseMove(x, y, username)]
      ensures old(drawing) && !erasing ==>
        surface == old(surface) + [Line(old(curX), old(curY), x, y, color, size)] &&
        outbox == old(outbox) + [Drawing(old(curX), old(curY), x, y, color, size, username),
                                 MouseMove(x, y, username)]
      ensures old(drawing) ==> curX == x && curY == y
    {
      if !drawing {
        return;
      }
      if erasing {
        Erase(curX, curY, x, y, size * 2.0, true);
      } else {
        DrawLine(curX, curY, x, y, color, size, true);
      }
      curX, curY := x, y;
      outbox := outbox + [MouseMove(x, y, username)];
    }

    /** The eraser button toggles between drawing and erasing. */
    method ToggleEraser()
      requires Valid()
      modifies this`erasing
      ensures Valid()
      ensures erasing == !old(erasing)
    {
      erasing := !erasing;
    }

    /** The name prompt's button: the trimmed input becomes the name; a non-empty name is
        persisted and closes the prompt, an empty one leaves both as they were. */
    method SubmitName(input: string)
      requires Valid()
      modifies this`username, this`storedName, this`nameModalShown
      ensures Valid()
      ensures username == Trim(input)
      ensures username != "" ==> storedName == Some(username) && !nameModalShown
      ensures username == "" ==> storedName == old(storedName) && nameModalShown == old(nameModalShown)
    {
      username := Trim(input);
      if username != "" {
        storedName := Some(username);
        nameModalShown := false;
      }
    }

    // ---------------------------------------------------------------------------------
    // Events from peers: rendered without re-sending; the history is never touched.

    method UpdateCursorLabel(x: real, y: real, user: string)
      requires Valid()
      modifies this`cursorLabel
      ensures Valid()
      ensures cursorLabel == Place(x, y, user)
    {
      cursorLabel := Place(x, y, user);
    }

    method OnDrawing(m: Msg)
      requires m.Drawing? && Valid()
      modifies this`surface, this`outbox, this`cursorLabel
      ensures Valid()
      ensures outbox == old(outbox)
      ensures surface == old(surface) + [Line(m.x0, m.y0, m.x1, m.y1, m.color, m.size)]
      ensures cursorLabel == Observe(old(cursorLabel), username, m, offsetLeft, offsetTop)
    {
      DrawLine(m.x0, m.y0, m.x1, m.y1, m.color, m.size, false);
      if m.username != username {
        UpdateCursorLabel(m.x1 + offsetLeft, m.y1 + offsetTop, m.username);
      }
    }

    method OnErasing(m: Msg)
      requires m.Erasing? && Valid()
      modifies this`surface, this`outbox, this`cursorLabel
      ensures Valid()
      ensures outbox == old(outbox)
      ensures surface == old(surface) + [EraseOp(m.x0, m.y0, m.x1, m.y1, m.size)]
      ensures cursorLabel == Observe(old(cursorLabel), username, m, offsetLeft, offsetTop)
    {
      Erase(m.x0, m.y0, m.x1, m.y1, m.size, false);
      if m.username != username {
        UpdateCursorLabel(m.x1 + offsetLeft, m.y1 + offsetTop, m.username);
      }
    }

    method OnMouseMove(m: Msg)
      requires m.MouseMove? && Valid()
      modifies this`cursorLabel
      ensures Valid()
      ensures cursorLabel == Observe(old(cursorLabel), username, m, offsetLeft, offsetTop)
    {
      if m.username != username {
        UpdateCursorLabel(m.x + offsetLeft, m.y + offsetTop, m.username);
      }
    }

    method OnStoppedDrawing(m: Msg)
      requires m.StoppedDrawing? && Valid()
      modifies this`cursorLabel
      ensures Valid()
      ensures cursorLabel == Observe(old(cursorLabel), username, m, offsetLeft, offsetTop)
    {
      if m.username != username {
        UpdateCursorLabel(0.0, 0.0, "");
      }
    }

    /** A peer cleared the board: only the surface is wiped. */
    method OnClear()
      requires Valid()
      modifies this`surface
      ensures Valid()
      ensures surface == old(surface) + [ClearAll]
    {
      surface := surface + [ClearAll];
    }
  }

  /** A local stroke from (10, 10) to (50, 50), then a peer's stroke with the same points in
      red, size 3, replayed: the replay paints that exact segment and sends nothing. The
      peer's two stops in a row leave the label hidden. */
  method ReplayScenario(peer: string)
    returns (sent: seq<Msg>, sentAfterReplay: seq<Msg>, painted: RasterOp, shownLabel: Label, stoppedLabel: Label)
    requires peer != "alice" && peer != ""
    ensures sent == [Drawing(10.0, 10.0, 50.0, 50.0, "black", 5.0, "alice"), MouseMove(50.0, 50.0, "alice")]
    ensures sentAfterReplay == sent
    ensures painted == Line(10.0, 10.0, 50.0, 50.0, "red", 3.0)
    ensures shownLabel.visible && shownLabel.text == peer && shownLabel.left == 50.0 && shownLabel.top == 70.0
    ensures stoppedLabel == Hidden()
  {
    var w := new Whiteboard(0.0, 0.0, Some("alice"), None, false);
    w.CanvasMouseDown(10.0, 10.0);
    w.CanvasMouseMove(50.0, 50.0);
    sent := w.outbox;
    w.OnDrawing(Drawing(10.0, 10.0, 50.0, 50.0, "red", 3.0, peer));
    sentAfterReplay, painted, shownLabel := w.outbox, w.surface[|w.surface| - 1], w.cursorLabel;
    w.OnStoppedDrawing(StoppedDrawing(peer));
    w.OnStoppedDrawing(StoppedDrawing(peer));
    stoppedLabel := w.cursorLabel;
  }

  /** A complete local stroke with the pen: pointer down at (x0, y0), one move to (x1, y1),
      pointer up. The snapshot saved is the surface from before the stroke. */
  method PenStroke(w: Whiteboard, x0: real, y0: real, x1: real, y1: real)
    requires w.Valid() && !w.erasing
    modifies w
    ensures w.Valid() && !w.erasing && !w.drawing
    ensures w.color == old(w.color) && w.size == old(w.size) && w.username == old(w.username)
    ensures w.surface == old(w.surface) + [Line(x0, y0, x1, y1, w.color, w.size)]
    ensures w.Log() == HistoryLog.Save(old(w.Log()), old(w.surface))
    ensures w.outbox == old(w.outbox) + [Drawing(x0, y0, x1, y1, w.color, w.size, w.username),
                                         MouseMove(x1, y1, w.username), StoppedDrawing(w.username)]
    ensures w.curX == x1 && w.curY == y1
    ensures w.shown == old(w.shown) && w.cursorLabel == old(w.cursorLabel)
    ensures w.nameModalShown == old(w.nameModalShown) && w.storedName == old(w.storedName)
  {
    w.CanvasMouseDown(x0, y0);
    w.CanvasMouseMove(x1, y1);
    w.CanvasMouseUp();
  }

  /** One stroke on a fresh board cannot be undone: its snapshot, taken before the stroke, is
      entry 0, and undo does nothing at index 0. The stroke stays and nothing is restored. */
  method UndoAfterOneStroke(x0: real, y0: real, x1: real, y1: real)
    returns (live: seq<RasterOp>, surfaceAfter: seq<RasterOp>, afterUndo: Option<Snapshot>, index: int)
    ensures live == [Line(x0, y0, x1, y1, "black", 5.0)]
    ensures surfaceAfter == live
    ensures afterUndo == None && index == 0
  {
    var w := new Whiteboard(0.0, 0.0, Some("alice"), None, false);
    PenStroke(w, x0, y0, x1, y1);
    live := w.surface;
    w.Undo();
    surfaceAfter, afterUndo, index := w.surface, w.shown, w.historyIndex;
  }

  /** Two strokes on a fresh board, then undo and redo. Snapshots are taken before each
      stroke, so the undo shows the board from before the first stroke (both strokes gone),
      and the redo shows the board with the first stroke only: the board as it was before the
      undo, with both strokes, is in no snapshot, so no undo or redo brings it back. */
  method UndoAfterTwoStrokes(x0: real, y0: real, x1: real, y1: real, x2: real, y2: real, x3: real, y3: real)
    returns (live: seq<RasterOp>, afterUndo: Option<Snapshot>, afterRedo: Option<Snapshot>)
    ensures live == [Line(x0, y0, x1, y1, "black", 5.0), Line(x2, y2, x3, y3, "black", 5.0)]
    ensures afterUndo == Some([])
    ensures afterRedo == Some(live[..1]) && afterRedo != Some(live)
  {
    var w := new Whiteboard(0.0, 0.0, Some("alice"), None, false);
    var first := Line(x0, y0, x1, y1, "black", 5.0);
    PenStroke(w, x0, y0, x1, y1);
    assert w.Log() == HistoryLog.History([[]], 0) && w.surface == [first];
    PenStroke(w, x2, y2, x3, y3);
    assert w.Log() == HistoryLog.History([[], [first]], 1);
    live := w.surface;
    assert live[..1] == [first];
    w.Undo();
    afterUndo := w.shown;
    w.Redo();
    afterRedo := w.shown;
  }

  /** Strokes A and B on a fresh board, undo, strokes C and D, undo. The first undo restores
      the blank board, so C's snapshot is the blank board, and the second undo shows the
      blank board again: the strokes undone first do not come back. */
  method UndoAfterRedrawing(x0: real, y0: real, x1: real, y1: real, x2: real, y2: real, x3: real, y3: real,
                            x4: real, y4: real, x5: real, y5: real, x6: real, y6: real, x7: real, y7: real)
    returns (afterFirstUndo: seq<RasterOp>, afterSecondUndo: seq<RasterOp>)
    ensures afterFirstUndo == [] && afterSecondUndo == []
  {
    var w := new Whiteboard(0.0, 0.0, Some("alice"), None, false);
    PenStroke(w, x0, y0, x1, y1);
    assert w.Log() == HistoryLog.History([[]], 0) && w.surface == [Line(x0, y0, x1, y1, "black", 5.0)];
    PenStroke(w, x2, y2, x3, y3);
    assert w.Log() == HistoryLog.History([[], [Line(x0, y0, x1, y1, "black", 5.0)]], 1);
    w.Undo();
    afterFirstUndo := w.surface;
    PenStroke(w, x4, y4, x5, y5);
    assert w.Log() == HistoryLog.History([[], []], 1);
    PenStroke(w, x6, y6, x7, y7);
    assert w.historyIndex == 2 && w.history[1] == [];
    w.Undo();
    afterSecondUndo := w.surface;
  }

  /** A reload of the stored list [s], one stroke, undo, redo. The load draws s, so the
      stroke's snapshot is s too, and both undo and redo show s. */
  method StrokeAfterReload(s: Snapshot, x0: real, y0: real, x1: real, y1: real)
    returns (log: seq<Snapshot>, afterUndo: seq<RasterOp>, afterRedo: seq<RasterOp>)
    ensures log == [s, s] && afterUndo == s && afterRedo == s
  {
    var w := new Whiteboard(0.0, 0.0, Some("alice"), Some([s]), false);
    w.OnLoad();
    assert w.surface == s && w.Log() == HistoryLog.History([s], 0);
    PenStroke(w, x0, y0, x1, y1);
    log := w.history;
    w.Undo();
    afterUndo := w.surface;
    w.Redo();
    afterRedo := w.surface;
  }
}
