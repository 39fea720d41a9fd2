/**
 * The `DrawingApp` object: its undo/redo history, the pointer interaction
 * that feeds strokes to the tools and captures one snapshot per completed
 * interaction, and the settings the tools read. Snapshots are opaque values
 * of type `S`: each operation that captures the canvas is handed the
 * snapshot the canvas encodes to at that moment.
 */
module App {
  import opened Wrappers
  import opened Tools
  import UndoHistory

  class DrawingApp<S> {
    // undo/redo history
    var history: seq<S>
    var historyIndex: int
    // the `disabled` state of the undo and redo buttons
    var undoDisabled: bool
    var redoDisabled: bool
    // pointer interaction
    var currentTool: string
    var isDrawing: bool
    var lastX: real
    var lastY: real
    // drawing settings
    var primaryColor: string
    var secondaryColor: string
    var brushSize: int
    var opacity: real
    var backgroundColor: string

    /** The history as a value. */
    function Timeline(): UndoHistory.History<S>
      reads this
    {
      UndoHistory.History(history, historyIndex)
    }

    /** The settings a drawing step reads. */
    function Settings(): Config
      reads this
    {
      Config(primaryColor, backgroundColor, brushSize, opacity)
    }

    /** The history keeps its invariant and the buttons show what undo and
        redo would do. */
    ghost predicate Valid()
      reads this
    {
      && UndoHistory.Valid(Timeline())
      && undoDisabled == !UndoHistory.CanUndo(Timeline())
      && redoDisabled == !UndoHistory.CanRedo(Timeline())
    }

    /** The state the application opens in, apart from its history. */
    ghost predicate Defaults()
      reads this`currentTool, this`isDrawing, this`lastX, this`lastY, this`primaryColor,
            this`secondaryColor, this`brushSize, this`opacity, this`backgroundColor
    {
      && currentTool == "pen" && !isDrawing && lastX == 0.0 && lastY == 0.0
      && primaryColor == "#000000" && secondaryColor == "#ffffff"
      && brushSize == 10 && opacity == 1.0 && backgroundColor == "#ffffff"
    }

    /** The application starts with the default settings and captures the
        blank canvas as the first history entry, with both buttons disabled. */
    constructor (blank: S)
      ensures Valid() && Defaults()
      ensures history == [blank] && historyIndex == 0 && undoDisabled && redoDisabled
    {
      history := [];
      historyIndex := -1;
      currentTool := "pen";
      isDrawing := false;
      lastX, lastY := 0.0, 0.0;
      primaryColor := "#000000";
      secondaryColor := "#ffffff";
      brushSize := 10;
      opacity := 1.0;
      backgroundColor := "#ffffff";
      new;
      SaveState(blank);
    }

    /** Sets the `disabled` state of the two buttons from the cursor. */
    method UpdateHistoryButtons()
      modifies this`undoDisabled, this`redoDisabled
      ensures undoDisabled == (historyIndex <= 0)
      ensures redoDisabled == (historyIndex >= |history| - 1)
    {
      undoDisabled := historyIndex <= 0;
      redoDisabled := historyIndex >= |history| - 1;
    }

    /** Captures `snap`, the current canvas, into the history. */
    method SaveState(snap: S)
      requires UndoHistory.Valid(Timeline())
      modifies this`history, this`historyIndex, this`undoDisabled, this`redoDisabled
      ensures Valid() && Timeline() == UndoHistory.Save(old(Timeline()), snap)
    {
      if historyIndex < |history| - 1 {
        history := history[..historyIndex + 1];
      }
      if |history| >= UndoHistory.Capacity {
        history := history[1..];
      } else {
        historyIndex := historyIndex + 1;
      }
      history := history + [snap];
      UpdateHistoryButtons();
    }

    /** Steps back one entry when there is one; `shown` is what is restored
        on the canvas, or `None` when nothing happened. */
    method Undo() returns (shown: Option<UndoHistory.Display<S>>)
      requires Valid()
      modifies this`historyIndex, this`undoDisabled, this`redoDisabled
      ensures Valid() && Timeline() == UndoHistory.Undo(old(Timeline()))
      ensures shown == if UndoHistory.CanUndo(old(Timeline()))
                       then Some(UndoHistory.Shown(Timeline())) else None
    {
      shown := None;
      if historyIndex > 0 {
        historyIndex := historyIndex - 1;
        shown := Some(UndoHistory.Shown(Timeline()));
        UpdateHistoryButtons();
      }
    }

    /** Steps forward one entry when there is one; `shown` is what is
        restored on the canvas, or `None` when nothing happened. */
    method Redo() returns (shown: Option<UndoHistory.Display<S>>)
      requires Valid()
      modifies this`historyIndex, this`undoDisabled, this`redoDisabled
      ensures Valid() && Timeline() == UndoHistory.Redo(old(Timeline()))
      ensures shown == if UndoHistory.CanRedo(old(Timeline()))
                       then Some(UndoHistory.Shown(Timeline())) else None
    {
      shown := None;
      if historyIndex < |history| - 1 {
        historyIndex := historyIndex + 1;
        shown := Some(UndoHistory.Shown(Timeline()));
        UpdateHistoryButtons();
      }
    }

    /** "Clear": when the user confirms, the canvas is erased and filled
        with the background at the current alpha (its snapshot is `cleared`)
        and captured as a new entry, so the clearing itself can be undone. */
    method ClearCanvas(confirmed: bool, cleared: S)
      requires Valid()
      modifies this`history, this`historyIndex, this`undoDisabled, this`redoDisabled
      ensures Valid()
      ensures Timeline() == if confirmed then UndoHistory.Save(old(Timeline()), cleared)
                            else old(Timeline())
    {
      if confirmed {
        SaveState(cleared);
      }
    }

    /** "New": when the user confirms, the history is thrown away and the
        blank canvas becomes its only entry; otherwise nothing changes. */
    method NewCanvas(confirmed: bool, blank: S)
      requires Valid()
      modifies this`history, this`historyIndex, this`undoDisabled, this`redoDisabled
      ensures Valid()
      ensures Timeline() == if confirmed then UndoHistory.Reset(blank) else old(Timeline())
      ensures confirmed ==> undoDisabled && redoDisabled
    {
      if confirmed {
        history := [];
        historyIndex := -1;
        assert Timeline() == UndoHistory.Empty();
        SaveState(blank);
      }
    }

    /** Pointer pressed at `pos`: the interaction starts there. Only the
        spray paints at once; the line tools wait for the first move. */
    method StartDrawing(pos: Point, random: nat -> real) returns (mark: Option<Mark>)
      requires IsRandomStream(random)
      modifies this`isDrawing, this`lastX, this`lastY
      ensures isDrawing && lastX == pos.x && lastY == pos.y
      ensures mark == if currentTool == "spray" then Stroke("spray", Settings(), pos, pos, random)
                      else None
    {
      isDrawing := true;
      lastX, lastY := pos.x, pos.y;
      mark := None;
      if currentTool == "spray" {
        mark := Draw(pos, random);
      }
    }

    /** Pointer moved to `pos`: during an interaction the current tool paints
        from the previous point to `pos`, which becomes the previous point;
        outside an interaction nothing happens. */
    method Draw(pos: Point, random: nat -> real) returns (mark: Option<Mark>)
      requires IsRandomStream(random)
      modifies this`lastX, this`lastY
      ensures !isDrawing ==> mark == None && lastX == old(lastX) && lastY == old(lastY)
      ensures isDrawing ==> && mark == Stroke(currentTool, Settings(), Point(old(lastX), old(lastY)), pos, random)
                            && lastX == pos.x && lastY == pos.y
    {
      if !isDrawing {
        return None;
      }
      mark := ApplySegment(currentTool, Settings(), Point(lastX, lastY), pos, random);
      lastX, lastY := pos.x, pos.y;
    }

    /** Pointer released or left the canvas: an open interaction ends and the
        canvas (`snap`) is captured; with no interaction open nothing
        happens. */
    method StopDrawing(snap: S)
      requires Valid()
      modifies this`isDrawing, this`history, this`historyIndex, this`undoDisabled, this`redoDisabled
      ensures Valid() && !isDrawing
      ensures Timeline() == if old(isDrawing) then UndoHistory.Save(old(Timeline()), snap)
                            else old(Timeline())
    {
      if isDrawing {
        isDrawing := false;
        SaveState(snap);
      }
    }

    /** Selects the tool the next steps draw with. */
    method SetTool(tool: string)
      modifies this`currentTool
      ensures currentTool == tool
    {
      currentTool := tool;
    }

    /** Exchanges the primary and secondary colours. */
    method SwapColors()
      modifies this`primaryColor, this`secondaryColor
      ensures primaryColor == old(secondaryColor) && secondaryColor == old(primaryColor)
    {
      primaryColor, secondaryColor := secondaryColor, primaryColor;
    }
  }

  /** A `mouseup` followed by the `mouseout` the pointer leaving the canvas
      then fires: both end the interaction, and only the first captures, so
      one interaction adds at most one history entry. */
  method ReleaseThenLeave<S>(app: DrawingApp<S>, atRelease: S, atLeave: S)
    requires app.Valid()
    modifies app`isDrawing, app`history, app`historyIndex, app`undoDisabled, app`redoDisabled
    ensures app.Valid() && !app.isDrawing
    ensures app.Timeline() == if old(app.isDrawing) then UndoHistory.Save(old(app.Timeline()), atRelease)
                              else old(app.Timeline())
  {
    app.StopDrawing(atRelease);
    app.StopDrawing(atLeave);
  }

  /** A whole pen interaction: press, one move, release. The move paints a
      pen segment from the press point, and the release captures exactly one
      entry, leaving nothing to redo. */
  method PenStroke<S>(app: DrawingApp<S>, press: Point, move: Point, snap: S, random: nat -> real)
    returns (marks: seq<Option<Mark>>)
    requires app.Valid() && app.currentTool == "pen" && IsRandomStream(random)
    modifies app`isDrawing, app`lastX, app`lastY, app`history, app`historyIndex, app`undoDisabled, app`redoDisabled
    ensures app.Valid() && !app.isDrawing
    ensures marks == [None, Some(Segment(press, move, LineStyleOf(Pen, old(app.Settings()))))]
    ensures app.lastX == move.x && app.lastY == move.y
    ensures app.Timeline() == UndoHistory.Save(old(app.Timeline()), snap)
    ensures !UndoHistory.CanRedo(app.Timeline()) && app.redoDisabled
  {
    var m1 := app.StartDrawing(press, random);
    assert m1 == None;
    var m2 := app.Draw(move, random);
    assert m2 == Stroke("pen", app.Settings(), press, move, random);
    app.StopDrawing(snap);
    marks := [m1, m2];
  }
}
