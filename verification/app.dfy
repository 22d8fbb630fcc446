/**
 * The keyboard shortcuts of src/App.tsx: Ctrl/Cmd+Z undoes, Ctrl/Cmd+Y and
 * Ctrl/Cmd+Shift+Z redo, Escape cancels the tool, the edit mode and the
 * selection. Each workspace call queues a state updater; the updaters run in
 * call order, so a handler is the composition of the operations it calls.
 */
module App {
  import opened Types
  import opened Workspace

  /** The fields of a KeyboardEvent the handler reads. */
  datatype KeyEvent = KeyEvent(ctrlKey: bool, metaKey: bool, shiftKey: bool, key: string)

  datatype Shortcut = UndoShortcut | RedoShortcut | CancelShortcut | NoShortcut

  /** The branch of handleKeyPress a key event takes. */
  function Classify(e: KeyEvent): (s: Shortcut)
    ensures s == UndoShortcut <==> (e.ctrlKey || e.metaKey) && e.key == "z" && !e.shiftKey
    ensures s == RedoShortcut <==> (e.ctrlKey || e.metaKey) && ((e.key == "z" && e.shiftKey) || e.key == "y")
    ensures s == CancelShortcut <==> e.key == "Escape"
    ensures e.key != "z" && e.key != "y" && e.key != "Escape" ==> s == NoShortcut
  {
    var isModKey := e.ctrlKey || e.metaKey;
    if isModKey && e.key == "z" && !e.shiftKey then UndoShortcut
    else if isModKey && ((e.key == "z" && e.shiftKey) || e.key == "y") then RedoShortcut
    else if e.key == "Escape" then CancelShortcut
    else NoShortcut
  }

  /** Escape: `setTool(null); setEditMode(false); selectFeature(null)`. */
  function CancelAll(ws: WorkspaceState): (r: WorkspaceState)
    ensures r.activeTool.None? && !r.isEditMode && r.activeFeatureId.None?
    ensures r == ws.(activeTool := None, isEditMode := false, activeFeatureId := None)
  {
    SelectFeature(SetEditMode(SetTool(ws, None), false), None)
  }

  /** handleKeyPress, as a change of the workspace state. */
  function HandleKeyPress(ws: WorkspaceState, e: KeyEvent): (r: WorkspaceState)
    ensures Classify(e) == UndoShortcut ==> r == Undo(ws)
    ensures Classify(e) == RedoShortcut ==> r == Redo(ws)
    ensures Classify(e) == CancelShortcut ==> r == CancelAll(ws)
    ensures Classify(e) == NoShortcut ==> r == ws
  {
    match Classify(e)
    case UndoShortcut => Undo(ws)
    case RedoShortcut => Redo(ws)
    case CancelShortcut => CancelAll(ws)
    case NoShortcut => ws
  }

  /**
   * Escape never touches the features or the history, is idempotent and
   * leaves the modes exclusive.
   */
  lemma CancelKeepsData(ws: WorkspaceState)
    ensures CancelAll(ws).features == ws.features
    ensures CancelAll(ws).undoStack == ws.undoStack && CancelAll(ws).redoStack == ws.redoStack
    ensures CancelAll(CancelAll(ws)) == CancelAll(ws)
    ensures ModesExclusive(CancelAll(ws))
  {
  }

  /**
   * Escape clears the edit mode even when no tool is active, although
   * `setTool(null)` alone keeps it in that case.
   */
  lemma CancelClearsEditModeWithoutTool(ws: WorkspaceState)
    requires ws.activeTool.None? && ws.isEditMode
    ensures SetTool(ws, None).isEditMode
    ensures !CancelAll(ws).isEditMode
  {
  }

  /** The key comparisons are case-sensitive: Ctrl+Shift+Z reported as "Z" does nothing. */
  lemma UpperCaseZIsIgnored(ws: WorkspaceState, e: KeyEvent)
    requires e.key == "Z"
    ensures HandleKeyPress(ws, e) == ws
  {
    assert e.key != "z" && e.key != "y" && e.key != "Escape" by {
      assert e.key[0] == 'Z';
    }
  }

  /** Undo then redo through the keyboard restores the features. */
  lemma KeyboardUndoRedo(ws: WorkspaceState, undoKey: KeyEvent, redoKey: KeyEvent)
    requires Classify(undoKey) == UndoShortcut && Classify(redoKey) == RedoShortcut
    requires CanUndo(ws)
    ensures HandleKeyPress(HandleKeyPress(ws, undoKey), redoKey) == ws
  {
    RedoAfterUndo(ws);
  }
}
