/** What a keydown does once an engine's front-end has decided on it. Both engines end in one of
    four outcomes: an editing command runs, the event is swallowed without effect, the key is
    typed, or the event is left alone. core/src/engine/index.ts:76-89 and
    core/src/engine.ts:55-76 decide differently; the effect of each outcome is the same. */
module Dispatch {
  import opened Wrappers
  import opened Constants
  import opened Utils
  import opened Interfaces
  import opened BlockEdits
  import opened Editing
  import opened EditorCore

  /** The outcome of a keydown. */
  datatype Action =
    | Command(command: EditorCommand)   // the engine method for this command runs
    | Consume                           // `preventDefault` only: a bound chord without handler
    | TypeKey                           // `updateTextContent` with the event's key
    | Ignore                            // nothing, not even `preventDefault`

  /** Whether the outcome calls `preventDefault`. */
  predicate Prevents(a: Action)
  {
    !a.Ignore?
  }

  /** The editing state after the outcome. `ids` are the fresh ids enter and apply-bold draw at
      random; `answer` is what the caret manager answers for the current block, the cursor
      offset and the key's direction. */
  function Perform(s: State, a: Action, key: string, ids: FreshIds, answer: Option<CaretPosition>): State
    requires s.current < |s.doc|
  {
    match a
    case Command(BOLD) => Editing.ApplyBold(s, ids)
    case Command(ENTER) => Enter(s, ids)
    case Command(BACKSPACE) => Backspace(s)
    case Command(MOVE_CURSOR) => MoveCursor(s, key, answer)
    case TypeKey => InsertText(s, key)
    case _ => s
  }

  /** Every outcome keeps the editing invariant, given a fresh id for a new block. */
  lemma PerformInv(s: State, a: Action, key: string, ids: FreshIds, answer: Option<CaretPosition>)
    requires Inv(s) && ids.block !in Ids(s.doc)
    ensures Inv(Perform(s, a, key, ids, answer))
  {
    match a
    case Command(BOLD) => ApplyBoldInv(s, ids);
    case Command(ENTER) => EnterInv(s, ids);
    case Command(BACKSPACE) => BackspaceInv(s);
    case Command(MOVE_CURSOR) => MoveCursorInv(s, key, answer);
    case TypeKey => InsertTextInv(s, key);
    case _ =>
  }

  /** Carrying out an outcome on the editor objects: the engine method it names, or nothing. */
  method Run(editor: Editor, a: Action, e: KeyEvent, ids: FreshIds, answer: Option<CaretPosition>)
    requires editor.Valid() && ids.block !in Ids(editor.Abs().doc)
    modifies editor, editor.root, set b | b in editor.root.children
    ensures editor.Valid()
    ensures editor.Abs() == Perform(old(editor.Abs()), a, e.key, ids, answer)
  {
    match a
    case Command(BOLD) => editor.ApplyBold(ids);
    case Command(ENTER) => editor.HandleEnterKey(ids);
    case Command(BACKSPACE) => editor.HandleBackspace();
    case Command(MOVE_CURSOR) => editor.UpdateCursorOffset(e.key, answer);
    case TypeKey => editor.UpdateTextContent(e.key);
    case _ =>
  }
}
