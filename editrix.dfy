/** core/src/engine.ts: the older engine `Editrix`, with the same editing core as the
    registry-based engine and a hard-wired keydown handler. Looking up the container element is
    a parameter (whether the selector matched), rendering and the caret manager are outside the
    model, and the caret manager's answer to an arrow key is a parameter. */
module EditrixEngine {
  import opened Wrappers
  import opened Constants
  import opened Utils
  import opened Interfaces
  import opened BlockEdits
  import opened Editing
  import opened EditorCore
  import opened KeyBindings
  import opened DefaultKeyBindings
  import opened Dispatch
  import opened RegistryEngine

  /** The message the constructor throws when the selector matches no element. */
  function ContainerNotFound(selector: string): (m: string)
    ensures |m| > |selector| && m[|m| - |selector|..] == selector
  {
    "Container not found with selector: " + selector
  }

  /** The keydown handler's decision, first match wins: Enter and Backspace whatever the
      modifiers, then `b` with Ctrl, then a typeable key, then an arrow key; anything else is
      left alone. */
  function HardwiredAction(e: KeyEvent): Action
  {
    if e.key == "Enter" then Command(ENTER)
    else if e.key == "Backspace" then Command(BACKSPACE)
    else if e.key == "b" && e.ctrlKey then Command(BOLD)
    else if IsTypeableCharacter(e) then TypeKey
    else if IsArrowKey(e.key) then Command(MOVE_CURSOR)
    else Ignore
  }

  /** `Editrix`. */
  class Editrix {
    const editor: Editor

    /** The constructor once the container is found: the editing core starts as one empty `p`
        block, current, at offset 0. */
    constructor (rootId: string, blockId: string, runId: string)
      ensures fresh(editor) && editor.Valid() && editor.Abs() == Initial(blockId, runId)
    {
      editor := new Editor(rootId, blockId, runId);
    }

    /** `new Editrix(selector)`: throws when the selector matches no element, and otherwise
        builds the editor. */
    static method Create(selector: string, containerFound: bool, rootId: string, blockId: string, runId: string)
      returns (r: Result<Editrix>)
      ensures r.Err? <==> !containerFound
      ensures r.Err? ==> r.message == ContainerNotFound(selector)
      ensures r.Ok? ==> fresh(r.value) && fresh(r.value.editor)
      ensures r.Ok? ==> r.value.editor.Valid() && r.value.editor.Abs() == Initial(blockId, runId)
    {
      if !containerFound {
        return Err(ContainerNotFound(selector));
      }
      var editrix := new Editrix(rootId, blockId, runId);
      return Ok(editrix);
    }

    /** The `keydown` handler; the answer says whether `preventDefault` was called. */
    method Keydown(e: KeyEvent, ids: FreshIds, answer: Option<CaretPosition>) returns (prevented: bool)
      requires editor.Valid() && ids.block !in Ids(editor.Abs().doc)
      modifies editor, editor.root, set b | b in editor.root.children
      ensures editor.Valid()
      ensures prevented == Prevents(HardwiredAction(e))
      ensures editor.Abs() == Perform(old(editor.Abs()), HardwiredAction(e), e.key, ids, answer)
    {
      var action: Action;
      if e.key == "Enter" {
        action := Command(ENTER);
      } else if e.key == "Backspace" {
        action := Command(BACKSPACE);
      } else if e.key == "b" && e.ctrlKey {
        action := Command(BOLD);
      } else if IsTypeableCharacter(e) {
        action := TypeKey;
      } else if IsArrowKey(e.key) {
        action := Command(MOVE_CURSOR);
      } else {
        action := Ignore;
      }
      Run(editor, action, e, ids, answer);
      return Prevents(action);
    }
  }

  /** The two engines agree on every event without modifiers whose key holds no `+`, and on
      Ctrl+b, when the registry-based one runs with the default bindings and its own commands. */
  lemma FrontEndsAgree(commands: map<EditorCommand, CommandFn>, e: KeyEvent)
    requires !e.metaKey && !e.altKey && !e.shiftKey
    requires (!e.ctrlKey && KEY_BINDING_DELIMITER !in e.key) || (e.ctrlKey && e.key == "b")
    ensures KeydownAction(DefaultTable(), SetupCommands(commands), e) == HardwiredAction(e)
  {
    var chord := ToString(FromEvent(e));
    var table := DefaultTable();
    if e.ctrlKey {
      DefaultLookups(e);
      BoundChordRunsItsCommand(table, commands, e);
    } else {
      PlainComboString(e.key);
      assert FromEvent(e) == KeyCombo(e.key);
      assert chord == e.key;
      assert "Ctrl+b"[4] == KEY_BINDING_DELIMITER;
      if chord in table {
        BoundChordRunsItsCommand(table, commands, e);
        assert e.key == "Enter" || e.key == "Backspace" || IsArrowKey(e.key);
        assert !IsTypeableCharacter(e) by {
          assert |e.key| > 1 && Utf16Length(e.key) >= |e.key|;
        }
      } else {
        var typed := if IsTypeableCharacter(e) then TypeKey else Ignore;
        assert KeydownAction(table, SetupCommands(commands), e) == typed;
        assert !IsArrowKey(e.key) && e.key != "Enter" && e.key != "Backspace";
        assert HardwiredAction(e) == typed;
      }
    }
  }

  /** Where the engines part: the older one runs Enter whatever modifiers are held, while the
      default bindings leave Ctrl+Enter, Shift+Enter and Ctrl+Shift+Enter alone. */
  lemma ModifiedEnterDiffers(commands: map<EditorCommand, CommandFn>, ctrl: bool, shift: bool)
    requires ctrl || shift
    ensures var e := KeyEvent("Enter", ctrl, false, false, shift);
      HardwiredAction(e) == Command(ENTER) && KeydownAction(DefaultTable(), SetupCommands(commands), e) == Ignore
  {
    var e := KeyEvent("Enter", ctrl, false, false, shift);
    ToStringPrefix(FromEvent(e));
    var chord := ToString(FromEvent(e));
    if ctrl && shift {
      assert chord == "Ctrl+" + "Shift+" + "Enter";
      assert |chord| == 16;
    } else if ctrl {
      assert chord == "Ctrl+" + "Enter";
      assert |chord| == 10 && chord[0] == 'C';
    } else {
      assert chord == "Shift+" + "Enter";
      assert |chord| == 11;
    }
  }

  /** Where the engines part: the older one runs bold on Ctrl+Shift+b, and moves the cursor on a
      Shift-arrow, while the default bindings leave both chords alone. */
  lemma ShiftedChordsDiffer(commands: map<EditorCommand, CommandFn>)
    ensures var e := KeyEvent("b", true, false, false, true);
      HardwiredAction(e) == Command(BOLD) && KeydownAction(DefaultTable(), SetupCommands(commands), e) == Ignore
    ensures var e := KeyEvent("ArrowLeft", false, false, false, true);
      HardwiredAction(e) == Command(MOVE_CURSOR) && KeydownAction(DefaultTable(), SetupCommands(commands), e) == Ignore
  {
    var e := KeyEvent("b", true, false, false, true);
    ToStringPrefix(FromEvent(e));
    assert ToString(FromEvent(e)) == "Ctrl+" + "Shift+" + "b";
    assert ("Ctrl+" + "Shift+" + "b")[5] == 'S';
    var f := KeyEvent("ArrowLeft", false, false, false, true);
    ToStringPrefix(FromEvent(f));
    assert ToString(FromEvent(f)) == "Shift+" + "ArrowLeft";
    assert ("Shift+" + "ArrowLeft")[0] == 'S';
  }
}
