/** core/src/engine/index.ts: the registry-based engine. Its constructor builds the editing core
    and registers the engine's four editing methods under their commands; its keydown handler
    asks the key-binding registry for a command, and the command registry for a handler. The
    registries are passed in (the engine options), the renderer and the caret manager are
    outside the model, and the caret manager's answer to an arrow key is a parameter. */
module RegistryEngine {
  import opened Wrappers
  import opened Constants
  import opened Utils
  import opened Interfaces
  import opened BlockEdits
  import opened Editing
  import opened EditorCore
  import opened KeyBindings
  import opened CommandBindings
  import opened Dispatch

  /** A handler the command registry holds: the engine method `setupCommands` bound for a
      command (`applyBold`, `handleEnterKey`, `handleBackspace`, `updateCursorOffset`). */
  datatype CommandFn = EngineMethod(handles: EditorCommand)

  /** The registry after `setupCommands`: each command mapped to its own engine method. */
  function SetupCommands(commands: map<EditorCommand, CommandFn>): map<EditorCommand, CommandFn>
  {
    commands[BOLD := EngineMethod(BOLD)][ENTER := EngineMethod(ENTER)]
            [BACKSPACE := EngineMethod(BACKSPACE)][MOVE_CURSOR := EngineMethod(MOVE_CURSOR)]
  }

  /** The keydown handler's decision: a bound chord is always swallowed, and runs the handler
      registered for its command if there is one; an unbound typeable key is typed; anything
      else is left alone. */
  function KeydownAction(bindings: map<string, EditorCommand>, commands: map<EditorCommand, CommandFn>, e: KeyEvent): Action
  {
    match Get(bindings, ToString(FromEvent(e)))
    case Some(command) =>
      (match Get(commands, command)
       case Some(commandFn) => Command(commandFn.handles)
       case None => Consume)
    case None => if IsTypeableCharacter(e) then TypeKey else Ignore
  }

  /** `Engine`. */
  class Engine {
    const editor: Editor
    const keyBindingRegistry: KeyBindingRegistry
    const commandRegistry: CommandRegistry<CommandFn>

    /** The constructor: the editing core starts as one empty `p` block, current, at offset 0,
        and the command registry gets the four engine methods, each under its own command. */
    constructor (keyBindingRegistry: KeyBindingRegistry, commandRegistry: CommandRegistry<CommandFn>,
                 rootId: string, blockId: string, runId: string)
      modifies commandRegistry
      ensures fresh(editor) && editor.Valid() && editor.Abs() == Initial(blockId, runId)
      ensures this.keyBindingRegistry == keyBindingRegistry && this.commandRegistry == commandRegistry
      ensures commandRegistry.commands == SetupCommands(old(commandRegistry.commands))
    {
      var core := new Editor(rootId, blockId, runId);
      commandRegistry.Register(BOLD, EngineMethod(BOLD));
      commandRegistry.Register(ENTER, EngineMethod(ENTER));
      commandRegistry.Register(BACKSPACE, EngineMethod(BACKSPACE));
      commandRegistry.Register(MOVE_CURSOR, EngineMethod(MOVE_CURSOR));
      editor := core;
      this.keyBindingRegistry := keyBindingRegistry;
      this.commandRegistry := commandRegistry;
    }

    /** The `keydown` handler: decides on the outcome from the two registries and carries it
        out; the answer says whether `preventDefault` was called. */
    method Keydown(e: KeyEvent, ids: FreshIds, answer: Option<CaretPosition>) returns (prevented: bool)
      requires editor.Valid() && ids.block !in Ids(editor.Abs().doc)
      modifies editor, editor.root, set b | b in editor.root.children
      ensures editor.Valid()
      ensures var a := KeydownAction(keyBindingRegistry.bindings, commandRegistry.commands, e);
        prevented == Prevents(a) && editor.Abs() == Perform(old(editor.Abs()), a, e.key, ids, answer)
    {
      var command := keyBindingRegistry.GetCommand(e);
      var action: Action;
      if command.Some? {
        var commandFn := commandRegistry.Get(command.value);
        action := if commandFn.Some? then Command(commandFn.value.handles) else Consume;
      } else if IsTypeableCharacter(e) {
        action := TypeKey;
      } else {
        action := Ignore;
      }
      assert action == KeydownAction(keyBindingRegistry.bindings, commandRegistry.commands, e);
      Run(editor, action, e, ids, answer);
      return Prevents(action);
    }
  }

  /** After `setupCommands` every command has its own engine method, whatever was registered
      before. */
  lemma SetupRegistersAll(commands: map<EditorCommand, CommandFn>, c: EditorCommand)
    ensures Get(SetupCommands(commands), c) == Some(EngineMethod(c))
  {
  }

  /** A bound chord is swallowed even when no handler is registered for its command, and it is
      never typed; an unbound chord is typed exactly when the key is typeable, and otherwise
      left alone. */
  lemma BoundChordsSwallowed(bindings: map<string, EditorCommand>, commands: map<EditorCommand, CommandFn>, e: KeyEvent)
    ensures var a := KeydownAction(bindings, commands, e);
      && (ToString(FromEvent(e)) in bindings ==> Prevents(a) && !a.TypeKey?)
      && (ToString(FromEvent(e)) in bindings && bindings[ToString(FromEvent(e))] !in commands ==> a == Consume)
      && (a == TypeKey <==> ToString(FromEvent(e)) !in bindings && IsTypeableCharacter(e))
      && (a == Ignore <==> ToString(FromEvent(e)) !in bindings && !IsTypeableCharacter(e))
  {
  }

  /** Once the commands are set up, a bound chord runs the engine method of exactly the command
      it is bound to. */
  lemma BoundChordRunsItsCommand(bindings: map<string, EditorCommand>, commands: map<EditorCommand, CommandFn>, e: KeyEvent)
    requires ToString(FromEvent(e)) in bindings
    ensures KeydownAction(bindings, SetupCommands(commands), e) == Command(bindings[ToString(FromEvent(e))])
  {
    SetupRegistersAll(commands, bindings[ToString(FromEvent(e))]);
  }
}
