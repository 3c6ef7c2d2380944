/** core/src/bindings/commandBinding.ts: the registry from editor commands to handlers. The
    handler type `CommandFn` is a type parameter here. */
module CommandBindings {
  import opened Wrappers
  import opened Constants

  /** `CommandRegistry`: a map from commands to handlers, updated in place. */
  class CommandRegistry<F> {
    var commands: map<EditorCommand, F>

    /** A new registry holds no handler. */
    constructor ()
      ensures commands == map[]
    {
      commands := map[];
    }

    /** `register`: the name now maps to the handler, replacing any earlier one; every other
        name keeps its handler. */
    method Register(name: EditorCommand, command: F)
      modifies this
      ensures commands == old(commands)[name := command]
    {
      commands := commands[name := command];
    }

    /** `get`: the registered handler, or null for a name never registered. */
    method Get(name: EditorCommand) returns (r: Option<F>)
      ensures r == Wrappers.Get(commands, name)
    {
      if name in commands {
        return Some(commands[name]);
      }
      return None;
    }
  }

  /** After `register(n, f)`, `get(n)` is `f`, and every other name answers what it answered
      before; in particular a name never registered still answers null. */
  lemma RegisterThenGet<F>(commands: map<EditorCommand, F>, n: EditorCommand, f: F, m: EditorCommand)
    ensures Get(commands[n := f], n) == Some(f)
    ensures m != n ==> Get(commands[n := f], m) == Get(commands, m)
  {
  }
}
