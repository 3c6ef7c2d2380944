/** Constants of core/src/constants.ts and the command enum of core/src/bindings/commands.ts. */
module Constants {

  /** The zero-width space U+200B used as the placeholder of an empty run or block. */
  const ZERO_WIDTH_SPACE: char := '\U{200B}'

  /** The attribute that carries a node's opaque id on its rendered element. */
  const EDITRIX_DATA_ID: string := "data-editrix-id"

  /** The editor commands (the `EditorCommands` enum). */
  datatype EditorCommand = BOLD | ENTER | BACKSPACE | MOVE_CURSOR
}
