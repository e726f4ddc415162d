/**
 * The error taxonomy of src/core/exceptions: two runtime exceptions that
 * carry a message and nothing else.
 */
module Errors {

  datatype ManagerError =
    | UndoNotSupportedError(message: string)
    | RedoNotSupportedError(message: string)

  const NoCommandToUndo: string := "No command to undo"
  const CommandNotUndoable: string := "Command is not undoable"
  const NoCommandToRedo: string := "No command to redo"
}
