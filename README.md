# Undo/redo engine, modelled in Dafny

This project models the core of a small Java undo/redo system. An
`UndoRedoManager` runs commands and keeps two LIFO histories. The undo
history holds the commands that can be undone. The redo history holds the
commands that were undone and can be redone. The histories come in two
kinds: `InMemoryHistory`, a `java.util.Stack` that also supports a bounded
push with oldest-first eviction, and `PersistentHistory`, an `ArrayDeque`
with two persistence hooks whose bodies are empty. `HistoryLimiter` caps a
bounded history at its configured `limit` and does a plain push onto any
other history. `DeleteFileCommand` is the one concrete
undoable command; it works on an in-memory file map.

Layout, one module per source file or component:

- `options.dfy` (`Options`): `Option`, standing for a Java reference that may be null.
- `commands.dfy` (`Commands`): the command value and stack helpers `Top` and `Popped`.
- `errors.dfy` (`Errors`): `UndoNotSupportedError` / `RedoNotSupportedError` and their messages.
- `in_memory_history.dfy` (`InMemory`): the class `InMemoryHistory` and the pure `BoundedPush`.
- `persistent_history.dfy` (`Persistent`): the class `PersistentHistory`, its hook log and `Reversed`.
- `command_history.dfy` (`History`): `HistoryRef`, the `CommandHistory` interface over both classes.
- `history_limiter.dfy` (`Limiter`): the class `HistoryLimiter`.
- `undo_redo_manager.dfy` (`Manager`): step functions, run lemmas and the class `UndoRedoManager`.
- `delete_file_command.dfy` (`DeleteFile`): `FileSystem`, `DeleteFileCommand` and its map lemmas.

How the Java constructs are represented:

- A command is `Command(id, undoable, serializable)`. The two flags stand
  for the `instanceof Undoable` and `instanceof Serializable` checks. The
  `id` stands for the object's identity. A Java object's class fixes both
  flags, so two commands with the same `id` are the same value, and
  comparing whole `Command` values (as `NoDuplicates` does) is comparing
  identities.
- The `CommandHistory` interface is `HistoryRef`, a tagged reference to one
  of the two history classes. Its `Push`, `Pop`, `IsEmpty` and `Clear`
  dispatch on the tag. `Bounded()` stands for `instanceof BoundedHistory`,
  which only `InMemoryHistory` implements.
- Every history has the same outside view, `Elements()`: oldest entry
  first, top last. For `InMemoryHistory` this is the stack itself. For
  `PersistentHistory` it is the reverse of the deque, because
  `ArrayDeque.push` and `pop` work at the head (index 0).
- The persistence hooks do nothing in the source. The model records each
  call in a ghost `hookLog` (`Persisted(c)` or `ClearedPersistence`) and
  proves that the hooks leave the deque unchanged.
- The manager never runs command code itself. It records every call it
  would make into a command (`Executed`, `Undone`, `Redone`) in a ghost
  trace, `invoked`. `CommandExecutor.execute` only calls
  `command.execute()`, so it is folded into `Execute` as the `Executed`
  entry.
- The pure functions `ExecuteStep`, `UndoStep`, `RedoStep` and `ClearStep`
  say what one manager call does. Each gives the new pair of stacks, the
  command calls made and the error raised. The class's methods are proved
  to follow these functions. The lemmas state the manager's properties
  about the functions, for one call and for any sequence of calls (`Run`).
- The static `FILE_SYSTEM` map is a `FileSystem` object shared by the
  commands. A missing file and a null backup are both `None`.

Three facts about the code that the model keeps:

- `UndoRedoManager` takes no lock. `Mutex` exists but nothing uses it.
- The manager checks `isEmpty()` before every `pop`. A `pop` on an empty
  history would throw from the Java collection itself, so the model's `Pop`
  requires a non-empty history.
- Nothing in the code stops one command object from being in the two
  histories at once, or twice in one: executing the same Undoable object
  twice pushes it twice. `RunKeepsNoDuplicates` proves that no command is
  duplicated only for sequences of calls that execute new commands.

## Model

| member | source | states |
|---|---|---|
| `InMemory.InMemoryHistory.constructor` | src/core/history/InMemoryHistory.java:9 | a new history is empty |
| `InMemory.InMemoryHistory.PushWithLimit` | src/core/history/InMemoryHistory.java:11-16 | the eviction loop and push leave exactly `BoundedPush(old stack, command, maxLimit)`; requires `maxLimit >= 1`, because smaller limits make `removeElementAt(0)` throw on an empty stack |
| `InMemory.InMemoryHistory.Push` | src/core/history/InMemoryHistory.java:18-20 | the command becomes the new top and nothing else changes |
| `InMemory.InMemoryHistory.Pop` | src/core/history/InMemoryHistory.java:22-24 | returns the top and removes it; requires a non-empty stack, because `Stack.pop` throws otherwise |
| `InMemory.InMemoryHistory.IsEmpty` | src/core/history/InMemoryHistory.java:26-28 | true exactly when the stack holds no commands |
| `InMemory.InMemoryHistory.Clear` | src/core/history/InMemoryHistory.java:30-33 | the stack is left empty |
| `InMemory.BoundedPushWithinLimit` | src/core/history/InMemoryHistory.java:11-16 | after a bounded push the size is at most `maxLimit` and the pushed command is on top |
| `InMemory.BoundedPushEvictsOldest` | src/core/history/InMemoryHistory.java:12-15 | below the new top lie the most recent `min(size, maxLimit - 1)` old entries, in their old order: only the bottom is evicted |
| `InMemory.BoundedPushBelowLimitIsPush` | src/core/history/InMemoryHistory.java:12-15 | when the size is below the limit, a bounded push is exactly a plain push |
| `InMemory.BoundedPushOnFullEvictsOne` | src/core/history/InMemoryHistory.java:12-15 | on a stack of exactly `maxLimit` entries, a bounded push evicts only the single oldest entry |
| `InMemory.BoundedPushesStayWithinLimit` | src/core/history/InMemoryHistory.java:11-16 | any sequence of bounded pushes keeps `size <= maxLimit` |
| `Commands.PushPopRoundTrip` | src/core/history/InMemoryHistory.java:18-24 | LIFO: popping right after pushing returns the pushed command and the previous stack |
| `Commands.PopSplitsMultiset` | src/core/manager/UndoRedoManager.java:35 | popping splits a history's commands into the rest plus the top, with nothing lost |
| `Persistent.PersistentHistory.constructor` | src/core/history/PersistentHistory.java:10 | a new deque is empty and no hook has been called |
| `Persistent.PersistentHistory.Push` | src/core/history/PersistentHistory.java:12-18 | the command is inserted at the head; `persist` is called after it exactly when the command is Serializable |
| `Persistent.PersistentHistory.Clear` | src/core/history/PersistentHistory.java:20-23 | the deque is emptied and `clearPersistence` is always called |
| `Persistent.PersistentHistory.Pop` | src/core/history/PersistentHistory.java:25-27 | returns and removes the head, calls no hook; requires a non-empty deque, because `ArrayDeque.pop` throws otherwise |
| `Persistent.PersistentHistory.IsEmpty` | src/core/history/PersistentHistory.java:29-31 | true exactly when the deque is empty |
| `Persistent.PersistentHistory.Persist` | src/core/history/PersistentHistory.java:33-35 | the hook is only recorded: the deque does not change |
| `Persistent.PersistentHistory.ClearPersistence` | src/core/history/PersistentHistory.java:37-39 | the hook is only recorded: the deque does not change |
| `Persistent.ReversedAt` | src/core/history/PersistentHistory.java:12-27 | entry `k` of the stack view is entry `|deque| - 1 - k` of the deque, so the deque's head is the view's top (that push and pop act at the top is proved by `History.HistoryRef.Push` and `History.HistoryRef.Pop`) |
| `Persistent.ReversedInvolutive` | src/core/history/PersistentHistory.java:10 | reversing the stack view gives the deque back, so `Elements()` determines the deque and the `HistoryRef` contracts, stated on `Elements()`, pin down a persistent history's whole state |
| `History.HistoryRef.Push` | src/core/history/CommandHistory.java:6 | either history kind: the command becomes the new top of `Elements()`, and the hooks fired are those of the kind |
| `History.HistoryRef.Pop` | src/core/history/CommandHistory.java:7 | either history kind: returns the top of `Elements()` and removes it, firing no hook |
| `History.HistoryRef.IsEmpty` | src/core/history/CommandHistory.java:8 | either history kind: true exactly when `Elements()` is empty |
| `History.HistoryRef.Clear` | src/core/history/CommandHistory.java:9 | either history kind: `Elements()` is left empty; a persistent history also calls `clearPersistence` |
| `History.PushThenPop` | src/core/history/CommandHistory.java:6-7 | for both kinds, push followed by pop returns the pushed command and restores the previous contents |
| `Limiter.HistoryLimiter.constructor` | src/core/utils/HistoryLimiter.java:12-14 | the limit is the one given; it is a constant that no method changes |
| `Limiter.HistoryLimiter.Push` | src/core/utils/HistoryLimiter.java:16-22 | a bounded history gets `BoundedPush` with the limit and ends with at most `limit` entries; any other history gets a plain push that evicts nothing; in both cases the command ends on top and only the target history changes |
| `Manager.UndoRedoManager.constructor` | src/core/manager/UndoRedoManager.java:14-18 | keeps the two given histories, which must be separate objects |
| `Manager.UndoRedoManager.Execute` | src/core/manager/UndoRedoManager.java:20-27 | follows `ExecuteStep`: records the executor's call; an Undoable command is pushed onto the undo history and the redo history is cleared, with the hooks this fires |
| `Manager.UndoRedoManager.Undo` | src/core/manager/UndoRedoManager.java:30-43 | follows `UndoStep`: the new stacks, the command call and the returned error are the ones that function gives |
| `Manager.UndoRedoManager.Redo` | src/core/manager/UndoRedoManager.java:45-54 | follows `RedoStep`: the new stacks, the command call and the returned error are the ones that function gives |
| `Manager.UndoRedoManager.ClearHistory` | src/core/manager/UndoRedoManager.java:56-59 | both histories are left empty and their clear hooks fire |
| `Manager.ExecuteUndoablePushesAndClearsRedo` | src/core/manager/UndoRedoManager.java:20-26 | executing an Undoable command runs it, makes it the new top of the undo history, and leaves the redo history empty |
| `Manager.ExecuteNonUndoableLeavesHistories` | src/core/manager/UndoRedoManager.java:23-26 | executing a command that is not Undoable runs it and changes neither history; in particular the redo history is kept |
| `Manager.UndoOnEmptyFails` | src/core/manager/UndoRedoManager.java:31-33 | undo with an empty undo history fails with `UndoNotSupportedError("No command to undo")`, calls nothing and changes nothing |
| `Manager.UndoMovesTopToRedo` | src/core/manager/UndoRedoManager.java:35-42 | a successful undo calls the top command's `undo` and moves that command from the undo top to the redo top; every other entry stays |
| `Manager.UndoDropsNonUndoable` | src/core/manager/UndoRedoManager.java:35-39 | a top that is not Undoable is popped and dropped with `UndoNotSupportedError("Command is not undoable")`; the redo history is unchanged |
| `Manager.RedoOnEmptyFails` | src/core/manager/UndoRedoManager.java:46-48 | redo with an empty redo history fails with `RedoNotSupportedError("No command to redo")`, calls nothing and changes nothing |
| `Manager.RedoMovesTopToUndo` | src/core/manager/UndoRedoManager.java:50-53 | redo calls the redo top's `redo` and moves that command onto the undo history, with no capability check |
| `Manager.UndoThenRedoRestores` | src/core/manager/UndoRedoManager.java:35-53 | a successful undo followed by redo restores both histories exactly, after calling `undo` then `redo` on the same command |
| `Manager.RedoThenUndoRestores` | src/core/manager/UndoRedoManager.java:35-53 | a redo of an Undoable command followed by undo restores both histories exactly |
| `Manager.MovesPreserveMembers` | src/core/manager/UndoRedoManager.java:35-53 | a successful undo or redo keeps the multiset union of the two histories, so no command is lost or duplicated |
| `Manager.ClearEmptiesBoth` | src/core/manager/UndoRedoManager.java:56-59 | clearing empties both histories and raises no error |
| `Manager.StepMembers` | src/core/manager/UndoRedoManager.java:20-58 | a single manager call adds to the histories at most the command it executes |
| `Manager.StepKeepsNoDuplicates` | src/core/manager/UndoRedoManager.java:20-58 | a single call keeps every command at most once across both histories, when any command it executes is new |
| `Manager.RunKeepsNoDuplicates` | src/core/manager/UndoRedoManager.java:20-58 | over any sequence of calls that executes only new commands, no command is ever in the histories twice |
| `Manager.StepKeepsAllUndoable` | src/core/manager/UndoRedoManager.java:23-53 | a single call lets only Undoable commands into either history |
| `Manager.RunKeepsAllUndoable` | src/core/manager/UndoRedoManager.java:23-53 | over any sequence of calls, only Undoable commands are ever in either history |
| `Manager.NotUndoableNeverRaised` | src/core/manager/UndoRedoManager.java:37-39 | for histories that start empty and are changed only by the manager, undo never raises "Command is not undoable" |
| `DeleteFile.ReadFile` | src/core/utils/DeleteFileCommand.java:37-42 | the stored content when the path is present, nothing (null) when it is absent |
| `DeleteFile.FileSystem.constructor` | src/core/utils/DeleteFileCommand.java:9 | a new file system holds no files |
| `DeleteFile.DeleteThenRestoreIsIdentity` | src/core/utils/DeleteFileCommand.java:20-31 | execute followed by undo gives back the original file map exactly |
| `DeleteFile.DeleteOfAbsentIsNoOp` | src/core/utils/DeleteFileCommand.java:21-28 | for an absent file, execute stashes nothing, and execute and undo both leave the map unchanged |
| `DeleteFile.OnlyFilePathChanges` | src/core/utils/DeleteFileCommand.java:21-28 | execute and undo change no path other than the command's own |
| `DeleteFile.RedoAfterUndoDeletesAgain` | src/core/utils/AbstractCommand.java:8-10 | redo after undo removes the file again and stashes the same content as the first execute |
| `DeleteFile.CreateThenRead` | src/core/utils/DeleteFileCommand.java:33-42 | after `createFile`, `readFile` returns the content written |
| `DeleteFile.DeleteFileCommand.constructor` | src/core/utils/DeleteFileCommand.java:15-17 | a new command has its path and no backup |
| `DeleteFile.DeleteFileCommand.Execute` | src/core/utils/DeleteFileCommand.java:20-23 | removes the path from the map and stashes the previous content, or nothing when the path was absent |
| `DeleteFile.DeleteFileCommand.Undo` | src/core/utils/DeleteFileCommand.java:26-31 | writes the backup back under the path when there is one, and is a no-op otherwise |
| `DeleteFile.DeleteFileCommand.Redo` | src/core/utils/AbstractCommand.java:8-10 | the same effect as `Execute`, which it calls |
| `DeleteFile.DeleteFileCommand.CreateFile` | src/core/utils/DeleteFileCommand.java:33-35 | sets the given path, which may differ from the command's own, to the content |
| `DeleteFile.ExecuteUndoRedo` | src/App.java:22-49 | on one command, execute, undo, redo: the stash is what the file held before (nothing when it was absent), and the file ends deleted again |

## Left out

- `src/core/utils/Mutex.java`: a lock wrapper. The manager never uses it, so the model is sequential.
- Failures thrown inside a command's own `execute`, `undo` or `redo`: command bodies are outside the manager. The manager records which of them it calls, in the ghost trace `invoked`. The model therefore does not capture what a throw does in the source. If `command.undo()` throws (src/core/manager/UndoRedoManager.java:41), the command has already been popped and goes onto neither history. The same holds for a throwing `command.redo()` at line 52. A throwing `execute` (line 21) skips both the push and the clear of the redo history.
- The coupling between the manager and `DeleteFileCommand`. The manager's histories hold `Command` values. The effect of a delete command is modelled on its own class, and the manager's trace records when that effect would run.
- `src/core/utils/SendEmailCommand.java`: its `execute` only prints, and its `undo`/`redo` throw. The source file also does not compile.
- `src/App.java`'s test runner: printing, catching exceptions and `System.exit`. Its test bodies appear only as the lemmas and client above.
- The payload of `Serializable.serializable()` and any storage behind the persistence hooks: both are foreign. Hook calls are recorded in a ghost log.
- The exceptions' default messages (`"Undo operation is not supported for this command"` and the redo one): the core never uses the no-argument constructors.
- Java collection details: null values in `FILE_SYSTEM`, and the exceptions `Stack`/`ArrayDeque` throw on an empty pop. Values are never null; pops require a non-empty history.
- `InMemory.InMemoryHistory.PushWithLimit`: the failure for `maxLimit <= 0` (an index error from `removeElementAt(0)` once the stack is drained) is a precondition, not an error path.
- `Limiter.HistoryLimiter.Push`: likewise, a bounded target with `limit <= 0` is excluded by the precondition rather than modelled as a failure.
- Manager.UndoRedoManager.constructor: requires the two histories to be separate objects, so the aliased case is not modelled. The Java constructor would accept one object twice. Every call site in src/App.java (lines 20, 40, 58, 75, 89, 103) passes two fresh histories. With one object passed twice, `execute` would push onto that stack and then clear it (src/core/manager/UndoRedoManager.java:24-25).
- Integer width: `int` sizes and limits are unbounded; no Java history can come near `Integer.MAX_VALUE` entries.
