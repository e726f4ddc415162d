/**
 * DeleteFileCommand (src/core/utils/DeleteFileCommand.java), the one concrete
 * Undoable command, with the `redo` it inherits from
 * src/core/utils/AbstractCommand.java. The process-wide `FILE_SYSTEM` map is
 * a `FileSystem` object that every command is given; its values are never
 * null, so a missing file and a stashed "nothing" are both `None`.
 */
module DeleteFile {

  import opened Options

  /** `readFile`: the stored content, or nothing when the path is absent. */
  function ReadFile(files: map<string, string>, filePath: string): (content: Option<string>)
    ensures content.Some? <==> filePath in files
    ensures content.Some? ==> content.value == files[filePath]
  {
    if filePath in files then Some(files[filePath]) else None
  }

  /** The files after `undo` with the stash `backup`: the file is written back only when something was stashed. */
  function Restored(files: map<string, string>, filePath: string, backup: Option<string>): map<string, string>
  {
    if backup.Some? then files[filePath := backup.value] else files
  }

  /** Deleting a file and undoing with the content the delete stashed gives back the original files. */
  lemma DeleteThenRestoreIsIdentity(files: map<string, string>, filePath: string)
    ensures Restored(files - {filePath}, filePath, ReadFile(files, filePath)) == files
  {
  }

  /** Deleting an absent file changes nothing, stashes nothing, and so its undo changes nothing. */
  lemma DeleteOfAbsentIsNoOp(files: map<string, string>, filePath: string)
    requires filePath !in files
    ensures files - {filePath} == files
    ensures ReadFile(files, filePath) == None
    ensures Restored(files, filePath, ReadFile(files, filePath)) == files
  {
  }

  /** Deleting and restoring touch no path but `filePath`. */
  lemma OnlyFilePathChanges(files: map<string, string>, filePath: string, backup: Option<string>, other: string)
    requires other != filePath
    ensures ReadFile(files - {filePath}, other) == ReadFile(files, other)
    ensures ReadFile(Restored(files, filePath, backup), other) == ReadFile(files, other)
  {
  }

  /**
   * Redo after undo runs the delete again: it removes the file once more and
   * stashes the same content as the first delete.
   */
  lemma RedoAfterUndoDeletesAgain(files: map<string, string>, filePath: string)
    ensures var backup := ReadFile(files, filePath);
            var restored := Restored(files - {filePath}, filePath, backup);
            restored - {filePath} == files - {filePath} && ReadFile(restored, filePath) == backup
  {
  }

  /** `createFile` followed by `readFile` gives back the content. */
  lemma CreateThenRead(files: map<string, string>, filePath: string, content: string)
    ensures ReadFile(files[filePath := content], filePath) == Some(content)
  {
  }

  /** The shared map from path to content (`FILE_SYSTEM`). */
  class FileSystem {

    var files: map<string, string>

    constructor ()
      ensures files == map[]
    {
      files := map[];
    }
  }

  class DeleteFileCommand {

    const fileSystem: FileSystem
    const filePath: string

    /** The content the last `execute` removed, if there was any. */
    var backupContent: Option<string>

    constructor (fileSystem: FileSystem, filePath: string)
      ensures this.fileSystem == fileSystem && this.filePath == filePath
      ensures backupContent == None
    {
      this.fileSystem := fileSystem;
      this.filePath := filePath;
      backupContent := None;
    }

    /** `FILE_SYSTEM.remove(filePath)`, keeping what it returns. */
    method Execute()
      modifies this, fileSystem
      ensures fileSystem.files == old(fileSystem.files) - {filePath}
      ensures backupContent == ReadFile(old(fileSystem.files), filePath)
    {
      backupContent := ReadFile(fileSystem.files, filePath);
      fileSystem.files := fileSystem.files - {filePath};
    }

    method Undo()
      modifies fileSystem
      ensures fileSystem.files == Restored(old(fileSystem.files), filePath, backupContent)
    {
      if backupContent.Some? {
        fileSystem.files := fileSystem.files[filePath := backupContent.value];
      }
    }

    /** Inherited from AbstractCommand: run `execute` again. */
    method Redo()
      modifies this, fileSystem
      ensures fileSystem.files == old(fileSystem.files) - {filePath}
      ensures backupContent == ReadFile(old(fileSystem.files), filePath)
    {
      Execute();
    }

    /** Writes any path, not only this command's own. */
    method CreateFile(path: string, content: string)
      modifies fileSystem
      ensures fileSystem.files == old(fileSystem.files)[path := content]
    {
      fileSystem.files := fileSystem.files[path := content];
    }
  }

  /** The file-system side of the scenario in src/App.java:22-49: delete, undo restores, redo deletes again. */
  method ExecuteUndoRedo(fileSystem: FileSystem, command: DeleteFileCommand)
    requires command.fileSystem == fileSystem
    modifies fileSystem, command
    ensures command.backupContent == ReadFile(old(fileSystem.files), command.filePath)
    ensures fileSystem.files == old(fileSystem.files) - {command.filePath}
  {
    ghost var original := fileSystem.files;
    command.Execute();
    command.Undo();
    DeleteThenRestoreIsIdentity(original, command.filePath);
    assert fileSystem.files == original;
    command.Redo();
  }
}
