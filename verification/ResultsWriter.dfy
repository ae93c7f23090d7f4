/** OutputStream and ResultsWriter: the objects behind the steps of ResultsFiles. */
module ResultsWriter {
  import opened Wrappers
  import opened ResultsFiles

  class FileSystem {
    var files: Disk

    constructor ()
      ensures files == map[]
    {
      files := map[];
    }
  }

  class OutputStream {
    const fileSystem: FileSystem
    var fileName: Option<nat>
    var attached: bool
    var failed: bool
    var written: seq<string>

    constructor (fileSystem: FileSystem)
      ensures this.fileSystem == fileSystem && View() == NoStream()
    {
      this.fileSystem, fileName, attached, failed, written := fileSystem, None, false, false, [];
    }

    function View(): Stream
      reads this
    {
      Stream(fileName, attached, failed, written)
    }

    /** After the file is closed: the temporary file is renamed or removed, if that works. */
    method MoveTemporary(success: bool, moved: bool) returns (thrown: bool)
      modifies fileSystem
      ensures thrown <==> fileName.Some? && !moved
      ensures fileSystem.files
           == if thrown then (if success then NotRenamed(old(fileSystem.files), View()) else old(fileSystem.files))
              else if success then Renamed(old(fileSystem.files), View())
                  else WithoutTarget(old(fileSystem.files), View())
    {
      thrown := false;
      if fileName.Some? {
        if success {
          // All lines have been flushed to the temporary file.
          fileSystem.files := fileSystem.files[Temporary(fileName.value) := Complete(written)];
        }
        if !moved {
          return true;
        }
        fileSystem.files := fileSystem.files - {Temporary(fileName.value)};
        if success {
          fileSystem.files := fileSystem.files[Final(fileName.value) := Complete(written)];
        }
      }
    }

    /** `thrown`: an exception leaves the file name set, and without synchronisation the stream as it is. */
    method Close(sync: bool, flushed: bool, moved: bool) returns (thrown: bool)
      modifies this, fileSystem
      ensures (fileSystem.files, View(), thrown)
          == CloseStream(old(fileSystem.files), old(View()), sync, flushed, moved)
      ensures attached ==> failed
    {
      var success := false;
      if sync {
        if attached {
          success := !failed && flushed;
          failed := failed || !flushed;
        }
        if !success {
          failed := failed || attached;
          return true;
        }
      }
      attached := false;
      thrown := MoveTemporary(success, moved);
      failed, written := false, [];
      if !thrown {
        fileName := None;
      }
    }

    method Open(number: nat, cleaned: bool, freed: bool, opens: bool) returns (thrown: bool)
      modifies this, fileSystem
      ensures (fileSystem.files, View(), thrown)
          == OpenStream(old(fileSystem.files), old(View()), number, cleaned, freed, opens)
      ensures if thrown then !attached else attached && !failed && fileName == Some(number)
    {
      thrown := Close(false, false, cleaned);
      if thrown {
        return;
      }
      fileName := Some(number);
      if !freed {
        return true;
      }
      fileSystem.files := fileSystem.files - {Final(number)};
      if !opens {
        return true;
      }
      fileSystem.files := fileSystem.files[Temporary(number) := Partial];
      attached := true;
    }

    method Put(lines: seq<string>, works: bool)
      modifies this
      ensures View() == Write(old(View()), lines, works)
    {
      if attached {
        if failed || !works {
          failed := true;
        } else {
          written := written + lines;
        }
      }
    }
  }

  class ResultsWriter {
    const output: OutputStream
    /** The format line of a file; empty if no output format is specified. */
    const header: seq<string>
    const transactionLength: nat
    var inserts: nat
    var seqNumber: nat
    ghost var history: seq<seq<string>>

    constructor (output: OutputStream, header: seq<string>, transactionLength: nat)
      ensures this.output == output && this.header == header && this.transactionLength == transactionLength
      ensures inserts == 0 && seqNumber == 0 && history == [[]]
    {
      this.output, this.header, this.transactionLength := output, header, transactionLength;
      inserts, seqNumber := 0, 0;
      history := [[]];
    }

    ghost function View(): State
      reads this, output, output.fileSystem
    {
      State(output.fileSystem.files, output.View(), inserts, seqNumber, history)
    }

    method Insert(tuple: string, works: bool)
      requires history != []
      modifies this`inserts, this`history, output
      ensures View() == Inserted(old(View()), header, tuple, works)
    {
      if inserts == 0 {
        // The header, if there is one, is written with the first tuple.
        output.Put(header + [tuple], works);
      } else {
        output.Put([tuple], works);
        assert [tuple] == [] + [tuple];
      }
      inserts := inserts + 1;
      history := history[|history| - 1 := history[|history| - 1] + [tuple]];
    }

    method ChangeFile(c: Change) returns (ok: bool)
      modifies this, output, output.fileSystem
      ensures View() == Changed(old(View()), c)
      ensures !c.createNewFile ==> ok
      ensures c.createNewFile ==> (ok <==> output.attached && output.fileName == Some(seqNumber) && !output.failed)
    {
      hide CloseStream, OpenStream;
      // An exception is only logged.
      var _ := output.Close(inserts > 0, c.flushed, c.moved);
      inserts := 0;
      seqNumber := seqNumber + 1;
      history := history + [[]];
      ok := true;
      if c.createNewFile {
        if !c.directoryExists {
          return false;
        }
        var thrown := output.Open(seqNumber, c.cleaned, c.freed, c.opens);
        ok := !thrown;
      }
    }

    /** A new file, if the current one has been written to for long enough. */
    method MayStartNewTransaction(seconds: nat, c: Change) returns (ok: bool)
      requires c.createNewFile
      modifies this, output, output.fileSystem
      ensures View() == if seconds > transactionLength then Changed(old(View()), c) else old(View())
    {
      ok := true;
      if seconds > transactionLength {
        ok := ChangeFile(c);
      }
    }

    /** The destructors of the writer and its stream. */
    method Destroy(flushed: bool, moved: bool, removed: bool)
      modifies this, output, output.fileSystem
      ensures View() == Destroyed(old(View()), flushed, moved, removed)
    {
      var _ := ChangeFile(LastChange(flushed, moved));
      var _ := output.Close(false, false, removed);
    }
  }
}
