/**
  What the two commands touch outside themselves: the console they write lines
  to, the file system they query and write, and the outcome of each codec call.
 */
module Environment {
  import opened Font

  /** IConsole.Out: every WriteLine appends one line. */
  class Console {
    var lines: seq<string>

    constructor ()
      ensures lines == []
    {
      lines := [];
    }

    method WriteLine(line: string)
      modifies this
      ensures lines == old(lines) + [line]
    {
      lines := lines + [line];
    }
  }

  /** One call of BitmapFont.Save: which source was converted, to which path, in which format. */
  datatype Save = Save(source: nat, output: string, format: Format)

  /**
    The file system as File.Exists sees it, plus the log of the saves made through
    it (a save to an existing path replaces that file's content).
   */
  class FileSystem {
    var paths: set<string>
    var saves: seq<Save>

    constructor (paths: set<string>)
      ensures this.paths == paths && saves == []
    {
      this.paths := paths;
      saves := [];
    }

    predicate Exists(path: string)
      reads this
    {
      path in paths
    }

    /** A save that succeeds leaves a file at its output path. */
    method Write(save: Save)
      modifies this
      ensures paths == old(paths) + {save.output}
      ensures saves == old(saves) + [save]
    {
      paths := paths + {save.output};
      saves := saves + [save];
    }
  }

  /**
    The outcome of the codec calls the convert command makes, by position in the
    source list: BitmapFont.FromFile throws for the sources in loadFails and
    BitmapFont.Save throws for those in saveFails.
   */
  datatype Codec = Codec(loadFails: set<nat>, saveFails: set<nat>)
}
