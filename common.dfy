/** Process-level vocabulary shared by the four check scripts. */
module Runtime {

  datatype Option<+T> = None | Some(value: T)

  /** How one run of a script's `main` ends.
      - Returned: `main` falls off its end (the interpreter then exits with status 0);
      - Exited(code): `sys.exit(code)` was called; `SystemExit` is not an `Exception`,
        so no `except Exception` handler in the scripts can stop it;
      - Raised: an exception nobody catches ends the interpreter (status 1). */
  datatype Ending = Returned | Exited(code: int) | Raised {

    /** The process exit status seen by the caller of the script. */
    function Status(): int {
      match this
      case Returned => 0
      case Exited(c) => c
      case Raised => 1
    }
  }

  /** `sys.exit(1)` if the run-wide error flag is set, `sys.exit(0)` otherwise. */
  function ExitFor(errorOccurred: bool): (e: Ending)
    ensures e.Exited? && (e.Status() == 1 <==> errorOccurred) && (e.Status() == 0 <==> !errorOccurred)
  {
    Exited(if errorOccurred then 1 else 0)
  }
}

/** A font as the scripts see it through fontTools, and the file system around it. */
module FontData {
  import opened Runtime

  /** The attributes of one decoded table (`tt[tag].__dict__`), restricted to its integer fields. */
  type Table = map<string, int>

  /** One record of the `name` table: its name ID, its platform ID and its raw `string`. */
  datatype NameRecord = NameRecord(nameID: int, platformID: int, raw: seq<bv8>)

  /** A font fontTools could open.
      `tables` holds the scalar tables (head, hhea, OS/2, post, maxp, ...) by tag;
      `hmtx` is the `metrics` attribute of the hmtx table reduced to each glyph's advance width;
      `names` is the `names` attribute of the name table, in table order.
      An absent tag, field, hmtx or name table stands for the KeyError fontTools raises. */
  datatype Font = Font(tables: map<string, Table>, hmtx: Option<map<string, int>>, names: Option<seq<NameRecord>>) {

    /** `tt[tag].__dict__`, or None where that lookup raises. */
    function Get(tag: string): Option<Table> {
      if tag in tables then Some(tables[tag]) else None
    }

    /** `tt[tag].__dict__[field]`, or None where either lookup raises. */
    function Field(tag: string, field: string): Option<int> {
      if tag in tables && field in tables[tag] then Some(tables[tag][field]) else None
    }
  }

  /** What the scripts find on disk.
      `files`: the paths for which `os.path.isfile` holds;
      `fonts`: the paths `ttLib.TTFont` opens (opening any other path raises);
      `documents`: the paths whose YAML content loads as a mapping from field name to integer
      (loading any other path raises, or yields something that cannot be indexed by a field name). */
  datatype Disk = Disk(files: set<string>, fonts: map<string, Font>, documents: map<string, Table>)
}
