/** test-version.py: every font given on the command line must carry a non-empty
    version string (name ID 5) in its name table. */
module Version {
  import opened Runtime
  import opened FontData

  /** The version string the inner loop settles on: the `string` of the last record
      with name ID 5, whatever its platform; empty when there is none. */
  function VersionString(names: seq<NameRecord>): seq<bv8>
    decreases |names|
  {
    if |names| == 0 then []
    else if names[|names| - 1].nameID == 5 then names[|names| - 1].raw
    else VersionString(names[..|names| - 1])
  }

  /** Whether the iteration for `fontpath` sets the error flag; None when it raises
      (the file is not a font fontTools opens, or it has no name table). A path that
      is not a file is passed over. */
  function VersionFails(fontpath: string, disk: Disk): Option<bool> {
    if fontpath !in disk.files then Some(false)
    else if fontpath !in disk.fonts then None
    else match disk.fonts[fontpath].names
      case None => None
      case Some(names) => Some(|VersionString(names)| == 0)
  }

  /** The loop over the font paths, with the error flag so far. */
  function VersionLoop(paths: seq<string>, disk: Disk, errorOccurred: bool): Ending
    decreases |paths|
  {
    if |paths| == 0 then ExitFor(errorOccurred)
    else match VersionFails(paths[0], disk)
      case None => Raised
      case Some(fails) => VersionLoop(paths[1..], disk, errorOccurred || fails)
  }

  /** `main(arguments)`: `arguments[-1]` is read outside any `try`, so an empty list
      raises; the expected version is the last argument, the fonts all the others. */
  function VersionRun(arguments: seq<string>, disk: Disk): Ending {
    if |arguments| == 0 then Raised
    else VersionLoop(arguments[..|arguments| - 1], disk, false)
  }

  /** The loop over `name_tables` (test-version.py lines 31-33). */
  method SelectVersionString(names: seq<NameRecord>) returns (raw: seq<bv8>)
    ensures raw == VersionString(names)
  {
    raw := [];
    var i := 0;
    while i < |names|
      invariant 0 <= i <= |names|
      invariant raw == VersionString(names[..i])
    {
      assert names[..i + 1][..i] == names[..i];
      if names[i].nameID == 5 {
        raw := names[i].raw;
      }
      i := i + 1;
    }
    assert names[..|names|] == names;
  }

  /** `main(arguments)`, ending as `VersionRun` says. */
  method VersionMain(arguments: seq<string>, disk: Disk) returns (end: Ending)
    ensures end == VersionRun(arguments, disk)
  {
    if |arguments| == 0 {
      return Raised;
    }
    var expectedVersion := arguments[|arguments| - 1];
    var filepaths := arguments[..|arguments| - 1];
    var errorOccurred := false;
    var i := 0;
    while i < |filepaths|
      invariant 0 <= i <= |filepaths|
      invariant VersionRun(arguments, disk) == VersionLoop(filepaths[i..], disk, errorOccurred)
    {
      assert filepaths[i..][1..] == filepaths[i + 1..];
      var fontpath := filepaths[i];
      if fontpath in disk.files {
        if fontpath !in disk.fonts {
          return Raised;
        }
        var nameTables := disk.fonts[fontpath].names;
        if nameTables.None? {
          return Raised;
        }
        var versionStringRaw := SelectVersionString(nameTables.value);
        if |versionStringRaw| == 0 {
          errorOccurred := true;
        }
      }
      i := i + 1;
    }
    return ExitFor(errorOccurred);
  }

  // ---------------------------------------------------------------------------
  // Properties

  /** The last record with name ID 5 decides, and without one the string is empty. */
  lemma {:induction false} LastVersionRecordWins(names: seq<NameRecord>, j: int)
    requires -1 <= j < |names|
    requires j >= 0 ==> names[j].nameID == 5
    requires forall k :: j < k < |names| ==> names[k].nameID != 5
    ensures VersionString(names) == if j >= 0 then names[j].raw else []
    decreases |names|
  {
    if |names| > 0 && j < |names| - 1 {
      var prefix := names[..|names| - 1];
      assert forall k :: j < k < |prefix| ==> prefix[k] == names[k];
      LastVersionRecordWins(prefix, j);
    }
  }

  /** The platform of a record plays no part: two name tables that agree on every
      record's name ID and string give the same version string. */
  lemma {:induction false} PlatformIgnored(a: seq<NameRecord>, b: seq<NameRecord>)
    requires |a| == |b|
    requires forall k :: 0 <= k < |a| ==> a[k].nameID == b[k].nameID && a[k].raw == b[k].raw
    ensures VersionString(a) == VersionString(b)
    decreases |a|
  {
    if |a| > 0 {
      PlatformIgnored(a[..|a| - 1], b[..|b| - 1]);
    }
  }

  /** The expected version is read and never used: the outcome is the same whatever
      the last argument says. */
  lemma ExpectedVersionIgnored(paths: seq<string>, v1: string, v2: string, disk: Disk)
    ensures VersionRun(paths + [v1], disk) == VersionRun(paths + [v2], disk)
  {
    assert (paths + [v1])[..|paths|] == paths && (paths + [v2])[..|paths|] == paths;
  }

  /** A path that is not a file is silently passed over: removing it changes nothing. */
  lemma {:induction false} MissingPathSkipped(a: seq<string>, p: string, b: seq<string>, disk: Disk, errorOccurred: bool)
    requires p !in disk.files
    ensures VersionLoop(a + [p] + b, disk, errorOccurred) == VersionLoop(a + b, disk, errorOccurred)
    decreases |a|
  {
    if |a| == 0 {
      assert (a + [p] + b)[1..] == a + b;
    } else {
      assert (a + [p] + b)[0] == (a + b)[0] == a[0];
      assert (a + [p] + b)[1..] == a[1..] + [p] + b;
      assert (a + b)[1..] == a[1..] + b;
      match VersionFails(a[0], disk)
      case None =>
      case Some(fails) => MissingPathSkipped(a[1..], p, b, disk, errorOccurred || fails);
    }
  }

  /** Whether some font that is a file has an empty version string. */
  predicate SomeVersionEmpty(paths: seq<string>, disk: Disk) {
    exists i :: 0 <= i < |paths| && VersionFails(paths[i], disk) == Some(true)
  }

  /** When no exception escapes, the flag ends set exactly when some font that is a
      file has an empty version string. */
  lemma {:induction false} LoopVerdict(paths: seq<string>, disk: Disk, errorOccurred: bool)
    requires VersionLoop(paths, disk, errorOccurred) != Raised
    ensures VersionLoop(paths, disk, errorOccurred) == ExitFor(errorOccurred || SomeVersionEmpty(paths, disk))
    decreases |paths|
  {
    if |paths| > 0 {
      var fails := VersionFails(paths[0], disk).value;
      assert forall i :: 1 <= i < |paths| ==> paths[1..][i - 1] == paths[i];
      LoopVerdict(paths[1..], disk, errorOccurred || fails);
      assert SomeVersionEmpty(paths, disk) <==> fails || SomeVersionEmpty(paths[1..], disk);
    }
  }

  /** When no exception escapes, the script exits with 1 exactly when some font path
      that is a file has an empty version string, and with 0 otherwise. */
  lemma VersionVerdict(arguments: seq<string>, disk: Disk)
    requires VersionRun(arguments, disk) != Raised
    ensures |arguments| > 0
    ensures VersionRun(arguments, disk) == Exited(1) <==> SomeVersionEmpty(arguments[..|arguments| - 1], disk)
    ensures VersionRun(arguments, disk) == Exited(0) <==> !SomeVersionEmpty(arguments[..|arguments| - 1], disk)
  {
    LoopVerdict(arguments[..|arguments| - 1], disk, false);
  }
}
