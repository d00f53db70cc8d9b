/** test-glyphnumber.py: every font given on the command line must have the expected
    number of glyphs in its maxp table. */
module GlyphNumber {
  import opened Runtime
  import opened FontData
  import opened Text

  /** `int(arguments[-1])`; None when the list is empty (IndexError) or `int` raises,
      both of which the `try` block turns into `sys.exit(1)`. */
  function ExpectedCount(arguments: seq<string>): Option<int> {
    if |arguments| == 0 then None else ParseInt(arguments[|arguments| - 1])
  }

  /** The loop over the font paths, with the error flag so far. */
  function GlyphLoop(paths: seq<string>, expected: int, disk: Disk, errorOccurred: bool): Ending
    decreases |paths|
  {
    if |paths| == 0 then ExitFor(errorOccurred)
    else if paths[0] !in disk.files then Exited(1)
    else if paths[0] !in disk.fonts then Raised
    else match disk.fonts[paths[0]].Field("maxp", "numGlyphs")
      case None => Raised
      case Some(observed) => GlyphLoop(paths[1..], expected, disk, errorOccurred || observed != expected)
  }

  /** `main(arguments)`: the count is the last argument, the fonts all the others. */
  function GlyphNumberRun(arguments: seq<string>, disk: Disk): Ending {
    match ExpectedCount(arguments)
    case None => Exited(1)
    case Some(expected) => GlyphLoop(arguments[..|arguments| - 1], expected, disk, false)
  }

  /** `main(arguments)`, ending as `GlyphNumberRun` says. */
  method GlyphNumberMain(arguments: seq<string>, disk: Disk) returns (end: Ending)
    ensures end == GlyphNumberRun(arguments, disk)
  {
    if |arguments| == 0 {
      return Exited(1);
    }
    var parsed := ParseInt(arguments[|arguments| - 1]);
    if parsed.None? {
      return Exited(1);
    }
    var expectedGlyphNo := parsed.value;
    var filepaths := arguments[..|arguments| - 1];
    var errorOccurred := false;
    var i := 0;
    while i < |filepaths|
      invariant 0 <= i <= |filepaths|
      invariant GlyphNumberRun(arguments, disk) == GlyphLoop(filepaths[i..], expectedGlyphNo, disk, errorOccurred)
    {
      assert filepaths[i..][1..] == filepaths[i + 1..];
      var fontpath := filepaths[i];
      if fontpath !in disk.files {
        return Exited(1);
      }
      if fontpath !in disk.fonts {
        return Raised;
      }
      var observedGlyphNo := disk.fonts[fontpath].Field("maxp", "numGlyphs");
      if observedGlyphNo.None? {
        return Raised;
      }
      if observedGlyphNo.value != expectedGlyphNo {
        errorOccurred := true;
      }
      i := i + 1;
    }
    return ExitFor(errorOccurred);
  }

  // ---------------------------------------------------------------------------
  // Properties

  /** A path that is a file fontTools opens, with a glyph count in its maxp table. */
  predicate Readable(fontpath: string, disk: Disk) {
    fontpath in disk.files && fontpath in disk.fonts && disk.fonts[fontpath].Field("maxp", "numGlyphs").Some?
  }

  /** Whether the font at `fontpath` has a glyph count other than `expected`. */
  predicate CountDiffers(fontpath: string, expected: int, disk: Disk) {
    fontpath in disk.fonts && disk.fonts[fontpath].Field("maxp", "numGlyphs") != Some(expected)
  }

  /** With a missing, empty or non-integer count the script exits with 1 before it
      looks at any font. */
  lemma BadCountExits(arguments: seq<string>, disk: Disk)
    requires |arguments| == 0 || ParseInt(arguments[|arguments| - 1]).None?
    ensures GlyphNumberRun(arguments, disk) == Exited(1)
  {
  }

  /** When every font is readable, the flag ends set exactly when some font's glyph
      count is not the expected one; a mismatch does not stop the loop. */
  lemma {:induction false} LoopVerdict(paths: seq<string>, expected: int, disk: Disk, errorOccurred: bool)
    requires forall i :: 0 <= i < |paths| ==> Readable(paths[i], disk)
    ensures GlyphLoop(paths, expected, disk, errorOccurred) == ExitFor(errorOccurred ||
      exists i :: 0 <= i < |paths| && CountDiffers(paths[i], expected, disk))
    decreases |paths|
  {
    if |paths| > 0 {
      assert Readable(paths[0], disk);
      var observed := disk.fonts[paths[0]].Field("maxp", "numGlyphs").value;
      assert forall i :: 1 <= i < |paths| ==> paths[1..][i - 1] == paths[i];
      LoopVerdict(paths[1..], expected, disk, errorOccurred || observed != expected);
    }
  }

  /** When the count parses and every font is readable, the script exits with 1 exactly
      when some font has another number of glyphs, and with 0 otherwise. */
  lemma GlyphNumberVerdict(arguments: seq<string>, disk: Disk, expected: int)
    requires |arguments| > 0 && ParseInt(arguments[|arguments| - 1]) == Some(expected)
    requires forall i :: 0 <= i < |arguments| - 1 ==> Readable(arguments[i], disk)
    ensures GlyphNumberRun(arguments, disk) == Exited(1) <==>
      exists i :: 0 <= i < |arguments| - 1 && CountDiffers(arguments[i], expected, disk)
    ensures GlyphNumberRun(arguments, disk) == Exited(0) <==>
      forall i :: 0 <= i < |arguments| - 1 ==> !CountDiffers(arguments[i], expected, disk)
  {
    var paths := arguments[..|arguments| - 1];
    assert forall i :: 0 <= i < |paths| ==> paths[i] == arguments[i];
    LoopVerdict(paths, expected, disk, false);
  }

  /** A path that is not a file ends the run with 1 at once, whatever the earlier counts
      were and whatever follows. */
  lemma {:induction false} MissingPathAborts(paths: seq<string>, expected: int, disk: Disk, errorOccurred: bool, k: nat)
    requires k < |paths| && paths[k] !in disk.files
    requires forall i :: 0 <= i < k ==> Readable(paths[i], disk)
    ensures GlyphLoop(paths, expected, disk, errorOccurred) == Exited(1)
    decreases k
  {
    if k > 0 {
      assert Readable(paths[0], disk);
      var observed := disk.fonts[paths[0]].Field("maxp", "numGlyphs").value;
      assert forall i :: 0 <= i < k - 1 ==> paths[1..][i] == paths[i + 1];
      MissingPathAborts(paths[1..], expected, disk, errorOccurred || observed != expected, k - 1);
    }
  }
}
