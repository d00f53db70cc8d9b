/** test-monospace.py: every font given on the command line must declare itself fixed
    pitch in its post table and give every glyph the expected advance width. */
module Monospace {
  import opened Runtime
  import opened FontData
  import opened Text

  /** A report written at the end of an iteration: the path the iteration was for and
      the glyphs (with their printed widths) held by `incorrect_width_dict` at that point. */
  datatype Report = Report(fontpath: string, glyphs: map<string, string>)

  /** What `main` has built up after some iterations of its loop.
      `incorrect` is the local `incorrect_width_dict`, None while it is still unbound;
      `crashed` records that an exception escaped `main`, after which nothing else runs. */
  datatype Scan = Scan(errorOccurred: bool, incorrect: Option<map<string, string>>, reports: seq<Report>, crashed: bool)

  const Start := Scan(false, None, [], false)

  /** `incorrect_width_dict` for one font: each glyph whose advance width is not the
      expected one, mapped to that width as `str` prints it. */
  function Offenders(hmtx: map<string, int>, expected: int): map<string, string> {
    map g | g in hmtx && hmtx[g] != expected :: IntToString(hmtx[g])
  }

  /** The paths the loop visits: `filepaths[0:-1]`, where `filepaths` is `sys.argv[1:]`. */
  function FontPaths(argv: seq<string>): (paths: seq<string>)
    requires |argv| >= 1
    ensures |argv| >= 2 ==> paths == argv[1..|argv| - 1]
    ensures |argv| <= 2 ==> paths == []
  {
    var filepaths := argv[1..];
    if |filepaths| == 0 then [] else filepaths[..|filepaths| - 1]
  }

  /** `int(sys.argv[-1])`, None when `int` raises (only a message is written then). */
  function ExpectedWidth(argv: seq<string>): Option<int>
    requires |argv| >= 1
  {
    ParseInt(argv[|argv| - 1])
  }

  /** The end of an iteration (lines 54-57): a non-empty `incorrect_width_dict` is
      reported against the path of this iteration; an unbound one raises. */
  function ReportStep(fontpath: string, s: Scan): Scan {
    match s.incorrect
    case None => s.(crashed := true)
    case Some(m) => if |m| > 0 then s.(reports := s.reports + [Report(fontpath, m)]) else s
  }

  /** One iteration of the loop over the font paths. */
  function MonoStep(fontpath: string, width: Option<int>, disk: Disk, s: Scan): Scan {
    if s.crashed then s
    else if fontpath !in disk.files then ReportStep(fontpath, s.(errorOccurred := true))
    else if fontpath !in disk.fonts then s.(crashed := true)
    else
      var font := disk.fonts[fontpath];
      match font.Field("post", "isFixedPitch")
      case None => s.(crashed := true)
      case Some(pitch) =>
        var flagged := s.errorOccurred || pitch == 0;
        match font.hmtx
        case None => s.(errorOccurred := flagged, crashed := true)
        case Some(hmtx) =>
          if width.None? then
            if |hmtx| > 0 then s.(errorOccurred := flagged, incorrect := Some(map[]), crashed := true)
            else ReportStep(fontpath, s.(errorOccurred := flagged, incorrect := Some(map[])))
          else
            var m := Offenders(hmtx, width.value);
            ReportStep(fontpath, s.(errorOccurred := flagged || |m| > 0, incorrect := Some(m)))
  }

  /** The loop over `paths`, from the state `s`. */
  function MonoScan(paths: seq<string>, width: Option<int>, disk: Disk, s: Scan): Scan
    decreases |paths|
  {
    if |paths| == 0 then s else MonoScan(paths[1..], width, disk, MonoStep(paths[0], width, disk, s))
  }

  /** The state `main` ends in for the command line `argv` (the script name first). */
  function MonospaceScan(argv: seq<string>, disk: Disk): Scan
    requires |argv| >= 1
  {
    MonoScan(FontPaths(argv), ExpectedWidth(argv), disk, Start)
  }

  /** How `main` ends: an escaped exception, else `sys.exit` on the error flag. */
  function MonospaceRun(argv: seq<string>, disk: Disk): Ending
    requires |argv| >= 1
  {
    var s := MonospaceScan(argv, disk);
    if s.crashed then Raised else ExitFor(s.errorOccurred)
  }

  // ---------------------------------------------------------------------------
  // main

  /** The loop over `hmtx_table` (lines 40-49): collects every glyph whose advance
      width differs from the expected one. */
  method CheckAdvanceWidths(hmtx: map<string, int>, expected: int) returns (incorrect: map<string, string>, anyIncorrect: bool)
    ensures incorrect.Keys == set g | g in hmtx && hmtx[g] != expected
    ensures forall g :: g in incorrect ==> incorrect[g] == IntToString(hmtx[g])
    ensures anyIncorrect <==> exists g :: g in hmtx && hmtx[g] != expected
    ensures anyIncorrect <==> |incorrect| > 0
  {
    incorrect, anyIncorrect := map[], false;
    var remaining := hmtx.Keys;
    while remaining != {}
      invariant remaining <= hmtx.Keys
      invariant incorrect.Keys == set g | g in hmtx && g !in remaining && hmtx[g] != expected
      invariant forall g :: g in incorrect ==> incorrect[g] == IntToString(hmtx[g])
      invariant anyIncorrect <==> incorrect != map[]
      decreases remaining
    {
      var glyph :| glyph in remaining;
      if hmtx[glyph] != expected {
        incorrect := incorrect[glyph := IntToString(hmtx[glyph])];
        anyIncorrect := true;
      }
      remaining := remaining - {glyph};
    }
    if anyIncorrect {
      var g :| g in incorrect;
      assert g in hmtx && hmtx[g] != expected;
    }
  }

  /** `main(sys.argv[1:])`: the ending and the reports written before it. */
  method MonospaceMain(argv: seq<string>, disk: Disk) returns (end: Ending, reports: seq<Report>)
    requires |argv| >= 1
    ensures end == MonospaceRun(argv, disk)
    ensures reports == MonospaceScan(argv, disk).reports
  {
    var width := ParseInt(argv[|argv| - 1]);
    var filepaths := argv[1..];
    var paths := if |filepaths| == 0 then [] else filepaths[..|filepaths| - 1];
    end, reports := CheckFonts(paths, width, disk);
  }

  /** The loop over the font paths (lines 27-57) with the width `int` read, or None when
      it raised: it ends as `MonoScan` from the start says. */
  method CheckFonts(paths: seq<string>, width: Option<int>, disk: Disk) returns (end: Ending, reports: seq<Report>)
    ensures var s := MonoScan(paths, width, disk, Start);
      end == (if s.crashed then Raised else ExitFor(s.errorOccurred)) && reports == s.reports
  {
    var scan := Start;
    var i := 0;
    while i < |paths|
      invariant 0 <= i <= |paths|
      invariant !scan.crashed
      invariant MonoScan(paths, width, disk, Start) == MonoScan(paths[i..], width, disk, scan)
    {
      assert paths[i..][1..] == paths[i + 1..];
      scan := CheckPath(paths[i], width, disk, scan);
      if scan.crashed {
        CrashedStays(paths[i + 1..], width, disk, scan);
        return Raised, scan.reports;
      }
      i := i + 1;
    }
    return ExitFor(scan.errorOccurred), scan.reports;
  }

  /** One iteration of the loop (lines 28-57), from a state no exception has left:
      it ends as `MonoStep` says, with `crashed` set when an exception escapes. */
  method CheckPath(fontpath: string, width: Option<int>, disk: Disk, s: Scan) returns (t: Scan)
    requires !s.crashed
    ensures t == MonoStep(fontpath, width, disk, s)
  {
    var errorOccurred := s.errorOccurred;
    var incorrect := s.incorrect;
    if fontpath in disk.files {
      if fontpath !in disk.fonts {
        return s.(crashed := true);
      }
      var tt := disk.fonts[fontpath];
      var postTableCorrect := tt.Field("post", "isFixedPitch");
      if postTableCorrect.None? {
        return s.(crashed := true);
      }
      if postTableCorrect.value == 0 {
        errorOccurred := true;
      }
      if tt.hmtx.None? {
        return s.(errorOccurred := errorOccurred, crashed := true);
      }
      var hmtxTable := tt.hmtx.value;
      incorrect := Some(map[]);
      if width.None? {
        if |hmtxTable| > 0 {
          return s.(errorOccurred := errorOccurred, incorrect := incorrect, crashed := true);
        }
      } else {
        var widths, anyIncorrect := CheckAdvanceWidths(hmtxTable, width.value);
        assert widths == Offenders(hmtxTable, width.value);
        incorrect := Some(widths);
        if anyIncorrect {
          errorOccurred := true;
        }
      }
      assert MonoStep(fontpath, width, disk, s) == ReportStep(fontpath, s.(errorOccurred := errorOccurred, incorrect := incorrect));
    } else {
      errorOccurred := true;
      assert MonoStep(fontpath, width, disk, s) == ReportStep(fontpath, s.(errorOccurred := errorOccurred));
    }
    if incorrect.None? {
      return s.(errorOccurred := errorOccurred, crashed := true);
    }
    t := s.(errorOccurred := errorOccurred, incorrect := incorrect);
    if |incorrect.value| > 0 {
      t := t.(reports := s.reports + [Report(fontpath, incorrect.value)]);
    }
    assert t == ReportStep(fontpath, s.(errorOccurred := errorOccurred, incorrect := incorrect));
  }

  // ---------------------------------------------------------------------------
  // Properties

  /** Once an exception has escaped, the remaining paths change nothing. */
  lemma {:induction false} CrashedStays(paths: seq<string>, width: Option<int>, disk: Disk, s: Scan)
    requires s.crashed
    ensures MonoScan(paths, width, disk, s) == s
    decreases |paths|
  {
    if |paths| > 0 {
      CrashedStays(paths[1..], width, disk, s);
    }
  }

  /** `incorrect_width_dict` holds exactly the glyphs whose width differs, and the
      width written for each reads back as that glyph's advance width. */
  lemma OffendersExact(hmtx: map<string, int>, expected: int, g: string)
    ensures g in Offenders(hmtx, expected) <==> g in hmtx && hmtx[g] != expected
    ensures g in Offenders(hmtx, expected) ==> ParseInt(Offenders(hmtx, expected)[g]) == Some(hmtx[g])
  {
    if g in Offenders(hmtx, expected) {
      ParseIntRoundTrip(hmtx[g]);
    }
  }

  /** Whether the iteration for `fontpath` sets the error flag, for a path that does
      not raise: the path is not a file, or the font is not fixed pitch, or some glyph
      has another advance width. */
  predicate PathFails(fontpath: string, width: Option<int>, disk: Disk) {
    fontpath !in disk.files ||
    (fontpath in disk.fonts &&
      (disk.fonts[fontpath].Field("post", "isFixedPitch") == Some(0) ||
       (disk.fonts[fontpath].hmtx.Some? && width.Some? && Offenders(disk.fonts[fontpath].hmtx.value, width.value) != map[])))
  }

  /** Each iteration that does not raise sets the flag exactly when its path fails. */
  lemma StepFlag(fontpath: string, width: Option<int>, disk: Disk, s: Scan)
    requires !MonoStep(fontpath, width, disk, s).crashed
    ensures !s.crashed
    ensures MonoStep(fontpath, width, disk, s).errorOccurred <==> s.errorOccurred || PathFails(fontpath, width, disk)
  {
  }

  /** Over a whole loop that does not raise, the flag ends set exactly when some path fails. */
  lemma {:induction false} ScanFlag(paths: seq<string>, width: Option<int>, disk: Disk, s: Scan)
    requires !MonoScan(paths, width, disk, s).crashed
    ensures MonoScan(paths, width, disk, s).errorOccurred <==>
      s.errorOccurred || exists i :: 0 <= i < |paths| && PathFails(paths[i], width, disk)
    decreases |paths|
  {
    if |paths| > 0 {
      var next := MonoStep(paths[0], width, disk, s);
      if next.crashed {
        CrashedStays(paths[1..], width, disk, next);
      }
      StepFlag(paths[0], width, disk, s);
      ScanFlag(paths[1..], width, disk, next);
      assert forall i :: 1 <= i < |paths| ==> paths[1..][i - 1] == paths[i];
    }
  }

  /** When no exception escapes, the script exits with 1 exactly when some font path
      fails, and with 0 otherwise. */
  lemma MonospaceVerdict(argv: seq<string>, disk: Disk)
    requires |argv| >= 1
    requires MonospaceRun(argv, disk) != Raised
    ensures MonospaceRun(argv, disk) == Exited(1) <==>
      exists i :: 0 <= i < |FontPaths(argv)| && PathFails(FontPaths(argv)[i], ExpectedWidth(argv), disk)
    ensures MonospaceRun(argv, disk) == Exited(0) <==>
      forall i :: 0 <= i < |FontPaths(argv)| ==> !PathFails(FontPaths(argv)[i], ExpectedWidth(argv), disk)
  {
    ScanFlag(FontPaths(argv), ExpectedWidth(argv), disk, Start);
  }

  /** The width is the last argument, so with no font path at all nothing is checked and
      the script exits with 0, even when that argument is not an integer. */
  lemma NoFontPathsPass(argv: seq<string>, disk: Disk)
    requires 1 <= |argv| <= 2
    ensures MonospaceRun(argv, disk) == Exited(0)
  {
  }

  /** When the first path is not a file, `incorrect_width_dict` is read before it was
      ever bound and the script dies with an exception, whatever the later paths. */
  lemma FirstPathMissingRaises(argv: seq<string>, disk: Disk)
    requires |argv| >= 3 && argv[1] !in disk.files
    ensures MonospaceRun(argv, disk) == Raised
    ensures MonospaceScan(argv, disk).reports == []
  {
    var paths := FontPaths(argv);
    var next := MonoStep(paths[0], ExpectedWidth(argv), disk, Start);
    CrashedStays(paths[1..], ExpectedWidth(argv), disk, next);
  }

  /** A later path that is not a file sets the flag and reports the offenders of the
      previous font under the missing path's name. */
  lemma MissingPathReportsPrevious(fontpath: string, width: Option<int>, disk: Disk, s: Scan, m: map<string, string>)
    requires !s.crashed && s.incorrect == Some(m) && |m| > 0 && fontpath !in disk.files
    ensures MonoStep(fontpath, width, disk, s) ==
      Scan(true, Some(m), s.reports + [Report(fontpath, m)], false)
  {
  }

  /** `incorrect_width_dict` is rebound for every font that is read: what a previous
      font left in it plays no part. */
  lemma IncorrectResetPerFont(fontpath: string, width: int, disk: Disk, s: Scan, hmtx: map<string, int>)
    requires !s.crashed && fontpath in disk.files && fontpath in disk.fonts
    requires disk.fonts[fontpath].Field("post", "isFixedPitch").Some? && disk.fonts[fontpath].hmtx == Some(hmtx)
    ensures MonoStep(fontpath, Some(width), disk, s).incorrect == Some(Offenders(hmtx, width))
    ensures Offenders(hmtx, width) != map[] ==>
      MonoStep(fontpath, Some(width), disk, s).reports == s.reports + [Report(fontpath, Offenders(hmtx, width))]
    ensures Offenders(hmtx, width) == map[] ==> MonoStep(fontpath, Some(width), disk, s).reports == s.reports
  {
  }

  /** An unparsable width is only reported: it makes a font raise only when that font
      has glyphs to compare; a font without glyphs passes as with any width. */
  lemma UnparsedWidthNeedsGlyphs(fontpath: string, disk: Disk, s: Scan, width: int)
    requires !s.crashed && fontpath in disk.files && fontpath in disk.fonts
    requires disk.fonts[fontpath].Field("post", "isFixedPitch").Some? && disk.fonts[fontpath].hmtx.Some?
    ensures MonoStep(fontpath, None, disk, s).crashed <==> |disk.fonts[fontpath].hmtx.value| > 0
    ensures |disk.fonts[fontpath].hmtx.value| == 0 ==>
      MonoStep(fontpath, None, disk, s) == MonoStep(fontpath, Some(width), disk, s)
  {
    var hmtx := disk.fonts[fontpath].hmtx.value;
    if |hmtx| == 0 {
      assert Offenders(hmtx, width) == map[];
    }
  }
}
