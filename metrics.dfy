/** test-metrics.py: per `font:expectation` pair, read the font's metrics into a
    `MetricsObject` and compare four of them with the expectation document. */
module Metrics {
  import opened Runtime
  import opened FontData
  import opened Text

  // ---------------------------------------------------------------------------
  // Reading a table field by field

  /** The fields each `define_*_table` method reads, in the order it reads them. */
  const HeadKeys: seq<string> := ["unitsPerEm"]
  const HheaKeys: seq<string> := ["ascent", "descent", "lineGap"]
  const Os2Keys: seq<string> := [
    "sCapHeight", "sxHeight", "sTypoAscender", "sTypoDescender", "sTypoLineGap",
    "usWinAscent", "usWinDescent", "yStrikeoutPosition", "yStrikeoutSize", "xAvgCharWidth",
    "ySuperscriptXSize", "ySuperscriptXOffset", "ySuperscriptYSize", "ySuperscriptYOffset",
    "ySubscriptXSize", "ySubscriptXOffset", "ySubscriptYSize", "ySubscriptYOffset"]
  const PostKeys: seq<string> := ["underlinePosition", "underlineThickness", "italicAngle"]

  /** The index of the first of `keys`, from position `i` on, that `t` lacks;
      |keys| when it lacks none of them. */
  function FirstMissing(t: Table, keys: seq<string>, i: nat): (n: nat)
    requires i <= |keys|
    ensures i <= n <= |keys|
    ensures forall j :: i <= j < n ==> keys[j] in t
    ensures n < |keys| ==> keys[n] !in t
    decreases |keys| - i
  {
    if i == |keys| || keys[i] !in t then i else FirstMissing(t, keys, i + 1)
  }

  /** The value of the field read from `keys[i]` once a `try` block has read `keys`
      from `table` one after the other: what the table holds under that key when the
      block got that far, and otherwise the value the field had before. The block stops
      at the first lookup that raises, the table's own lookup included. */
  function AfterRead(table: Option<Table>, keys: seq<string>, i: nat, previous: int): int
    requires i < |keys|
  {
    match table
    case None => previous
    case Some(t) => if i < FirstMissing(t, keys, 0) then t[keys[i]] else previous
  }

  /** The eighteen OS/2 attributes of a MetricsObject, kept together; none of them is
      ever compared with an expectation. */
  datatype Os2Metrics = Os2Metrics(
    capheight: int,
    xheight: int,
    typoAscender: int,
    typoDescender: int,
    typoLineGap: int,
    winAscent: int,
    winDescent: int,
    strikeoutPosition: int,
    strikeoutSize: int,
    averageWidth: int,
    superscriptXSize: int,
    superscriptXOffset: int,
    superscriptYSize: int,
    superscriptYOffset: int,
    subscriptXSize: int,
    subscriptXOffset: int,
    subscriptYSize: int,
    subscriptYOffset: int)

  const Os2Zero := Os2Metrics(0, 0, 0, 0, 0, 0, 0, 0, 0, 0, 0, 0, 0, 0, 0, 0, 0, 0)

  /** The OS/2 attributes after `define_os2_table` read `table`, given their values before. */
  function ReadOs2(table: Option<Table>, prev: Os2Metrics): Os2Metrics {
    Os2Metrics(
      AfterRead(table, Os2Keys, 0, prev.capheight),
      AfterRead(table, Os2Keys, 1, prev.xheight),
      AfterRead(table, Os2Keys, 2, prev.typoAscender),
      AfterRead(table, Os2Keys, 3, prev.typoDescender),
      AfterRead(table, Os2Keys, 4, prev.typoLineGap),
      AfterRead(table, Os2Keys, 5, prev.winAscent),
      AfterRead(table, Os2Keys, 6, prev.winDescent),
      AfterRead(table, Os2Keys, 7, prev.strikeoutPosition),
      AfterRead(table, Os2Keys, 8, prev.strikeoutSize),
      AfterRead(table, Os2Keys, 9, prev.averageWidth),
      AfterRead(table, Os2Keys, 10, prev.superscriptXSize),
      AfterRead(table, Os2Keys, 11, prev.superscriptXOffset),
      AfterRead(table, Os2Keys, 12, prev.superscriptYSize),
      AfterRead(table, Os2Keys, 13, prev.superscriptYOffset),
      AfterRead(table, Os2Keys, 14, prev.subscriptXSize),
      AfterRead(table, Os2Keys, 15, prev.subscriptXOffset),
      AfterRead(table, Os2Keys, 16, prev.subscriptYSize),
      AfterRead(table, Os2Keys, 17, prev.subscriptYOffset))
  }

  /** The body of `define_os2_table`'s `try` block on a copy of the attributes: each
      is assigned from its key in turn, and the first missing key ends the block. */
  method AssignOs2(t: Table, before: Os2Metrics) returns (after: Os2Metrics)
    ensures after == ReadOs2(Some(t), before)
  {
    after := before;
    if Os2Keys[0] !in t { return; }
    after := after.(capheight := t[Os2Keys[0]]);
    if Os2Keys[1] !in t { return; }
    after := after.(xheight := t[Os2Keys[1]]);
    if Os2Keys[2] !in t { return; }
    after := after.(typoAscender := t[Os2Keys[2]]);
    if Os2Keys[3] !in t { return; }
    after := after.(typoDescender := t[Os2Keys[3]]);
    if Os2Keys[4] !in t { return; }
    after := after.(typoLineGap := t[Os2Keys[4]]);
    if Os2Keys[5] !in t { return; }
    after := after.(winAscent := t[Os2Keys[5]]);
    if Os2Keys[6] !in t { return; }
    after := after.(winDescent := t[Os2Keys[6]]);
    if Os2Keys[7] !in t { return; }
    after := after.(strikeoutPosition := t[Os2Keys[7]]);
    if Os2Keys[8] !in t { return; }
    after := after.(strikeoutSize := t[Os2Keys[8]]);
    if Os2Keys[9] !in t { return; }
    after := after.(averageWidth := t[Os2Keys[9]]);
    if Os2Keys[10] !in t { return; }
    after := after.(superscriptXSize := t[Os2Keys[10]]);
    if Os2Keys[11] !in t { return; }
    after := after.(superscriptXOffset := t[Os2Keys[11]]);
    if Os2Keys[12] !in t { return; }
    after := after.(superscriptYSize := t[Os2Keys[12]]);
    if Os2Keys[13] !in t { return; }
    after := after.(superscriptYOffset := t[Os2Keys[13]]);
    if Os2Keys[14] !in t { return; }
    after := after.(subscriptXSize := t[Os2Keys[14]]);
    if Os2Keys[15] !in t { return; }
    after := after.(subscriptXOffset := t[Os2Keys[15]]);
    if Os2Keys[16] !in t { return; }
    after := after.(subscriptYSize := t[Os2Keys[16]]);
    if Os2Keys[17] !in t { return; }
    after := after.(subscriptYOffset := t[Os2Keys[17]]);
  }

  // ---------------------------------------------------------------------------
  // MetricsObject

  class MetricsObject {
    const filepath: string
    var fontObject: Option<Font>
    var unitsPerEm: int
    var ascent: int
    var descent: int
    var lineGap: int
    var os2: Os2Metrics
    var underlinePosition: int
    var underlineThickness: int
    var italicAngle: int

    /** `self.font_object[tag].__dict__`; None when it raises, which includes the
        TypeError of indexing a `font_object` that is still None. */
    function TableOf(tag: string): Option<Table> reads this {
      match fontObject
      case None => None
      case Some(f) => f.Get(tag)
    }

    /** `MetricsObject(filepath)` for a path fontTools opens as `font`: every metric
        starts at 0, then the four tables are read in turn, each as far as its keys go. */
    constructor (filepath: string, font: Font)
      ensures this.filepath == filepath && fontObject == Some(font)
      ensures unitsPerEm == AfterRead(font.Get("head"), HeadKeys, 0, 0)
      ensures ascent == AfterRead(font.Get("hhea"), HheaKeys, 0, 0)
      ensures descent == AfterRead(font.Get("hhea"), HheaKeys, 1, 0)
      ensures lineGap == AfterRead(font.Get("hhea"), HheaKeys, 2, 0)
      ensures os2 == ReadOs2(font.Get("OS/2"), Os2Zero)
      ensures underlinePosition == AfterRead(font.Get("post"), PostKeys, 0, 0)
      ensures underlineThickness == AfterRead(font.Get("post"), PostKeys, 1, 0)
      ensures italicAngle == AfterRead(font.Get("post"), PostKeys, 2, 0)
    {
      this.filepath := filepath;
      fontObject := None;
      unitsPerEm := 0;
      ascent, descent, lineGap := 0, 0, 0;
      os2 := Os2Zero;
      underlinePosition, underlineThickness, italicAngle := 0, 0, 0;
      new;
      CreateMetricsObjectFromFont(font);
    }

    /** Attach the font, then read head, hhea, OS/2 and post in that order; a table
        that cannot be read leaves its fields as they were and the later tables are
        still read. */
    method CreateMetricsObjectFromFont(font: Font)
      modifies this
      ensures fontObject == Some(font)
      ensures unitsPerEm == AfterRead(font.Get("head"), HeadKeys, 0, old(unitsPerEm))
      ensures ascent == AfterRead(font.Get("hhea"), HheaKeys, 0, old(ascent))
      ensures descent == AfterRead(font.Get("hhea"), HheaKeys, 1, old(descent))
      ensures lineGap == AfterRead(font.Get("hhea"), HheaKeys, 2, old(lineGap))
      ensures os2 == ReadOs2(font.Get("OS/2"), old(os2))
      ensures underlinePosition == AfterRead(font.Get("post"), PostKeys, 0, old(underlinePosition))
      ensures underlineThickness == AfterRead(font.Get("post"), PostKeys, 1, old(underlineThickness))
      ensures italicAngle == AfterRead(font.Get("post"), PostKeys, 2, old(italicAngle))
    {
      fontObject := Some(font);
      DefineHeadTable();
      DefineHheaTable();
      DefineOs2Table();
      DefinePostTable();
    }

    /** `define_head_table`: assigns unitsPerEm only, and only if it can be read. */
    method DefineHeadTable()
      modifies this
      ensures fontObject == old(fontObject)
      ensures unitsPerEm == AfterRead(TableOf("head"), HeadKeys, 0, old(unitsPerEm))
      ensures ascent == old(ascent) && descent == old(descent) && lineGap == old(lineGap) && os2 == old(os2)
      ensures underlinePosition == old(underlinePosition) && underlineThickness == old(underlineThickness)
      ensures italicAngle == old(italicAngle)
    {
      var table := TableOf("head");
      if table.None? { return; }
      var t := table.value;
      if "unitsPerEm" !in t { return; }
      unitsPerEm := t["unitsPerEm"];
    }

    /** `define_hhea_table`: assigns ascent, descent, lineGap in that order until a key is missing. */
    method DefineHheaTable()
      modifies this
      ensures fontObject == old(fontObject)
      ensures ascent == AfterRead(TableOf("hhea"), HheaKeys, 0, old(ascent))
      ensures descent == AfterRead(TableOf("hhea"), HheaKeys, 1, old(descent))
      ensures lineGap == AfterRead(TableOf("hhea"), HheaKeys, 2, old(lineGap))
      ensures unitsPerEm == old(unitsPerEm) && os2 == old(os2)
      ensures underlinePosition == old(underlinePosition) && underlineThickness == old(underlineThickness)
      ensures italicAngle == old(italicAngle)
    {
      var table := TableOf("hhea");
      if table.None? { return; }
      var t := table.value;
      if "ascent" !in t { return; }
      ascent := t["ascent"];
      if "descent" !in t { return; }
      descent := t["descent"];
      if "lineGap" !in t { return; }
      lineGap := t["lineGap"];
    }

    /** `define_os2_table`: assigns the eighteen OS/2 attributes in order until a key is missing. */
    method DefineOs2Table()
      modifies this
      ensures fontObject == old(fontObject)
      ensures os2 == ReadOs2(TableOf("OS/2"), old(os2))
      ensures unitsPerEm == old(unitsPerEm) && ascent == old(ascent) && descent == old(descent) && lineGap == old(lineGap)
      ensures underlinePosition == old(underlinePosition) && underlineThickness == old(underlineThickness)
      ensures italicAngle == old(italicAngle)
    {
      var table := TableOf("OS/2");
      if table.None? { return; }
      os2 := AssignOs2(table.value, os2);
    }

    /** `define_post_table`: assigns underlinePosition, underlineThickness, italicAngle in order until a key is missing. */
    method DefinePostTable()
      modifies this
      ensures fontObject == old(fontObject)
      ensures underlinePosition == AfterRead(TableOf("post"), PostKeys, 0, old(underlinePosition))
      ensures underlineThickness == AfterRead(TableOf("post"), PostKeys, 1, old(underlineThickness))
      ensures italicAngle == AfterRead(TableOf("post"), PostKeys, 2, old(italicAngle))
      ensures unitsPerEm == old(unitsPerEm) && ascent == old(ascent) && descent == old(descent)
      ensures lineGap == old(lineGap) && os2 == old(os2)
    {
      var table := TableOf("post");
      if table.None? { return; }
      var t := table.value;
      if "underlinePosition" !in t { return; }
      underlinePosition := t["underlinePosition"];
      if "underlineThickness" !in t { return; }
      underlineThickness := t["underlineThickness"];
      if "italicAngle" !in t { return; }
      italicAngle := t["italicAngle"];
    }
  }

  // ---------------------------------------------------------------------------
  // main(maps)

  /** The four metrics `main` compares, in the order it compares them. */
  const ComparedKeys: seq<string> := ["unitsPerEm", "ascent", "descent", "lineGap"]

  /** How the handling of one command-line pair ends. */
  datatype PairOutcome =
    | NoSeparator        // no ':' in the argument: sys.exit(1)
    | NotTwoParts        // more than one ':': sys.exit(1)
    | FontNotFile        // the font path is not a file: sys.exit(1)
    | ExpectationNotFile // the expectation path is not a file: sys.exit(1)
    | Caught             // an exception inside the try block was reported; the loop goes on
    | Mismatch(key: string) // a compared metric differs: sys.exit(1)
    | Matched            // all four metrics agree
  {
    /** Whether the pair ends the run with `sys.exit(1)`. */
    predicate Fatal() {
      !(Caught? || Matched?)
    }
  }

  /** The four compared attributes of a fresh `MetricsObject` for `font`. */
  function ObservedMetrics(font: Font): (m: seq<int>)
    ensures |m| == |ComparedKeys|
  {
    [AfterRead(font.Get("head"), HeadKeys, 0, 0),
     AfterRead(font.Get("hhea"), HheaKeys, 0, 0),
     AfterRead(font.Get("hhea"), HheaKeys, 1, 0),
     AfterRead(font.Get("hhea"), HheaKeys, 2, 0)]
  }

  /** The comparisons from the `k`-th on: a key the expectation lacks raises inside
      the try block, a differing value exits. */
  function CompareFrom(observed: seq<int>, expected: Table, k: nat): PairOutcome
    requires |observed| == |ComparedKeys| && k <= |ComparedKeys|
    decreases |ComparedKeys| - k
  {
    if k == |ComparedKeys| then Matched
    else if ComparedKeys[k] !in expected then Caught
    else if observed[k] != expected[ComparedKeys[k]] then Mismatch(ComparedKeys[k])
    else CompareFrom(observed, expected, k + 1)
  }

  /** One iteration of `main`'s loop on the argument `pair`. */
  function MetricsPair(pair: string, disk: Disk): PairOutcome {
    if ':' !in pair then NoSeparator
    else
      var parts := Split(pair, ':');
      if |parts| != 2 then NotTwoParts
      else if parts[0] !in disk.files then FontNotFile
      else if parts[1] !in disk.files then ExpectationNotFile
      else if parts[1] !in disk.documents || parts[0] !in disk.fonts then Caught
      else CompareFrom(ObservedMetrics(disk.fonts[parts[0]]), disk.documents[parts[1]], 0)
  }

  /** `main(maps)`: the pairs are handled in order and the first fatal one exits with 1;
      when none is fatal `main` returns. */
  function MetricsRun(maps: seq<string>, disk: Disk): Ending
    decreases |maps|
  {
    if |maps| == 0 then Returned
    else if MetricsPair(maps[0], disk).Fatal() then Exited(1)
    else MetricsRun(maps[1..], disk)
  }

  /** The body of `main`'s loop for one pair. */
  method TestPair(pair: string, disk: Disk) returns (outcome: PairOutcome)
    ensures outcome == MetricsPair(pair, disk)
  {
    if ':' !in pair { return NoSeparator; }
    var mapList := Split(pair, ':');
    if |mapList| != 2 { return NotTwoParts; }
    var fontpath, expectedpath := mapList[0], mapList[1];
    if fontpath !in disk.files { return FontNotFile; }
    if expectedpath !in disk.files { return ExpectationNotFile; }
    if expectedpath !in disk.documents { return Caught; }
    var expectedMetrics := disk.documents[expectedpath];
    if fontpath !in disk.fonts { return Caught; }
    var observed := new MetricsObject(fontpath, disk.fonts[fontpath]);
    ghost var m := ObservedMetrics(disk.fonts[fontpath]);
    assert m == [observed.unitsPerEm, observed.ascent, observed.descent, observed.lineGap];
    if "unitsPerEm" !in expectedMetrics { return Caught; }
    if observed.unitsPerEm != expectedMetrics["unitsPerEm"] { return Mismatch("unitsPerEm"); }
    if "ascent" !in expectedMetrics { return Caught; }
    if observed.ascent != expectedMetrics["ascent"] { return Mismatch("ascent"); }
    if "descent" !in expectedMetrics { return Caught; }
    if observed.descent != expectedMetrics["descent"] { return Mismatch("descent"); }
    if "lineGap" !in expectedMetrics { return Caught; }
    if observed.lineGap != expectedMetrics["lineGap"] { return Mismatch("lineGap"); }
    return Matched;
  }

  /** `main(maps)`, ending as `MetricsRun` says. */
  method MetricsMain(maps: seq<string>, disk: Disk) returns (end: Ending)
    ensures end == MetricsRun(maps, disk)
  {
    var i := 0;
    while i < |maps|
      invariant 0 <= i <= |maps|
      invariant MetricsRun(maps[i..], disk) == MetricsRun(maps, disk)
    {
      assert maps[i..][1..] == maps[i + 1..];
      var outcome := TestPair(maps[i], disk);
      if outcome.Fatal() {
        return Exited(1);
      }
      i := i + 1;
    }
    return Returned;
  }

  // ---------------------------------------------------------------------------
  // Properties

  /** A `try` block that reads a table key by key stops at the first missing key: the
      fields up to it take the table's values, that field and every later one keep
      theirs, even when later keys are present. */
  lemma ReadStopsAtFirstMissing(t: Table, keys: seq<string>, i: nat, previous: int)
    requires i < |keys|
    ensures (forall j :: 0 <= j <= i ==> keys[j] in t) ==> AfterRead(Some(t), keys, i, previous) == t[keys[i]]
    ensures (exists j :: 0 <= j <= i && keys[j] !in t) ==> AfterRead(Some(t), keys, i, previous) == previous
  {
  }

  /** A font without an hhea table is observed with ascent, descent and lineGap at
      their initial 0, and without a head table with unitsPerEm at 0. */
  lemma MissingTablesReadAsZero(font: Font)
    ensures "head" !in font.tables ==> ObservedMetrics(font)[0] == 0
    ensures "hhea" !in font.tables ==> ObservedMetrics(font)[1..] == [0, 0, 0]
  {
  }

  /** `main` gets past its two syntax checks exactly when the pair holds one ':'. */
  lemma PairSyntax(pair: string, disk: Disk)
    ensures MetricsPair(pair, disk) == NoSeparator <==> multiset(pair)[':'] == 0
    ensures MetricsPair(pair, disk) == NotTwoParts <==> multiset(pair)[':'] >= 2
  {
    SplitCount(pair, ':');
  }

  /** A pair written as `font:expectation` from two colon-free paths is taken apart into
      those two paths, which are then checked font first. */
  lemma PairOfPaths(fontpath: string, expectedpath: string, disk: Disk)
    requires ':' !in fontpath && ':' !in expectedpath
    ensures var o := MetricsPair(fontpath + ":" + expectedpath, disk);
      && (fontpath !in disk.files ==> o == FontNotFile)
      && (fontpath in disk.files && expectedpath !in disk.files ==> o == ExpectationNotFile)
      && (fontpath in disk.files && expectedpath in disk.files ==>
            if fontpath in disk.fonts && expectedpath in disk.documents
            then o == CompareFrom(ObservedMetrics(disk.fonts[fontpath]), disk.documents[expectedpath], 0)
            else o == Caught)
  {
    SplitJoin([fontpath, expectedpath], ':');
    assert Join([fontpath, expectedpath], ':') == fontpath + ":" + expectedpath;
  }

  /** A pair passes exactly when the expectation holds all four compared keys and
      each equals the observed metric. */
  lemma CompareVerdict(observed: seq<int>, expected: Table)
    requires |observed| == |ComparedKeys|
    ensures CompareFrom(observed, expected, 0) == Matched <==>
      forall i :: 0 <= i < |ComparedKeys| ==> ComparedKeys[i] in expected && observed[i] == expected[ComparedKeys[i]]
  {
  }

  /** The comparisons run in the order unitsPerEm, ascent, descent, lineGap and the
      first one that fails decides: a missing key is caught, a differing value exits
      naming that key. */
  lemma CompareFirstFailure(observed: seq<int>, expected: Table, j: nat)
    requires |observed| == |ComparedKeys| && j < |ComparedKeys|
    requires forall i :: 0 <= i < j ==> ComparedKeys[i] in expected && observed[i] == expected[ComparedKeys[i]]
    ensures ComparedKeys[j] !in expected ==> CompareFrom(observed, expected, 0) == Caught
    ensures ComparedKeys[j] in expected && observed[j] != expected[ComparedKeys[j]] ==>
      CompareFrom(observed, expected, 0) == Mismatch(ComparedKeys[j])
  {
  }

  /** Only the four compared keys of an expectation document matter. */
  lemma OnlyComparedKeysMatter(observed: seq<int>, e1: Table, e2: Table)
    requires |observed| == |ComparedKeys|
    requires forall i :: 0 <= i < |ComparedKeys| ==>
      (ComparedKeys[i] in e1 <==> ComparedKeys[i] in e2) &&
      (ComparedKeys[i] in e1 ==> e1[ComparedKeys[i]] == e2[ComparedKeys[i]])
    ensures CompareFrom(observed, e1, 0) == CompareFrom(observed, e2, 0)
  {
  }

  /** `main` returns (status 0) exactly when no pair is fatal; otherwise it exits with 1. */
  lemma {:induction false} MetricsVerdict(maps: seq<string>, disk: Disk)
    ensures MetricsRun(maps, disk) == Returned <==> forall i :: 0 <= i < |maps| ==> !MetricsPair(maps[i], disk).Fatal()
    ensures MetricsRun(maps, disk) != Returned ==> MetricsRun(maps, disk) == Exited(1)
    ensures MetricsRun(maps, disk).Status() == 0 <==> MetricsRun(maps, disk) == Returned
    decreases |maps|
  {
    if |maps| > 0 {
      MetricsVerdict(maps[1..], disk);
      assert forall i :: 1 <= i < |maps| ==> maps[1..][i - 1] == maps[i];
    }
  }

  /** The pairs after the first fatal one are never looked at; caught pairs do not
      stop the run. */
  lemma {:induction false} MetricsRunAppend(maps: seq<string>, rest: seq<string>, disk: Disk)
    ensures MetricsRun(maps + rest, disk) ==
      if MetricsRun(maps, disk) == Returned then MetricsRun(rest, disk) else MetricsRun(maps, disk)
    decreases |maps|
  {
    if |maps| > 0 {
      assert (maps + rest)[0] == maps[0] && (maps + rest)[1..] == maps[1..] + rest;
      MetricsRunAppend(maps[1..], rest, disk);
    } else {
      assert maps + rest == rest;
    }
  }
}
