# font-tests: the decision logic of four font check scripts

This project models four command-line checks from the font-tests repository.
- `test-metrics.py` takes `font:expectation` pairs. For each pair it reads a font's metrics into a `MetricsObject` and compares four of them with a YAML expectation document.
- `test-monospace.py` requires fixed pitch and one advance width for every glyph.
- `test-glyphnumber.py` requires an expected glyph count.
- `test-version.py` requires a non-empty version string in the name table.

Each script is a `main` that loops over its arguments. It sets an error flag or exits at once, and finishes with an exit status. The model keeps that form:
- Each `main` is a Dafny method with a `while` loop (test-monospace.py's loop is in `CheckFonts`, which `MonospaceMain` calls), proved equal to a recursive specification function of the arguments and the disk (`MetricsRun`, `MonospaceRun`, `GlyphNumberRun`, `VersionRun`).
- The properties the scripts promise are lemmas about those functions.
- The `MetricsObject` is a class whose `define_*_table` methods update its fields in place.

How a run ends is an `Ending`:
- `Returned` is `main` falling off its end, status 0.
- `Exited(code)` is `sys.exit(code)`. It is a `SystemExit`, which no `except Exception` handler in the scripts catches.
- `Raised` is an exception nobody catches, status 1.

The file system is a `Disk`:
- the set of paths `os.path.isfile` accepts;
- the paths fontTools opens, each with its decoded `Font`;
- the expectation documents that load as a mapping from field name to integer.

A `Font` holds:
- its scalar tables as field maps;
- the advance widths of `hmtx`, when it has that table;
- the records of `name`, when it has that table.

A missing tag or field stands for the exception fontTools or Python raises.

Behaviour the model follows from the code:
- test-version.py never decodes, prefix-checks or compares the version string. It picks the `string` of the last name record with name ID 5, whatever its platform, and fails a font only when that string is empty. The expected version is read and ignored.
- test-version.py passes over a path that is not a file without setting the error flag. test-glyphnumber.py exits with 1 at such a path. test-monospace.py sets the flag and reports.
- test-monospace.py reads the width from `sys.argv[-1]` and reports `incorrect_width_dict` after every iteration, including one whose path was not a file. This has three consequences:
  - If the first path is not a file, the dictionary is unbound and the script dies with an exception.
  - A later missing path reports the previous font's offenders under its own name.
  - An unparsable width is only reported. It makes the script die only when a font has glyphs to compare.
- In test-metrics.py each `define_*_table` method assigns its fields one by one inside a `try` block. The first missing key leaves that field and all later ones at their previous value, which is 0 from `__init__`.
  - A missing key in the expectation document raises inside `main`'s `try` block. It is reported and the loop moves to the next pair.
  - A differing value exits with 1.

## Model

| member | source | states |
|---|---|---|
| `Runtime.ExitFor` | test-monospace.py:59-63 | the final `sys.exit` gives status 1 exactly when the error flag is set and 0 exactly when it is not |
| `Text.Split` | test-metrics.py:115 | `str.split` with one separator yields at least one piece and no piece contains the separator |
| `Text.JoinSplit` | test-metrics.py:115 | joining the pieces of a split gives back the argument |
| `Text.SplitCount` | test-metrics.py:114-116 | a split has one more piece than the argument has separators |
| `Text.SplitJoin` | test-metrics.py:115-118 | splitting undoes joining separator-free pieces |
| `Text.NatToString` | test-monospace.py:46 | `str` of a non-negative integer is a non-empty run of decimal digits |
| `Text.ParseIntRoundTrip` | test-monospace.py:22 | `int(str(n)) == n` for every integer, without the digit limit of Python 3.11+ |
| `Text.ParseIntIgnoresSurroundingSpace` | test-glyphnumber.py:22 | `int` ignores whitespace (`\t\n\v\f\r`, space, and non-ASCII `str.isspace` characters, not U+001C-U+001F) before and after the count, so `" 512"` reads as 512 |
| `Text.ParseIntUnderscore` | test-monospace.py:22 | one underscore between digits is skipped (`1_000` reads as 1000); a doubled underscore or one at either end is refused |
| `Metrics.FirstMissing` | test-metrics.py:65-72 | the index where a key-by-key `try` block stops: every earlier key is present and the key at it is missing |
| `Metrics.ReadStopsAtFirstMissing` | test-metrics.py:65-72 | a field takes the table's value iff it and every key before it are present; otherwise it keeps its previous value, even when its own key is present |
| `Metrics.MissingTablesReadAsZero` | test-metrics.py:20-26 | without a head table unitsPerEm is observed as 0; without an hhea table ascent, descent and lineGap are observed as 0 |
| `Metrics.MetricsObject.constructor` | test-metrics.py:20-50 | every metric starts at 0 and then holds what its table's read leaves in it; the font is attached |
| `Metrics.MetricsObject.CreateMetricsObjectFromFont` | test-metrics.py:52-57 | attaches the font and reads head, hhea, OS/2 and post, each table affecting only its own fields |
| `Metrics.MetricsObject.DefineHeadTable` | test-metrics.py:59-63 | unitsPerEm becomes the head value if it can be read, else keeps its value; nothing else changes |
| `Metrics.MetricsObject.DefineHheaTable` | test-metrics.py:65-72 | ascent, descent, lineGap are assigned in order up to the first missing key; nothing else changes |
| `Metrics.MetricsObject.DefineOs2Table` | test-metrics.py:74-96 | the eighteen OS/2 attributes are assigned in order up to the first missing key; nothing else changes |
| `Metrics.AssignOs2` | test-metrics.py:75-94 | the assignments of the OS/2 `try` block, stopping at the first missing key, leave the attributes as `ReadOs2` describes |
| `Metrics.MetricsObject.DefinePostTable` | test-metrics.py:98-105 | underlinePosition, underlineThickness, italicAngle are assigned in order up to the first missing key; nothing else changes |
| `Metrics.TestPair` | test-metrics.py:113-170 | one pair's handling ends as `MetricsPair` says: syntax, font path, expectation path, caught exception, first mismatch or match |
| `Metrics.MetricsMain` | test-metrics.py:108-170 | `main(maps)` ends as `MetricsRun`: the first fatal pair exits with 1, otherwise it returns |
| `Metrics.PairSyntax` | test-metrics.py:114-116 | a pair fails the ':' test iff it has no colon, and fails the two-part test iff it has two or more |
| `Metrics.PairOfPaths` | test-metrics.py:115-127 | `font:expectation` from colon-free paths is split into those paths; the font path is checked before the expectation path, and an unreadable font or document is caught |
| `Metrics.CompareVerdict` | test-metrics.py:132-154 | a pair matches iff all of unitsPerEm, ascent, descent, lineGap are in the expectation and equal to the observed values |
| `Metrics.CompareFirstFailure` | test-metrics.py:132-158 | the comparisons run in source order and the first failing one decides: a missing key is caught, a differing value exits naming that key |
| `Metrics.OnlyComparedKeysMatter` | test-metrics.py:132-154 | expectation documents that agree on the four compared keys give the same outcome |
| `Metrics.MetricsVerdict` | test-metrics.py:113-175 | `main` returns (status 0) iff no pair is fatal; otherwise it exits with 1 |
| `Metrics.MetricsRunAppend` | test-metrics.py:113-170 | arguments after the first fatal pair are never looked at; caught and matching pairs let the run go on |
| `Monospace.FontPaths` | test-monospace.py:26 | the fonts are the arguments between the script name and the last argument, none when there are fewer than two arguments |
| `Monospace.CheckAdvanceWidths` | test-monospace.py:40-49 | the offender map has exactly the glyphs whose advance width differs, each with its width as `str` prints it; the flag is raised iff there is one |
| `Monospace.MonospaceMain` | test-monospace.py:15-63 | `main` ends as `MonospaceRun` and writes the reports `MonospaceScan` lists |
| `Monospace.CheckFonts` | test-monospace.py:27-57 | the loop over the font paths, given the width `int` read or its failure, ends and reports as `MonoScan` from the initial state says |
| `Monospace.CheckPath` | test-monospace.py:28-57 | one iteration from a state no exception has left ends as `MonoStep` says: a missing path sets the flag, an unreadable font raises, an unbound width with glyphs raises, and a non-empty offender map is reported under this path |
| `Monospace.CrashedStays` | test-monospace.py:27-57 | once an exception has escaped, no later path changes anything |
| `Monospace.OffendersExact` | test-monospace.py:40-49 | a glyph is reported iff its advance width differs, and the reported width reads back as that width |
| `Monospace.StepFlag` | test-monospace.py:28-52 | an iteration that does not raise sets the flag iff its path is missing, not fixed pitch, or has an offending glyph |
| `Monospace.ScanFlag` | test-monospace.py:27-57 | over a loop that does not raise, the flag ends set iff some path fails |
| `Monospace.MonospaceVerdict` | test-monospace.py:27-63 | without an escaped exception, the exit status is 1 iff some font path fails and 0 iff none does |
| `Monospace.NoFontPathsPass` | test-monospace.py:21-27 | with no font path the script exits with 0, even when the width argument is not an integer |
| `Monospace.FirstPathMissingRaises` | test-monospace.py:50-54 | a first path that is not a file makes the script die on the unbound offender map, before any report |
| `Monospace.MissingPathReportsPrevious` | test-monospace.py:50-57 | a later path that is not a file sets the flag and reports the previous font's offenders under its own name |
| `Monospace.IncorrectResetPerFont` | test-monospace.py:39-57 | each font that is read gets its own offender map, reported iff it is not empty |
| `Monospace.UnparsedWidthNeedsGlyphs` | test-monospace.py:21-42 | with an unparsable width a font makes the script raise iff it has glyphs; a font without glyphs fares as with any width |
| `GlyphNumber.GlyphNumberMain` | test-glyphnumber.py:15-49 | `main(arguments)` ends as `GlyphNumberRun` |
| `GlyphNumber.BadCountExits` | test-glyphnumber.py:21-25 | an absent or non-integer count exits with 1 |
| `GlyphNumber.LoopVerdict` | test-glyphnumber.py:29-49 | with every font readable, the flag ends set iff some glyph count differs; a mismatch does not stop the loop |
| `GlyphNumber.GlyphNumberVerdict` | test-glyphnumber.py:15-49 | with a valid count and readable fonts, the status is 1 iff some font's glyph count is not the expected one and 0 iff all are |
| `GlyphNumber.MissingPathAborts` | test-glyphnumber.py:41-43 | a path that is not a file exits with 1 whatever the earlier glyph counts were and whatever follows |
| `Version.SelectVersionString` | test-version.py:29-33 | the inner loop leaves the `VersionString` of the name records |
| `Version.VersionMain` | test-version.py:15-45 | `main(arguments)` ends as `VersionRun`: an empty argument list raises |
| `Version.LastVersionRecordWins` | test-version.py:31-33 | the string is that of the last record with name ID 5, or empty when there is none |
| `Version.PlatformIgnored` | test-version.py:31-33 | records that differ only in platform give the same version string |
| `Version.ExpectedVersionIgnored` | test-version.py:20 | the outcome does not depend on the expected version |
| `Version.MissingPathSkipped` | test-version.py:24-25 | removing a path that is not a file changes nothing |
| `Version.LoopVerdict` | test-version.py:24-45 | without an escaped exception, the flag ends set iff some font path that is a file has an empty version string |
| `Version.VersionVerdict` | test-version.py:15-45 | without an escaped exception, the status is 1 iff some font that is a file has an empty version string and 0 otherwise |

## Left out

- Output: the report lines, progress marks and error messages on stdout and stderr are not modelled. The one exception is test-monospace.py's per-font offender report, which is modelled as a `Report`.
- Order of output: offender reports keep the glyphs and their printed widths, not the order in which `for x in incorrect_width_dict.keys()` prints them.
- fontTools: opening and decoding a font is the `Font` value on the `Disk`. A file that fontTools cannot open is a path that is a file but has no `Font`. Lazy table decoding and decode errors other than a missing table or field are not modelled.
- Table field values: each is an integer. The `italicAngle` that fontTools decodes as a float is carried as an integer, and nothing compares it.
- `hmtx` entries: each is reduced to its advance width. The left side bearing is never read.
- YAML: an expectation document is a mapping from field name to integer. A document that fails to load, or does not load as a mapping, is absent from `documents`; both raise inside `main`'s `try` block, and the model treats them alike. Values other than integers are not represented. Under Python's `==` a float such as `1000.0` or a boolean `true` can equal an observed integer, while a string such as `"1000"` or `null` never does and makes the script exit with 1.
- `Text.ParseInt`: follows Python 3's `int` (3.6 or later, for underscore grouping). Decimal digits outside ASCII (other Unicode digit characters), which Python's `int` accepts, are refused. The 4300-digit limit that Python 3.11 and later put on `int` and `str` is not modelled, so `ParseIntRoundTrip` holds for every integer.
- The file system: a snapshot that does not change during a run. The unclosed expectation file handle and the unused `hashlib` import have no effect on the outcome.
- The `__main__` blocks: the argument lists are parameters. `test-monospace.py` takes the whole `sys.argv`, script name first, because it reads the width from `sys.argv[-1]`.
- `Metrics.MetricsObject.constructor`: it takes the opened `Font` rather than a path. A path fontTools cannot open never reaches the constructor; `TestPair` sends it to the caught-exception outcome.
- The eighteen OS/2 attributes are fields of one `Os2Metrics` record in the `os2` field of `MetricsObject`, not eighteen separate fields. `define_os2_table` updates that record.
