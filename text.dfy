/** The two Python built-ins the scripts lean on for their command lines:
    `str.split` with a one-character separator, and `int` applied to a string. */
module Text {
  import opened Runtime

  // ---------------------------------------------------------------------------
  // str.split(sep)

  /** `s.split(sep)` for a one-character separator: the maximal pieces of `s`
      between separators, empty pieces included. */
  function Split(s: string, sep: char): (parts: seq<string>)
    ensures |parts| >= 1
    ensures forall i :: 0 <= i < |parts| ==> sep !in parts[i]
    decreases |s|
  {
    if |s| == 0 then [""]
    else
      var rest := Split(s[1..], sep);
      if s[0] == sep then [""] + rest
      else [[s[0]] + rest[0]] + rest[1..]
  }

  /** `sep.join(parts)`. */
  function Join(parts: seq<string>, sep: char): string
    requires |parts| >= 1
  {
    if |parts| == 1 then parts[0] else parts[0] + [sep] + Join(parts[1..], sep)
  }

  /** Splitting loses nothing: joining the pieces gives back the argument. */
  lemma {:induction false} JoinSplit(s: string, sep: char)
    ensures Join(Split(s, sep), sep) == s
    decreases |s|
  {
    if |s| > 0 {
      JoinSplit(s[1..], sep);
      var rest := Split(s[1..], sep);
      if s[0] != sep {
        if |rest| == 1 {
          assert Join(Split(s, sep), sep) == [s[0]] + rest[0];
        } else {
          assert Split(s, sep)[1..] == rest[1..];
          assert Join(Split(s, sep), sep) == [s[0]] + (rest[0] + [sep] + Join(rest[1..], sep));
        }
      }
    }
  }

  /** There is one more piece than there are separators. */
  lemma {:induction false} SplitCount(s: string, sep: char)
    ensures |Split(s, sep)| == multiset(s)[sep] + 1
    decreases |s|
  {
    if |s| > 0 {
      SplitCount(s[1..], sep);
      assert s == [s[0]] + s[1..];
      assert multiset(s) == multiset([s[0]]) + multiset(s[1..]);
    }
  }

  /** Splitting a separator-free piece followed by a separator yields that piece first. */
  lemma {:induction false} SplitAtFirst(x: string, sep: char, rest: string)
    requires sep !in x
    ensures Split(x + [sep] + rest, sep) == [x] + Split(rest, sep)
    decreases |x|
  {
    var s := x + [sep] + rest;
    if |x| == 0 {
      assert s[0] == sep && s[1..] == rest;
    } else {
      assert s[0] == x[0] && s[1..] == x[1..] + [sep] + rest;
      SplitAtFirst(x[1..], sep, rest);
      assert x[0] != sep && x == [x[0]] + x[1..];
    }
  }

  /** Splitting undoes joining pieces that contain no separator. */
  lemma {:induction false} SplitJoin(parts: seq<string>, sep: char)
    requires |parts| >= 1
    requires forall i :: 0 <= i < |parts| ==> sep !in parts[i]
    ensures Split(Join(parts, sep), sep) == parts
    decreases |parts|
  {
    if |parts| == 1 {
      SplitNoSeparator(parts[0], sep);
    } else {
      SplitJoin(parts[1..], sep);
      SplitAtFirst(parts[0], sep, Join(parts[1..], sep));
    }
  }

  /** A string without the separator is one piece. */
  lemma {:induction false} SplitNoSeparator(s: string, sep: char)
    requires sep !in s
    ensures Split(s, sep) == [s]
    decreases |s|
  {
    if |s| > 0 {
      SplitNoSeparator(s[1..], sep);
      assert s[0] != sep && s == [s[0]] + s[1..];
    }
  }

  // ---------------------------------------------------------------------------
  // int(s)

  predicate IsDigit(c: char) {
    '0' <= c <= '9'
  }

  /** The whitespace `int` strips from both ends: `\t\n\v\f\r`, space, and the
      non-ASCII characters `str.isspace` accepts. The ASCII separators U+001C-U+001F,
      which `str.isspace` also accepts, are not stripped by `int`. */
  predicate IsSpace(c: char) {
    var n := c as int;
    (9 <= n <= 13) || n == 32 || n == 0x85 || n == 0xA0 || n == 0x1680 ||
    (0x2000 <= n <= 0x200A) || n == 0x2028 || n == 0x2029 || n == 0x202F || n == 0x205F || n == 0x3000
  }

  /** `s` without its leading whitespace. */
  function TrimStart(s: string): (t: string)
    ensures |t| <= |s| && t == s[|s| - |t|..]
    ensures |t| > 0 ==> !IsSpace(t[0])
    decreases |s|
  {
    if |s| > 0 && IsSpace(s[0]) then TrimStart(s[1..]) else s
  }

  /** `s` without its trailing whitespace. */
  function TrimEnd(s: string): (t: string)
    ensures |t| <= |s| && t == s[..|t|]
    ensures |t| > 0 ==> !IsSpace(t[|t| - 1])
    decreases |s|
  {
    if |s| > 0 && IsSpace(s[|s| - 1]) then TrimEnd(s[..|s| - 1]) else s
  }

  /** `s.strip()`: what `int` looks at. */
  function Strip(s: string): string {
    TrimEnd(TrimStart(s))
  }

  /** A non-empty run of decimal digits. */
  predicate IsNumeral(s: string) {
    |s| > 0 && forall i :: 0 <= i < |s| ==> IsDigit(s[i])
  }

  /** Decimal digits that may be grouped by single underscores, each between two digits. */
  predicate IsGroupedNumeral(s: string) {
    && |s| > 0 && IsDigit(s[0]) && IsDigit(s[|s| - 1])
    && (forall i :: 0 <= i < |s| ==> IsDigit(s[i]) || s[i] == '_')
    && (forall i :: 0 <= i < |s| - 1 ==> s[i] == '_' ==> s[i + 1] != '_')
  }

  /** `s` without its underscores. */
  function DropUnderscores(s: string): (r: string)
    ensures |r| <= |s|
    decreases |s|
  {
    if |s| == 0 then []
    else (if s[0] == '_' then [] else [s[0]]) + DropUnderscores(s[1..])
  }

  /** Dropping the underscores of a string of digits and underscores leaves digits. */
  lemma {:induction false} DropUnderscoresDigits(s: string)
    requires forall i :: 0 <= i < |s| ==> IsDigit(s[i]) || s[i] == '_'
    ensures forall i :: 0 <= i < |DropUnderscores(s)| ==> IsDigit(DropUnderscores(s)[i])
    decreases |s|
  {
    if |s| > 0 {
      assert forall i :: 0 <= i < |s| - 1 ==> s[1..][i] == s[i + 1];
      DropUnderscoresDigits(s[1..]);
      assert IsDigit(s[0]) || s[0] == '_';
    }
  }

  function NumeralValue(s: string): nat
    requires forall i :: 0 <= i < |s| ==> IsDigit(s[i])
    decreases |s|
  {
    if |s| == 0 then 0
    else
      assert IsDigit(s[|s| - 1]);
      10 * NumeralValue(s[..|s| - 1]) + (s[|s| - 1] as int - '0' as int)
  }

  /** The value of a grouped numeral: its digits read in base 10. */
  function GroupedValue(s: string): nat
    requires IsGroupedNumeral(s)
  {
    DropUnderscoresDigits(s);
    NumeralValue(DropUnderscores(s))
  }

  /** An optional sign followed by a grouped numeral, else None. */
  function ParseStripped(t: string): Option<int> {
    if IsGroupedNumeral(t) then Some(GroupedValue(t))
    else if |t| > 1 && t[0] == '-' && IsGroupedNumeral(t[1..]) then Some(-(GroupedValue(t[1..]) as int))
    else if |t| > 1 && t[0] == '+' && IsGroupedNumeral(t[1..]) then Some(GroupedValue(t[1..]))
    else None
  }

  /** `int(s)` on a str, in base 10, as in Python 3.6 or later: surrounding whitespace
      is ignored, then an optional sign and ASCII digits grouped by single underscores;
      anything else is the ValueError that `int` raises (None). Decimal digits outside
      ASCII, which Python also accepts, are refused here, and the 4300-digit limit of
      Python 3.11 and later is not modelled. */
  function ParseInt(s: string): Option<int> {
    ParseStripped(Strip(s))
  }

  /** `str(n)` for a non-negative integer. */
  function NatToString(n: nat): (s: string)
    ensures IsNumeral(s)
    decreases n
  {
    if n < 10 then [('0' as int + n) as char]
    else NatToString(n / 10) + [('0' as int + n % 10) as char]
  }

  /** `str(n)` for any integer. */
  function IntToString(n: int): string {
    if n < 0 then "-" + NatToString(-n) else NatToString(n)
  }

  lemma {:induction false} NatToStringValue(n: nat)
    ensures NumeralValue(NatToString(n)) == n
    decreases n
  {
    if n >= 10 {
      NatToStringValue(n / 10);
      var s := NatToString(n);
      assert s[..|s| - 1] == NatToString(n / 10);
    }
  }

  /** Stripping leaves a string alone that neither starts nor ends with whitespace. */
  lemma StripUnchanged(s: string)
    requires |s| > 0 && !IsSpace(s[0]) && !IsSpace(s[|s| - 1])
    ensures Strip(s) == s
  {
    assert TrimStart(s) == s;
  }

  /** A plain run of digits is a grouped numeral with the same value. */
  lemma NumeralIsGrouped(s: string)
    requires IsNumeral(s)
    ensures IsGroupedNumeral(s) && GroupedValue(s) == NumeralValue(s)
  {
    NumeralKeepsDigits(s);
  }

  /** A string that does not start with a digit is not a grouped numeral. */
  lemma SignNotGrouped(t: string)
    requires |t| > 0 && !IsDigit(t[0])
    ensures !IsGroupedNumeral(t)
  {
  }

  /** A numeral is read as its value. */
  lemma ParseStrippedNumeral(d: string)
    requires IsNumeral(d)
    ensures ParseStripped(d) == Some(NumeralValue(d))
  {
    NumeralIsGrouped(d);
  }

  /** A numeral after a minus sign is read as its negated value. */
  lemma ParseStrippedNegative(d: string)
    requires IsNumeral(d)
    ensures ParseStripped("-" + d) == Some(-(NumeralValue(d) as int))
  {
    NumeralIsGrouped(d);
    var m := "-" + d;
    assert m[0] == '-' && m[1..] == d;
    ParseStrippedMinus(m);
  }

  /** A minus sign before a grouped numeral negates its value. */
  lemma ParseStrippedMinus(t: string)
    requires |t| > 1 && t[0] == '-' && IsGroupedNumeral(t[1..])
    ensures ParseStripped(t) == Some(-(GroupedValue(t[1..]) as int))
  {
    SignNotGrouped(t);
  }

  /** `int(str(n)) == n`: every integer the scripts could expect is read back exactly. */
  lemma ParseIntRoundTrip(n: int)
    ensures ParseInt(IntToString(n)) == Some(n)
  {
    var s := IntToString(n);
    var d := NatToString(if n < 0 then -n else n);
    assert s == if n < 0 then "-" + d else d;
    assert !IsSpace(s[0]) && !IsSpace(s[|s| - 1]);
    StripUnchanged(s);
    NatToStringValue(if n < 0 then -n else n);
    if n < 0 {
      ParseStrippedNegative(d);
    } else {
      ParseStrippedNumeral(d);
    }
  }

  /** Leading whitespace is dropped, whatever follows it. */
  lemma {:induction false} TrimStartSpace(pre: string, s: string)
    requires forall i :: 0 <= i < |pre| ==> IsSpace(pre[i])
    ensures TrimStart(pre + s) == TrimStart(s)
    decreases |pre|
  {
    if |pre| > 0 {
      assert (pre + s)[1..] == pre[1..] + s;
      TrimStartSpace(pre[1..], s);
    } else {
      assert pre + s == s;
    }
  }

  /** Trailing whitespace is dropped, whatever precedes it. */
  lemma {:induction false} TrimEndSpace(s: string, post: string)
    requires forall i :: 0 <= i < |post| ==> IsSpace(post[i])
    ensures TrimEnd(s + post) == TrimEnd(s)
    decreases |post|
  {
    if |post| > 0 {
      assert (s + post)[..|s + post| - 1] == s + post[..|post| - 1];
      TrimEndSpace(s, post[..|post| - 1]);
    } else {
      assert s + post == s;
    }
  }

  /** `int` reads an argument with whitespace around it as the argument itself:
      `int(" 512\n") == int("512")`. */
  lemma ParseIntIgnoresSurroundingSpace(pre: string, s: string, post: string)
    requires forall i :: 0 <= i < |pre| ==> IsSpace(pre[i])
    requires forall i :: 0 <= i < |post| ==> IsSpace(post[i])
    requires |s| > 0 && !IsSpace(s[0]) && !IsSpace(s[|s| - 1])
    ensures ParseInt(pre + s + post) == ParseInt(s)
  {
    assert pre + s + post == pre + (s + post);
    TrimStartSpace(pre, s + post);
    assert TrimStart(s + post) == s + post;
    TrimEndSpace(s, post);
    StripUnchanged(s);
  }

  /** An underscore between two digits is a separator `int` skips, so `1_000` reads as
      1000; two underscores in a row, or one at either end, are refused. */
  lemma ParseIntUnderscore(a: string, b: string)
    requires IsNumeral(a) && IsNumeral(b)
    ensures ParseInt(a + "_" + b) == ParseInt(a + b)
    ensures ParseInt(a + "__" + b) == None
    ensures ParseInt("_" + a) == None && ParseInt(a + "_") == None
  {
    UnderscoreJoins(a, b);
    UnderscoreRefused(a, b);
  }

  /** One underscore between two numerals is skipped. */
  lemma UnderscoreJoins(a: string, b: string)
    requires IsNumeral(a) && IsNumeral(b)
    ensures ParseInt(a + "_" + b) == ParseInt(a + b)
  {
    var s := a + "_" + b;
    assert s[0] == a[0] && s[|s| - 1] == b[|b| - 1];
    StripUnchanged(s);
    var ab := a + b;
    assert ab[0] == a[0] && ab[|ab| - 1] == b[|b| - 1];
    StripUnchanged(ab);
    assert IsNumeral(ab);
    NumeralIsGrouped(ab);
    GroupedJoin(a, b);
    assert ParseStripped(s) == Some(GroupedValue(s));
    assert ParseStripped(ab) == Some(GroupedValue(ab));
  }

  /** Two numerals joined by one underscore form a grouped numeral with their digits. */
  lemma GroupedJoin(a: string, b: string)
    requires IsNumeral(a) && IsNumeral(b)
    ensures IsGroupedNumeral(a + "_" + b)
    ensures DropUnderscores(a + "_" + b) == a + b
  {
    var s := a + "_" + b;
    forall i | 0 <= i < |s| ensures IsDigit(s[i]) || s[i] == '_' {
      if i < |a| {
        assert s[i] == a[i];
      } else if i > |a| {
        assert s[i] == b[i - |a| - 1];
      }
    }
    forall i | 0 <= i < |s| - 1 ensures s[i] == '_' ==> s[i + 1] != '_' {
      if i < |a| {
        assert s[i] == a[i];
      } else if i > |a| {
        assert s[i] == b[i - |a| - 1];
      } else {
        assert s[i + 1] == b[0];
      }
    }
    assert s[0] == a[0] && s[|s| - 1] == b[|b| - 1];
    DropJoin(a, b);
  }

  /** Dropping the one underscore between two numerals leaves their digits. */
  lemma DropJoin(a: string, b: string)
    requires IsNumeral(a) && IsNumeral(b)
    ensures DropUnderscores(a + "_" + b) == a + b
  {
    assert a + "_" + b == a + ("_" + b);
    DropUnderscoresConcat(a, "_" + b);
    NumeralKeepsDigits(a);
    DropLeadingUnderscore(b);
  }

  /** A leading underscore is dropped. */
  lemma DropLeadingUnderscore(b: string)
    requires IsNumeral(b)
    ensures DropUnderscores("_" + b) == b
  {
    var u := "_" + b;
    assert u[0] == '_' && u[1..] == b;
    NumeralKeepsDigits(b);
  }

  /** A numeral has no underscore to drop. */
  lemma {:induction false} NumeralKeepsDigits(d: string)
    requires IsNumeral(d)
    ensures DropUnderscores(d) == d
    decreases |d|
  {
    assert IsDigit(d[0]);
    if |d| > 1 {
      assert forall i :: 0 <= i < |d| - 1 ==> d[1..][i] == d[i + 1];
      NumeralKeepsDigits(d[1..]);
    }
  }

  /** A doubled underscore, or one at either end, is refused. */
  lemma UnderscoreRefused(a: string, b: string)
    requires IsNumeral(a) && IsNumeral(b)
    ensures ParseInt(a + "__" + b) == None
    ensures ParseInt("_" + a) == None && ParseInt(a + "_") == None
  {
    DoubleUnderscoreRefused(a, b);
    LeadingUnderscoreRefused(a);
    TrailingUnderscoreRefused(a);
  }

  lemma DoubleUnderscoreRefused(a: string, b: string)
    requires IsNumeral(a) && IsNumeral(b)
    ensures ParseInt(a + "__" + b) == None
  {
    var d := a + "__" + b;
    assert d[0] == a[0] && d[|d| - 1] == b[|b| - 1];
    assert IsDigit(a[0]) && IsDigit(b[|b| - 1]);
    StripUnchanged(d);
    assert d[|a|] == '_' && d[|a| + 1] == '_';
    assert !IsGroupedNumeral(d);
  }

  lemma LeadingUnderscoreRefused(a: string)
    requires IsNumeral(a)
    ensures ParseInt("_" + a) == None
  {
    var l := "_" + a;
    assert l[0] == '_' && l[|l| - 1] == a[|a| - 1];
    assert IsDigit(a[|a| - 1]);
    StripUnchanged(l);
    SignNotGrouped(l);
  }

  lemma TrailingUnderscoreRefused(a: string)
    requires IsNumeral(a)
    ensures ParseInt(a + "_") == None
  {
    var r := a + "_";
    assert r[0] == a[0] && r[|r| - 1] == '_';
    assert IsDigit(a[0]);
    StripUnchanged(r);
    assert !IsGroupedNumeral(r);
  }

  lemma {:induction false} DropUnderscoresConcat(x: string, y: string)
    ensures DropUnderscores(x + y) == DropUnderscores(x) + DropUnderscores(y)
    decreases |x|
  {
    if |x| == 0 {
      assert x + y == y;
    } else {
      assert (x + y)[0] == x[0] && (x + y)[1..] == x[1..] + y;
      DropUnderscoresConcat(x[1..], y);
    }
  }
}
