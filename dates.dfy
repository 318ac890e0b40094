/**
 * The calendar pieces `Weather.__init__` relies on: Python's `int(str)`,
 * `datetime.date` validity, `date + relativedelta(months=1)` and
 * `str(date)`, which renders the calendar date as `YYYY-MM-DD`
 * (the extended format of section 4.1.2.2 of ISO 8601:2004).
 */
module Dates {
  import opened Wrappers
  import opened Text

  /* ---------- integers as text ---------- */

  predicate IsDigit(c: char)
  {
    '0' <= c <= '9'
  }

  predicate AllDigits(s: string)
  {
    forall i | 0 <= i < |s| :: IsDigit(s[i])
  }

  function Pow10(n: nat): (p: nat)
    ensures p >= 1
  {
    if n == 0 then 1 else 10 * Pow10(n - 1)
  }

  function DigitChar(k: int): (c: char)
    requires 0 <= k < 10
    ensures IsDigit(c) && c as int - '0' as int == k
  {
    ('0' as int + k) as char
  }

  /** `'%0*d' % (width, n)` for an `n` that fits in `width` digits. */
  function ZeroPad(n: nat, width: nat): (s: string)
    ensures |s| == width
    ensures AllDigits(s)
  {
    if width == 0 then ""
    else ZeroPad(n / 10, width - 1) + [DigitChar(n % 10)]
  }

  /** The number a string of digits and underscores denotes; underscores are skipped. */
  function DigitsValue(s: string): (v: nat)
    requires forall i | 0 <= i < |s| :: IsDigit(s[i]) || s[i] == '_'
  {
    if s == [] then 0
    else if s[|s| - 1] == '_' then DigitsValue(s[..|s| - 1])
    else
      var c := s[|s| - 1];
      assert IsDigit(c);
      DigitsValue(s[..|s| - 1]) * 10 + (c as int - '0' as int)
  }

  /** How many digits a string of digits and underscores holds; underscores are not counted. */
  function DigitCount(s: string): (n: nat)
    ensures n <= |s|
  {
    if s == [] then 0
    else DigitCount(s[..|s| - 1]) + (if IsDigit(s[|s| - 1]) then 1 else 0)
  }

  lemma {:induction false} DigitCountAll(s: string)
    requires AllDigits(s)
    ensures DigitCount(s) == |s|
  {
    if s != [] {
      DigitCountAll(s[..|s| - 1]);
    }
  }

  /**
   * CPython's default `sys.int_info.default_max_str_digits`: `int` raises
   * ValueError on a decimal string holding more digits than this.
   */
  const MaxStrDigits := 4300

  lemma {:induction false} ZeroPadValue(n: nat, width: nat)
    requires n < Pow10(width)
    ensures DigitsValue(ZeroPad(n, width)) == n
  {
    if width > 0 {
      var s := ZeroPad(n, width);
      assert s[..|s| - 1] == ZeroPad(n / 10, width - 1);
      assert n / 10 < Pow10(width - 1);
      ZeroPadValue(n / 10, width - 1);
    }
  }

  /**
   * The whitespace `int` trims. CPython maps every non-ASCII character for
   * which `str.isspace()` holds to a space, but passes ASCII through and then
   * skips only tab, line feed, vertical tab, form feed, carriage return and
   * space: U+001C to U+001F are `isspace()` yet not trimmed.
   */
  predicate IntSpace(c: char)
  {
    IsSpace(c) && !('\U{1c}' <= c <= '\U{1f}')
  }

  predicate AllIntSpace(s: string)
  {
    forall i | 0 <= i < |s| :: IntSpace(s[i])
  }

  /** `s` without its leading trimmed whitespace. */
  function LStrip(s: string): string
  {
    if s != [] && IntSpace(s[0]) then LStrip(s[1..]) else s
  }

  /** The length of `s[..n]` once its trailing trimmed whitespace is cut. */
  function KeptLength(s: string, n: nat): (k: nat)
    requires n <= |s|
    ensures k <= n
  {
    if n > 0 && IntSpace(s[n - 1]) then KeptLength(s, n - 1) else n
  }

  /** `s` without its trailing trimmed whitespace. */
  function RStrip(s: string): string
  {
    s[..KeptLength(s, |s|)]
  }

  /** The trimming `int` applies: its whitespace removed at both ends. */
  function Strip(s: string): string
  {
    RStrip(LStrip(s))
  }

  /** Only trimmed whitespace is cut from the front, and the rest does not start with it. */
  lemma {:induction false} LStripSplit(s: string) returns (w: string)
    ensures AllIntSpace(w) && s == w + LStrip(s)
    ensures LStrip(s) == [] || !IntSpace(LStrip(s)[0])
  {
    if s != [] && IntSpace(s[0]) {
      var w' := LStripSplit(s[1..]);
      w := [s[0]] + w';
      assert s == [s[0]] + s[1..];
    } else {
      w := [];
    }
  }

  /** What `KeptLength` cuts is whitespace, and it stops after a character that is not. */
  lemma {:induction false} KeptLengthRun(s: string, n: nat)
    requires n <= |s|
    ensures forall i | KeptLength(s, n) <= i < n :: IntSpace(s[i])
    ensures KeptLength(s, n) > 0 ==> !IntSpace(s[KeptLength(s, n) - 1])
    decreases n
  {
    if n > 0 && IntSpace(s[n - 1]) {
      KeptLengthRun(s, n - 1);
    }
  }

  /** Only trimmed whitespace is cut from the back, and the rest does not end with it. */
  lemma RStripSplit(s: string) returns (w: string)
    ensures AllIntSpace(w) && s == RStrip(s) + w
    ensures RStrip(s) == [] || !IntSpace(RStrip(s)[|RStrip(s)| - 1])
  {
    var k := KeptLength(s, |s|);
    KeptLengthRun(s, |s|);
    w := s[k..];
    assert AllIntSpace(w) by {
      forall i | 0 <= i < |w| ensures IntSpace(w[i]) {
        assert w[i] == s[k + i];
      }
    }
    assert s == RStrip(s) + w by {
      assert RStrip(s) == s[..k];
    }
  }

  /**
   * `s` is the stripped text with only trimmed whitespace around it, and the
   * stripped text neither starts nor ends with that whitespace.
   */
  lemma StripSplit(s: string) returns (w1: string, w2: string)
    ensures AllIntSpace(w1) && AllIntSpace(w2)
    ensures s == w1 + Strip(s) + w2
    ensures Strip(s) == [] || (!IntSpace(Strip(s)[0]) && !IntSpace(Strip(s)[|Strip(s)| - 1]))
  {
    var l := LStrip(s);
    w1 := LStripSplit(s);
    w2 := RStripSplit(l);
    var t := Strip(s);
    assert l == t + w2;
    if t != [] {
      assert t[0] == l[0];
    }
  }

  lemma {:induction false} LStripSpaces(w: string, t: string)
    requires AllIntSpace(w)
    requires t != [] && !IntSpace(t[0])
    ensures LStrip(w + t) == t
  {
    if w != [] {
      assert (w + t)[1..] == w[1..] + t;
      LStripSpaces(w[1..], t);
    } else {
      assert w + t == t;
    }
  }

  /** A whitespace run after a character that is not whitespace is exactly what `KeptLength` cuts. */
  lemma {:induction false} KeptLengthSpaces(s: string, m: nat, n: nat)
    requires 0 < m <= n <= |s|
    requires !IntSpace(s[m - 1])
    requires forall i | m <= i < n :: IntSpace(s[i])
    ensures KeptLength(s, n) == m
    decreases n
  {
    if n > m {
      KeptLengthSpaces(s, m, n - 1);
    }
  }

  lemma RStripSpaces(t: string, w: string)
    requires AllIntSpace(w)
    requires t != [] && !IntSpace(t[|t| - 1])
    ensures RStrip(t + w) == t
  {
    var s := t + w;
    assert forall i | |t| <= i < |s| :: s[i] == w[i - |t|];
    KeptLengthSpaces(s, |t|, |s|);
    assert s[..|t|] == t;
  }

  /** Whitespace around a text whose ends are not whitespace is exactly what the trimming removes. */
  lemma StripAround(w1: string, t: string, w2: string)
    requires AllIntSpace(w1) && AllIntSpace(w2)
    requires t != [] && !IntSpace(t[0]) && !IntSpace(t[|t| - 1])
    ensures Strip(w1 + t + w2) == t
  {
    assert w1 + t + w2 == w1 + (t + w2);
    LStripSpaces(w1, t + w2);
    RStripSpaces(t, w2);
  }

  /** Digits, with single underscores allowed only between two digits. */
  predicate DigitGroups(u: string)
  {
    |u| > 0 && IsDigit(u[0]) && IsDigit(u[|u| - 1])
    && (forall i | 0 <= i < |u| :: IsDigit(u[i]) || u[i] == '_')
    && (forall i | 0 <= i < |u| - 1 :: !(u[i] == '_' && u[i + 1] == '_'))
  }

  /** A character that may appear somewhere in a string `int` accepts. */
  predicate IntChar(c: char)
  {
    IsDigit(c) || IntSpace(c) || c == '+' || c == '-' || c == '_'
  }

  /**
   * `int(s)` for a base-10 string: surrounding whitespace is ignored, one
   * optional sign, then digit groups of at most `MaxStrDigits` digits;
   * anything else raises ValueError (None).
   */
  function ParseInt(s: string): (r: Option<int>)
    ensures AllSpace(s) ==> r.None?
    ensures s != [] && AllDigits(s) ==> r == (if |s| <= MaxStrDigits then Some(DigitsValue(s)) else None)
  {
    StripDigits(s);
    StripAllSpace(s);
    ReadSigned(Strip(s))
  }

  /** `int` on text already stripped: one optional sign, then digit groups within the digit limit. */
  function ReadSigned(t: string): Option<int>
  {
    if |t| > 0 && (t[0] == '+' || t[0] == '-') then
      var u := t[1..];
      if DigitGroups(u) && DigitCount(u) <= MaxStrDigits then
        var v: int := DigitsValue(u);
        Some(if t[0] == '-' then -v else v)
      else None
    else if DigitGroups(t) && DigitCount(t) <= MaxStrDigits then Some(DigitsValue(t))
    else None
  }

  /** A character `int` never accepts anywhere makes it raise ValueError. */
  lemma ParseIntForeign(s: string, i: nat)
    requires i < |s| && !IntChar(s[i])
    ensures ParseInt(s) == None
  {
    var t := Strip(s);
    var w1, w2 := StripSplit(s);
    assert !IntSpace(s[i]);
    var j := i - |w1|;
    assert forall k | 0 <= k < |w1| :: s[k] == w1[k];
    assert forall k | |w1| + |t| <= k < |s| :: s[k] == w2[k - |w1| - |t|];
    assert forall k | |w1| <= k < |w1| + |t| :: s[k] == t[k - |w1|];
    if t[0] == '+' || t[0] == '-' {
      assert t[1..][j - 1] == s[i];
    }
  }

  /**
   * What `int` gives for text around digit groups: whitespace on either
   * side, an optional sign, and single underscores between digits. Past
   * the digit limit it raises ValueError.
   */
  lemma ParseIntText(w1: string, sign: string, u: string, w2: string)
    requires AllIntSpace(w1) && AllIntSpace(w2)
    requires sign == "" || sign == "+" || sign == "-"
    requires DigitGroups(u)
    ensures ParseInt(w1 + sign + u + w2) ==
      if DigitCount(u) <= MaxStrDigits then Some(if sign == "-" then -(DigitsValue(u) as int) else DigitsValue(u))
      else None
  {
    var t := sign + u;
    assert w1 + sign + u + w2 == w1 + t + w2;
    assert t[|t| - 1] == u[|u| - 1];
    StripAround(w1, t, w2);
    ReadSignedOf(sign, u);
  }

  lemma ReadSignedOf(sign: string, u: string)
    requires sign == "" || sign == "+" || sign == "-"
    requires DigitGroups(u)
    ensures ReadSigned(sign + u) ==
      if DigitCount(u) <= MaxStrDigits then Some(if sign == "-" then -(DigitsValue(u) as int) else DigitsValue(u))
      else None
  {
    if sign == "" {
      assert sign + u == u;
      ReadUnsigned(u);
    } else {
      ReadSign(sign[0], u);
      assert sign == [sign[0]];
    }
  }

  lemma ReadUnsigned(u: string)
    requires DigitGroups(u)
    ensures ReadSigned(u) == if DigitCount(u) <= MaxStrDigits then Some(DigitsValue(u)) else None
  {
    assert !(u[0] == '+' || u[0] == '-');
  }

  lemma ReadSign(c: char, u: string)
    requires c == '+' || c == '-'
    requires DigitGroups(u)
    ensures ReadSigned([c] + u) ==
      if DigitCount(u) <= MaxStrDigits then Some(if c == '-' then -(DigitsValue(u) as int) else DigitsValue(u))
      else None
  {
    var t := [c] + u;
    assert t[0] == c && t[1..] == u;
  }

  /** A doubled underscore is rejected although every character is one `int` may accept. */
  lemma ParseIntRejectsDoubleUnderscore()
    ensures ParseInt("1__0") == None
  {
    StripAround("", "1__0", "");
    assert "" + "1__0" + "" == "1__0";
    assert ParseInt("1__0") == ReadSigned("1__0");
    assert "1__0"[1] == '_' && "1__0"[2] == '_';
  }

  /** A sign with no digits is rejected. */
  lemma ParseIntRejectsBareSign()
    ensures ParseInt("+") == None
  {
    StripAround("", "+", "");
    assert "" + "+" + "" == "+";
    assert ParseInt("+") == ReadSigned("+");
  }

  /** An underscore may not lead the digits. */
  lemma ParseIntRejectsLeadingUnderscore()
    ensures ParseInt("_1") == None
  {
    StripAround("", "_1", "");
    assert "" + "_1" + "" == "_1";
    assert ParseInt("_1") == ReadSigned("_1");
    assert ReadSigned("_1") == None by {
      var t := "_1";
      assert t[0] == '_';
      assert !(t[0] == '+' || t[0] == '-');
      assert !DigitGroups(t);
    }
  }

  /** Whitespace inside the number is rejected; only the ends are stripped. */
  lemma ParseIntRejectsInnerSpace()
    ensures ParseInt("1 2") == None
  {
    StripAround("", "1 2", "");
    assert "" + "1 2" + "" == "1 2";
    assert ParseInt("1 2") == ReadSigned("1 2");
    assert "1 2"[1] == ' ';
  }

  lemma StripDigits(s: string)
    ensures s != [] && AllDigits(s) ==> Strip(s) == s && DigitGroups(s) && DigitCount(s) == |s|
  {
    if AllDigits(s) {
      DigitCountAll(s);
    }
  }

  lemma StripAllSpace(s: string)
    ensures AllSpace(s) ==> Strip(s) == [] || IsSpace(Strip(s)[0])
  {
    var w1, w2 := StripSplit(s);
    if AllSpace(s) && Strip(s) != [] {
      assert Strip(s)[0] == s[|w1|];
    }
  }

  /**
   * Every text `int` accepts has the shape `ParseIntText` reads: trimmed
   * whitespace, an optional sign, digit groups within the digit limit,
   * trimmed whitespace.
   */
  lemma ParseIntShape(s: string)
    requires ParseInt(s).Some?
    ensures exists w1, sign, u, w2 ::
      AllIntSpace(w1) && AllIntSpace(w2) && (sign == "" || sign == "+" || sign == "-")
      && DigitGroups(u) && DigitCount(u) <= MaxStrDigits && s == w1 + sign + u + w2
  {
    var w1, w2 := StripSplit(s);
    var t := Strip(s);
    assert ReadSigned(t).Some?;
    if |t| > 0 && (t[0] == '+' || t[0] == '-') {
      var sign := [t[0]];
      assert t == sign + t[1..];
      assert s == w1 + sign + t[1..] + w2;
    } else {
      assert s == w1 + "" + t + w2;
    }
  }

  /** `int` accepts each of the first `n` pieces. */
  predicate AcceptedBefore(ps: seq<string>, n: nat)
    requires n <= |ps|
  {
    forall j | 0 <= j < n :: ParseInt(ps[j]).Some?
  }

  /** The numbers `int` gives for every piece, or the first piece it rejects. */
  function ParseInts(ps: seq<string>): (r: Result<seq<int>, string>)
    ensures r.Ok? ==> |r.value| == |ps| && forall i | 0 <= i < |ps| :: ParseInt(ps[i]) == Some(r.value[i])
    ensures r.Err? ==> exists i | 0 <= i < |ps| ::
      ps[i] == r.error && ParseInt(ps[i]).None? && AcceptedBefore(ps, i)
  {
    if ps == [] then Ok([])
    else match ParseInt(ps[0])
      case None =>
        assert AcceptedBefore(ps, 0);
        Err(ps[0])
      case Some(v) =>
        match ParseInts(ps[1..])
        case Err(e) =>
          assert forall i | 0 <= i < |ps| - 1 :: AcceptedBefore(ps[1..], i) ==> AcceptedBefore(ps, i + 1) by {
            forall i | 0 <= i < |ps| - 1 && AcceptedBefore(ps[1..], i) ensures AcceptedBefore(ps, i + 1) {
              assert forall j | 1 <= j < i + 1 :: ps[j] == ps[1..][j - 1];
            }
          }
          assert forall i | 0 <= i < |ps| - 1 :: ps[1..][i] == ps[i + 1];
          Err(e)
        case Ok(vs) => Ok([v] + vs)
  }

  /* ---------- calendar dates ---------- */

  /** A `datetime.date`, fields unchecked; `Valid` is what the constructor accepts. */
  datatype Date = Date(year: int, month: int, day: int)

  const MinYear := 1
  const MaxYear := 9999

  predicate IsLeap(y: int)
  {
    y % 4 == 0 && (y % 100 != 0 || y % 400 == 0)
  }

  function DaysInMonth(y: int, m: int): (n: int)
    requires 1 <= m <= 12
    ensures 28 <= n <= 31
    ensures m == 2 ==> (n == 29 <==> IsLeap(y))
  {
    if m == 2 then (if IsLeap(y) then 29 else 28)
    else if m == 4 || m == 6 || m == 9 || m == 11 then 30
    else 31
  }

  predicate Valid(d: Date)
  {
    MinYear <= d.year <= MaxYear && 1 <= d.month <= 12 && 1 <= d.day <= DaysInMonth(d.year, d.month)
  }

  /** Months elapsed since January of year 0. */
  function MonthIndex(d: Date): int
  {
    d.year * 12 + d.month - 1
  }

  predicate Before(a: Date, b: Date)
  {
    a.year < b.year || (a.year == b.year && (a.month < b.month || (a.month == b.month && a.day < b.day)))
  }

  /**
   * `d + relativedelta(months=1)`: the same day of the next month, clamped
   * to that month's last day; December rolls into January of the next year,
   * and a year past 9999 raises ValueError (Err carries that year).
   */
  function AddOneMonth(d: Date): (r: Result<Date, int>)
    requires Valid(d)
    ensures r.Ok? <==> !(d.year == MaxYear && d.month == 12)
    ensures r.Ok? ==> Valid(r.value) && Before(d, r.value)
    ensures r.Ok? ==> MonthIndex(r.value) == MonthIndex(d) + 1
    ensures r.Ok? ==> r.value.day <= d.day
    ensures r.Ok? ==> (r.value.day == d.day || r.value.day == DaysInMonth(r.value.year, r.value.month))
    ensures r.Ok? && d.day <= DaysInMonth(r.value.year, r.value.month) ==> r.value.day == d.day
  {
    var year := if d.month == 12 then d.year + 1 else d.year;
    var month := if d.month == 12 then 1 else d.month + 1;
    var last := DaysInMonth(year, month);
    if year > MaxYear then Err(year)
    else Ok(Date(year, month, if d.day < last then d.day else last))
  }

  /** `str(d)`: zero-padded year, month and day joined by '-'. */
  function FormatIso(d: Date): (s: string)
    requires Valid(d)
    ensures |s| == 10 && s[4] == '-' && s[7] == '-'
    ensures AllDigits(s[..4]) && AllDigits(s[5..7]) && AllDigits(s[8..])
  {
    var s := ZeroPad(d.year, 4) + "-" + ZeroPad(d.month, 2) + "-" + ZeroPad(d.day, 2);
    assert s[..4] == ZeroPad(d.year, 4);
    assert s[5..7] == ZeroPad(d.month, 2);
    assert s[8..] == ZeroPad(d.day, 2);
    s
  }

  /** `str(d)` spelled out field by field. */
  lemma FormatIsoFields(d: Date)
    requires Valid(d)
    ensures FormatIso(d) == ZeroPad(d.year, 4) + "-" + ZeroPad(d.month, 2) + "-" + ZeroPad(d.day, 2)
  {
  }

  lemma ParseZeroPad(n: nat, width: nat)
    requires width > 0 && n < Pow10(width)
    ensures ParseInt(ZeroPad(n, width)) == if width <= MaxStrDigits then Some(n) else None
  {
    ZeroPadValue(n, width);
  }

  /** Splitting a rendered date on '-' and reading each piece with `int` gives its fields. */
  lemma FormatThenParse(d: Date)
    requires Valid(d)
    ensures ParseInts(SplitOn(FormatIso(d), '-')) == Ok([d.year, d.month, d.day])
  {
    var y, m, dd := ZeroPad(d.year, 4), ZeroPad(d.month, 2), ZeroPad(d.day, 2);
    JoinDigitFields(y, m, dd);
    assert FormatIso(d) == y + "-" + m + "-" + dd;
    ParseZeroPad(d.year, 4);
    ParseZeroPad(d.month, 2);
    ParseZeroPad(d.day, 2);
    ParseThree(y, m, dd);
  }

  lemma DigitsHaveNoDash(s: string)
    requires AllDigits(s)
    ensures '-' !in s
  {
  }

  lemma JoinDigitFields(y: string, m: string, dd: string)
    requires AllDigits(y) && AllDigits(m) && AllDigits(dd)
    ensures SplitOn(y + "-" + m + "-" + dd, '-') == [y, m, dd]
  {
    var fields := [y, m, dd];
    assert fields[1..] == [m, dd];
    assert [m, dd][1..] == [dd];
    calc {
      Join(fields, '-');
      y + "-" + Join([m, dd], '-');
      y + "-" + (m + "-" + dd);
      y + "-" + m + "-" + dd;
    }
    DigitsHaveNoDash(y);
    DigitsHaveNoDash(m);
    DigitsHaveNoDash(dd);
    SplitJoin(fields, '-');
  }

  lemma ParseThree(a: string, b: string, c: string)
    requires ParseInt(a).Some? && ParseInt(b).Some? && ParseInt(c).Some?
    ensures ParseInts([a, b, c]) == Ok([ParseInt(a).value, ParseInt(b).value, ParseInt(c).value])
  {
    assert [a, b, c][1..] == [b, c];
    assert [b, c][1..] == [c];
    assert [c][1..] == [];
    var va, vb, vc := ParseInt(a).value, ParseInt(b).value, ParseInt(c).value;
    assert [c][0] == c && [b, c][0] == b && [a, b, c][0] == a;
    assert [vc] + [] == [vc];
    assert [vb] + [vc] == [vb, vc];
    assert [va] + [vb, vc] == [va, vb, vc];
    assert ParseInts([c]) == Ok([ParseInt(c).value]);
    assert ParseInts([b, c]) == Ok([ParseInt(b).value, ParseInt(c).value]);
  }

  /** A day past the end of February in a leap year lands on February 29. */
  lemma ClampToLeapFebruary()
    ensures AddOneMonth(Date(2024, 1, 31)) == Ok(Date(2024, 2, 29))
    ensures AddOneMonth(Date(2023, 1, 31)) == Ok(Date(2023, 2, 28))
  {
  }

  /** December rolls into January of the following year. */
  lemma DecemberRollsOver()
    ensures AddOneMonth(Date(2023, 12, 1)) == Ok(Date(2024, 1, 1))
    ensures AddOneMonth(Date(9999, 12, 1)) == Err(10000)
  {
  }
}
