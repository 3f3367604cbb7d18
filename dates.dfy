/**
 * `datetime.strptime(date_str[:8], "%Y%m%d")` with `datetime.min` on any
 * error, the date parser both contact plugins use to compare source dates.
 *
 * Python turns the format into the regular expression
 *   Y = \d\d\d\d
 *   m = 1[0-2] | 0[1-9] | [1-9]
 *   d = 3[01] | [12]\d | 0[1-9] | [1-9] | " "[1-9]
 * matched at the start of the text with backtracking (the first
 * combination of alternatives in priority order wins), then raises
 * "unconverted data remains" if text is left over, then raises if the
 * calendar date does not exist. Only ASCII digits are modelled.
 */
module Dates {
  import opened Wrappers
  import opened PyStr

  /** A `datetime` at midnight; the time part is always zero here. */
  datatype DateTime = DateTime(year: int, month: int, day: int)

  /** `datetime.min` */
  const MinDate := DateTime(1, 1, 1)

  predicate IsLeapYear(y: int) {
    (y % 4 == 0 && y % 100 != 0) || y % 400 == 0
  }

  function DaysInMonth(y: int, m: int): (n: int)
    requires 1 <= m <= 12
    ensures 28 <= n <= 31
  {
    if m == 2 then (if IsLeapYear(y) then 29 else 28)
    else if m == 4 || m == 6 || m == 9 || m == 11 then 30
    else 31
  }

  /** A date `datetime` accepts: years 1 to 9999 and an existing day. */
  predicate ValidDate(d: DateTime) {
    1 <= d.year <= 9999 && 1 <= d.month <= 12 && 1 <= d.day <= DaysInMonth(d.year, d.month)
  }

  /** `a > b` on datetimes. */
  predicate After(a: DateTime, b: DateTime) {
    a.year > b.year
    || (a.year == b.year && a.month > b.month)
    || (a.year == b.year && a.month == b.month && a.day > b.day)
  }

  /** `>` on datetimes is a strict total order. */
  lemma AfterStrictTotal(a: DateTime, b: DateTime, c: DateTime)
    ensures !After(a, a)
    ensures After(a, b) ==> !After(b, a)
    ensures After(a, b) && After(b, c) ==> After(a, c)
    ensures a == b || After(a, b) || After(b, a)
  {
  }

  function DigitValue(c: char): (n: nat)
    requires IsDigit(c)
    ensures n <= 9
  {
    c as int - '0' as int
  }

  /** The alternatives of `%m` that match at the start of `t`, in priority order, as (value, length). */
  function MonthMatches(t: string): (r: seq<(int, nat)>)
    ensures forall i :: 0 <= i < |r| ==> 1 <= r[i].0 <= 12 && 1 <= r[i].1 <= 2 && r[i].1 <= |t|
    ensures r != [] ==> |t| > 0 && IsDigit(t[0])
  {
    (if |t| >= 2 && t[0] == '1' && '0' <= t[1] <= '2' then [(10 + DigitValue(t[1]), 2 as nat)] else [])
    + (if |t| >= 2 && t[0] == '0' && '1' <= t[1] <= '9' then [(DigitValue(t[1]) as int, 2 as nat)] else [])
    + (if |t| >= 1 && '1' <= t[0] <= '9' then [(DigitValue(t[0]) as int, 1 as nat)] else [])
  }

  /** The first alternative of `%d` that matches at the start of `u`, as (value, length). */
  function DayMatch(u: string): (r: Option<(int, nat)>)
    ensures r.Some? ==> 1 <= r.value.0 <= 31 && 1 <= r.value.1 <= 2 && r.value.1 <= |u|
  {
    if |u| >= 2 && u[0] == '3' && '0' <= u[1] <= '1' then Some((30 + DigitValue(u[1]), 2))
    else if |u| >= 2 && '1' <= u[0] <= '2' && IsDigit(u[1]) then Some((10 * DigitValue(u[0]) + DigitValue(u[1]), 2))
    else if |u| >= 2 && u[0] == '0' && '1' <= u[1] <= '9' then Some((DigitValue(u[1]) as int, 2))
    else if |u| >= 1 && '1' <= u[0] <= '9' then Some((DigitValue(u[0]) as int, 1))
    else if |u| >= 2 && u[0] == ' ' && '1' <= u[1] <= '9' then Some((DigitValue(u[1]) as int, 2))
    else None
  }

  /** Backtracking over the month alternatives `ms` (from position 4 of `s`) until a day matches. */
  function MatchFrom(s: string, year: int, ms: seq<(int, nat)>): (r: Option<(DateTime, nat)>)
    requires forall i :: 0 <= i < |ms| ==> 1 <= ms[i].1 && 4 + ms[i].1 <= |s|
    ensures r.Some? ==> ms != [] && 6 <= r.value.1 <= |s|
  {
    if ms == [] then None
    else
      match DayMatch(s[4 + ms[0].1..])
      case Some((day, dl)) => Some((DateTime(year, ms[0].0, day), 4 + ms[0].1 + dl))
      case None => MatchFrom(s, year, ms[1..])
  }

  /** `re.match` of the `%Y%m%d` pattern: the date and the length of the matched prefix. */
  function MatchDate(s: string): (r: Option<(DateTime, nat)>)
    ensures r.Some? ==> 6 <= r.value.1 <= |s| && forall i :: 0 <= i < 5 ==> IsDigit(s[i])
  {
    if |s| < 4 || !(IsDigit(s[0]) && IsDigit(s[1]) && IsDigit(s[2]) && IsDigit(s[3])) then None
    else
      var year := 1000 * DigitValue(s[0]) + 100 * DigitValue(s[1]) + 10 * DigitValue(s[2]) + DigitValue(s[3]);
      MatchFrom(s, year, MonthMatches(s[4..]))
  }

  /** `_parse_date`: the parsed date, or `datetime.min` when `strptime` raises. */
  function ParseDate(s: string): (r: DateTime)
    ensures ValidDate(r)
  {
    var t := Take(s, 8);
    match MatchDate(t)
    case None => MinDate
    case Some((d, n)) => if n == |t| && ValidDate(d) then d else MinDate
  }

  /**
   * A date that parses to anything but `datetime.min` begins with five
   * digits and has at least six characters. So an ISO `YYYY-MM-DD` string,
   * with '-' at index 4, always parses to `datetime.min`.
   */
  lemma ParsedNeedsDigits(s: string)
    requires ParseDate(s) != MinDate
    ensures |s| >= 6 && forall i :: 0 <= i < 5 ==> IsDigit(s[i])
  {
    var t := Take(s, 8);
    assert MatchDate(t).Some?;
  }

  lemma IsoDateParsesToMin(s: string)
    requires |s| > 4 && s[4] == '-'
    ensures ParseDate(s) == MinDate
  {
    if ParseDate(s) != MinDate { ParsedNeedsDigits(s); }
  }

  // ---------------------------------------------------------------------
  // Round trip with the compact form YYYYMMDD
  // ---------------------------------------------------------------------

  function DigitChar(n: nat): (c: char)
    requires n <= 9
    ensures IsDigit(c) && DigitValue(c) == n
  {
    ('0' as int + n) as char
  }

  /** The `%04d%02d%02d` rendering of a date. */
  function Compact(d: DateTime): (s: string)
    requires ValidDate(d)
    ensures |s| == 8 && forall i :: 0 <= i < 8 ==> IsDigit(s[i])
  {
    var y1 := d.year / 10;
    var y2 := y1 / 10;
    [DigitChar(y2 / 10), DigitChar(y2 % 10), DigitChar(y1 % 10), DigitChar(d.year % 10),
     DigitChar(d.month / 10), DigitChar(d.month % 10),
     DigitChar(d.day / 10), DigitChar(d.day % 10)]
  }

  /** A compact date, followed by anything (a Wayback timestamp's time of day), parses back to itself. */
  lemma CompactRoundTrip(d: DateTime, rest: string)
    requires ValidDate(d)
    ensures ParseDate(Compact(d) + rest) == d
  {
    var c := Compact(d);
    var s := c + rest;
    var t := Take(s, 8);
    assert t == c;
    var y1 := d.year / 10;
    var y2 := y1 / 10;
    assert d.year == 10 * y1 + d.year % 10 && y1 == 10 * y2 + y1 % 10 && y2 == 10 * (y2 / 10) + y2 % 10;
    var year := 1000 * DigitValue(t[0]) + 100 * DigitValue(t[1]) + 10 * DigitValue(t[2]) + DigitValue(t[3]);
    assert year == d.year;
    assert d.month == 10 * (d.month / 10) + d.month % 10;
    assert d.day == 10 * (d.day / 10) + d.day % 10;
    var ms := MonthMatches(t[4..]);
    assert ms[0] == (d.month, 2);
    var dm := DayMatch(t[6..]);
    assert dm == Some((d.day, 2));
    assert MatchFrom(t, year, ms) == Some((d, 8));
  }

  /** Backtracking: in "2023110" the month "11" leaves no day, so `strptime` reads January 10. */
  lemma BacktrackingExample()
    ensures ParseDate("2023110") == DateTime(2023, 1, 10)
  {
    assert MonthMatches("110") == [(11, 2), (1, 1)];
    assert DayMatch("0").None?;
    assert DayMatch("10") == Some((10, 2));
  }

  lemma LeapDayExample()
    ensures ParseDate("20240229") == DateTime(2024, 2, 29)
  {
    var d := DateTime(2024, 2, 29);
    assert ValidDate(d);
    assert 2024 / 10 == 202 && 202 / 10 == 20 && 20 / 10 == 2;
    assert 2024 % 10 == 4 && 202 % 10 == 2 && 20 % 10 == 0 && 29 / 10 == 2 && 29 % 10 == 9;
    assert Compact(d) == "20240229";
    CompactRoundTrip(d, []);
    assert Compact(d) + [] == "20240229";
  }

  lemma NoLeapDayExample()
    ensures ParseDate("20230229") == MinDate
  {
    var t := "20230229";
    assert Take(t, 8) == t;
    assert MonthMatches(t[4..]) == [(2, 2)];
    assert DayMatch(t[6..]) == Some((29, 2));
    assert MatchDate(t) == Some((DateTime(2023, 2, 29), 8));
  }
}
