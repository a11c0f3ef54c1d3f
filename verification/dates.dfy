/** Calendar dates as Python's `datetime` sees them (proleptic Gregorian,
    years 1 through 9999), the day ordinal used to turn a pair of dates into
    a day offset, and the `"YYYY-MM-DD"` text form the extracts store dates in.
 */
module Dates {
  import opened Wrappers

  datatype Date = Date(year: int, month: int, day: int)

  /** `datetime.MINYEAR` and `datetime.MAXYEAR`. */
  const MinYear: int := 1
  const MaxYear: int := 9999

  predicate IsLeap(y: int) {
    y % 4 == 0 && (y % 100 != 0 || y % 400 == 0)
  }

  function DaysInMonth(y: int, m: int): (n: int)
    requires 1 <= m <= 12
    ensures 28 <= n <= 31
    ensures n == 29 <==> m == 2 && IsLeap(y)
  {
    if m == 2 then (if IsLeap(y) then 29 else 28)
    else if m == 4 || m == 6 || m == 9 || m == 11 then 30
    else 31
  }

  /** The dates the `datetime(y, m, d)` constructor accepts. */
  predicate Valid(d: Date) {
    && MinYear <= d.year <= MaxYear
    && 1 <= d.month <= 12
    && 1 <= d.day <= DaysInMonth(d.year, d.month)
  }

  /** Strict chronological order: the order `<` of `datetime` and `pd.Timestamp`. */
  predicate Before(a: Date, b: Date) {
    || a.year < b.year
    || (a.year == b.year && a.month < b.month)
    || (a.year == b.year && a.month == b.month && a.day < b.day)
  }

  lemma BeforeIsStrictTotalOrder(a: Date, b: Date, c: Date)
    ensures !Before(a, a)
    ensures Before(a, b) ==> !Before(b, a)
    ensures Before(a, b) && Before(b, c) ==> Before(a, c)
    ensures a == b || Before(a, b) || Before(b, a)
  {
  }

  function DaysInYear(y: int): (n: int)
    ensures n == 365 || n == 366
  {
    if IsLeap(y) then 366 else 365
  }

  /** Days in the years 1 .. y-1 (Python's `_days_before_year`). */
  function DaysBeforeYear(y: int): (n: int)
    requires y >= 1
    decreases y
  {
    if y == 1 then 0 else DaysBeforeYear(y - 1) + DaysInYear(y - 1)
  }

  /** Days in the months 1 .. m-1 of year y (Python's `_days_before_month`). */
  function DaysBeforeMonth(y: int, m: int): (n: int)
    requires 1 <= m <= 12
  {
    var cumulative := [0, 31, 59, 90, 120, 151, 181, 212, 243, 273, 304, 334];
    cumulative[m - 1] + (if m > 2 && IsLeap(y) then 1 else 0)
  }

  /** Python's `date.toordinal()`: 0001-01-01 is day 1. */
  function Ordinal(d: Date): int
    requires Valid(d)
  {
    DaysBeforeYear(d.year) + DaysBeforeMonth(d.year, d.month) + d.day
  }

  /** The largest ordinal any valid date can have is below this bound. */
  const OrdinalBound: int := 366 * MaxYear

  /** `(onset - assessment) / np.timedelta64(1, 'D')`: the signed number of
      days from the assessment date to the onset date. */
  function DayOffset(onset: Date, assessment: Date): int
    requires Valid(onset) && Valid(assessment)
  {
    Ordinal(onset) - Ordinal(assessment)
  }

  lemma {:induction false} DaysBeforeYearBounds(y: int)
    requires y >= 1
    ensures 365 * (y - 1) <= DaysBeforeYear(y) <= 366 * (y - 1)
    decreases y
  {
    if y > 1 {
      DaysBeforeYearBounds(y - 1);
    }
  }

  /** A whole year lies before any later year starts. */
  lemma {:induction false} DaysBeforeYearGrows(y1: int, y2: int)
    requires 1 <= y1 < y2
    ensures DaysBeforeYear(y1) + DaysInYear(y1) <= DaysBeforeYear(y2)
    decreases y2
  {
    if y2 > y1 + 1 {
      DaysBeforeYearGrows(y1, y2 - 1);
    }
  }

  lemma DaysBeforeMonthStep(y: int, m: int)
    requires 1 <= m < 12
    ensures DaysBeforeMonth(y, m + 1) == DaysBeforeMonth(y, m) + DaysInMonth(y, m)
  {
  }

  lemma DaysBeforeMonthLast(y: int)
    ensures DaysBeforeMonth(y, 12) + DaysInMonth(y, 12) == DaysInYear(y)
  {
  }

  /** A whole month lies before any later month of the same year starts. */
  lemma {:induction false} DaysBeforeMonthGrows(y: int, m1: int, m2: int)
    requires 1 <= m1 < m2 <= 12
    ensures DaysBeforeMonth(y, m1) + DaysInMonth(y, m1) <= DaysBeforeMonth(y, m2)
    decreases m2
  {
    DaysBeforeMonthStep(y, m2 - 1);
    if m2 > m1 + 1 {
      DaysBeforeMonthGrows(y, m1, m2 - 1);
    }
  }

  /** The day-of-year part of an ordinal never reaches the next year. */
  lemma DayOfYearBounds(d: Date)
    requires Valid(d)
    ensures 1 <= DaysBeforeMonth(d.year, d.month) + d.day <= DaysInYear(d.year)
  {
    if d.month < 12 {
      DaysBeforeMonthGrows(d.year, d.month, 12);
    }
    DaysBeforeMonthLast(d.year);
  }

  lemma OrdinalBounds(d: Date)
    requires Valid(d)
    ensures 1 <= Ordinal(d) < OrdinalBound
  {
    DaysBeforeYearBounds(d.year);
    DayOfYearBounds(d);
  }

  /** The ordinal is strictly monotone in chronological order. */
  lemma OrdinalMonotone(a: Date, b: Date)
    requires Valid(a) && Valid(b) && Before(a, b)
    ensures Ordinal(a) < Ordinal(b)
  {
    if a.year < b.year {
      DayOfYearBounds(a);
      DayOfYearBounds(b);
      DaysBeforeYearGrows(a.year, b.year);
    } else if a.month < b.month {
      DaysBeforeMonthGrows(a.year, a.month, b.month);
    }
  }

  /** Comparing dates and comparing their ordinals are the same thing. */
  lemma OrdinalOrder(a: Date, b: Date)
    requires Valid(a) && Valid(b)
    ensures Before(a, b) <==> Ordinal(a) < Ordinal(b)
    ensures a == b <==> Ordinal(a) == Ordinal(b)
  {
    BeforeIsStrictTotalOrder(a, b, b);
    if Before(a, b) {
      OrdinalMonotone(a, b);
    } else if Before(b, a) {
      OrdinalMonotone(b, a);
    }
  }

  /** The sign of the day offset tells whether the onset preceded the assessment. */
  lemma DayOffsetSign(onset: Date, assessment: Date)
    requires Valid(onset) && Valid(assessment)
    ensures DayOffset(onset, assessment) < 0 <==> Before(onset, assessment)
    ensures DayOffset(onset, assessment) == 0 <==> onset == assessment
    ensures DayOffset(onset, assessment) > 0 <==> Before(assessment, onset)
  {
    OrdinalOrder(onset, assessment);
    OrdinalOrder(assessment, onset);
  }

  /** Any two representable dates are less than `OrdinalBound` days apart. */
  lemma DayOffsetBounds(onset: Date, assessment: Date)
    requires Valid(onset) && Valid(assessment)
    ensures -OrdinalBound < DayOffset(onset, assessment) < OrdinalBound
  {
    OrdinalBounds(onset);
    OrdinalBounds(assessment);
  }

  // ---------------------------------------------------------------------------
  // Text form
  // ---------------------------------------------------------------------------

  const Dash: char := '-'

  /** Index of the first dash in `s`. */
  function FirstDash(s: string): (i: nat)
    requires Dash in s
    ensures i < |s| && s[i] == Dash && Dash !in s[..i]
  {
    if s[0] == Dash then 0
    else
      assert Dash in s[1..] by {
        var k :| 0 <= k < |s| && s[k] == Dash;
        assert s[1..][k - 1] == Dash;
      }
      var j := FirstDash(s[1..]);
      assert s[..j + 1] == [s[0]] + s[1..][..j];
      j + 1
  }

  /** Python's `s.split("-")`: the pieces between dashes, empty ones kept. */
  function Split(s: string): (parts: seq<string>)
    ensures |parts| >= 1
    ensures forall i :: 0 <= i < |parts| ==> Dash !in parts[i]
    decreases |s|
  {
    if Dash !in s then [s]
    else
      var i := FirstDash(s);
      [s[..i]] + Split(s[i + 1..])
  }

  /** `"-".join(parts)`. */
  function Join(parts: seq<string>): string
    requires |parts| >= 1
  {
    if |parts| == 1 then parts[0] else parts[0] + [Dash] + Join(parts[1..])
  }

  /** Splitting loses nothing: joining the pieces gives the text back. */
  lemma {:induction false} JoinSplit(s: string)
    ensures Join(Split(s)) == s
    decreases |s|
  {
    if Dash in s {
      var i := FirstDash(s);
      JoinSplit(s[i + 1..]);
      assert s == s[..i] + [Dash] + s[i + 1..];
    }
  }

  /** A leading dash-free piece is split off as it is. */
  lemma SplitCons(a: string, rest: string)
    requires Dash !in a
    ensures Split(a + [Dash] + rest) == [a] + Split(rest)
  {
    var s := a + [Dash] + rest;
    assert s[|a|] == Dash;
    var i := FirstDash(s);
    assert s[..i] == a;
    assert s[i + 1..] == rest;
  }

  predicate IsDigit(c: char) {
    '0' <= c <= '9'
  }

  predicate AllDigits(s: string) {
    forall i :: 0 <= i < |s| ==> IsDigit(s[i])
  }

  /** Decimal value of a digit string. */
  function DigitsValue(s: string): (n: nat)
    requires AllDigits(s)
  {
    if |s| == 0 then 0
    else DigitsValue(s[..|s| - 1]) * 10 + ((s[|s| - 1] as int) - ('0' as int))
  }

  /** Python's `int(s)` on one piece of a date: `None` where it raises. */
  function ParseInt(s: string): (r: Option<int>)
    ensures r.Some? <==> |s| > 0 && AllDigits(s)
    ensures r.Some? ==> r.value >= 0
  {
    if |s| > 0 && AllDigits(s) then Some(DigitsValue(s)) else None
  }

  /** `datetime.datetime(y, m, d)`: `None` where the constructor raises. */
  function MakeDate(y: int, m: int, d: int): (r: Option<Date>)
    ensures r.Some? <==> Valid(Date(y, m, d))
    ensures r.Some? ==> r.value == Date(y, m, d)
  {
    if Valid(Date(y, m, d)) then Some(Date(y, m, d)) else None
  }

  /** `l = s.split("-")` followed by `datetime(int(l[0]), int(l[1]), int(l[2]))`;
      `None` wherever that raises (fewer than three pieces, a piece that is not
      a number, an impossible date). Pieces after the third are ignored. */
  function ParseDate(s: string): (r: Option<Date>)
    ensures r.Some? ==> Valid(r.value)
  {
    var parts := Split(s);
    if |parts| < 3 then None
    else
      match (ParseInt(parts[0]), ParseInt(parts[1]), ParseInt(parts[2]))
      case (Some(y), Some(m), Some(d)) => MakeDate(y, m, d)
      case _ => None
  }

  function Pow10(w: nat): (p: nat)
    ensures p >= 1
  {
    if w == 0 then 1 else 10 * Pow10(w - 1)
  }

  /** The last `w` decimal digits of `n`, zero padded. */
  function Pad(n: nat, w: nat): (s: string)
    ensures |s| == w && AllDigits(s) && Dash !in s
  {
    if w == 0 then [] else Pad(n / 10, w - 1) + [('0' as int + n % 10) as char]
  }

  lemma {:induction false} PadValue(n: nat, w: nat)
    requires n < Pow10(w)
    ensures DigitsValue(Pad(n, w)) == n
    decreases w
  {
    if w > 0 {
      var s := Pad(n, w);
      assert s[..w - 1] == Pad(n / 10, w - 1);
      PadValue(n / 10, w - 1);
    }
  }

  /** `date.isoformat()`: the `"YYYY-MM-DD"` text the extracts store. */
  function FormatDate(d: Date): string
    requires Valid(d)
  {
    Pad(d.year, 4) + [Dash] + Pad(d.month, 2) + [Dash] + Pad(d.day, 2)
  }

  /** Every date written in the extracts' format is read back unchanged. */
  lemma ParseFormat(d: Date)
    requires Valid(d)
    ensures ParseDate(FormatDate(d)) == Some(d)
  {
    var y, m, dd := Pad(d.year, 4), Pad(d.month, 2), Pad(d.day, 2);
    SplitCons(y, m + [Dash] + dd);
    SplitCons(m, dd);
    assert FormatDate(d) == y + [Dash] + (m + [Dash] + dd);
    assert Split(FormatDate(d)) == [y, m, dd];
    PadValue(d.year, 4);
    PadValue(d.month, 2);
    PadValue(d.day, 2);
  }
}
