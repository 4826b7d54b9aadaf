/** Calendar dates as Python's `datetime.date` sees them: the proleptic Gregorian calendar
    for years 1..9999, the day number `toordinal()` (0001-01-01 is day 1), its inverse
    `fromordinal()`, and the canonical text form `YYYY-MM-DD` read by
    `strptime(s, "%Y-%m-%d")` and written by `isoformat()`. */
module Dates {
  import opened Outcomes
  import opened Text

  datatype Date = Date(year: int, month: int, day: int)

  const MinYear := 1
  const MaxYear := 9999

  predicate IsLeap(y: int) {
    y % 4 == 0 && (y % 100 != 0 || y % 400 == 0)
  }

  function DaysInMonth(y: int, m: int): int {
    if m == 2 then (if IsLeap(y) then 29 else 28)
    else if m == 4 || m == 6 || m == 9 || m == 11 then 30
    else 31
  }

  function DaysInYear(y: int): int {
    if IsLeap(y) then 366 else 365
  }

  /** A date `datetime.date` accepts. */
  predicate Valid(d: Date) {
    MinYear <= d.year <= MaxYear && 1 <= d.month <= 12 && 1 <= d.day <= DaysInMonth(d.year, d.month)
  }

  /** Days of year `y` that come before the first of month `m` (13 stands for the next year). */
  function DaysBeforeMonth(y: int, m: int): nat
    requires 1 <= m <= 13
  {
    if m == 1 then 0 else DaysBeforeMonth(y, m - 1) + DaysInMonth(y, m - 1)
  }

  /** Days from 0001-01-01 to the first of January of year `y`. */
  function DaysBeforeYear(y: int): nat
    requires y >= MinYear
  {
    if y == MinYear then 0 else DaysBeforeYear(y - 1) + DaysInYear(y - 1)
  }

  /** Python's `date.toordinal()`. */
  function Ordinal(d: Date): int
    requires Valid(d)
  {
    DaysBeforeYear(d.year) + DaysBeforeMonth(d.year, d.month) + d.day
  }

  /** The day number of 9999-12-31, the last date Python represents. */
  const MaxOrdinal: int := DaysBeforeYear(MaxYear + 1)

  /** Lexicographic (calendar) order on dates. */
  predicate Before(a: Date, b: Date) {
    a.year < b.year
    || (a.year == b.year && a.month < b.month)
    || (a.year == b.year && a.month == b.month && a.day < b.day)
  }

  // ---------------------------------------------------------------------------
  // Day-number arithmetic
  // ---------------------------------------------------------------------------

  lemma YearLength(y: int)
    ensures DaysBeforeMonth(y, 13) == DaysInYear(y)
  {
    assert DaysBeforeMonth(y, 2) == 31;
    assert DaysBeforeMonth(y, 3) == 31 + DaysInMonth(y, 2);
    assert DaysBeforeMonth(y, 4) == 62 + DaysInMonth(y, 2);
    assert DaysBeforeMonth(y, 5) == 92 + DaysInMonth(y, 2);
    assert DaysBeforeMonth(y, 6) == 123 + DaysInMonth(y, 2);
    assert DaysBeforeMonth(y, 7) == 153 + DaysInMonth(y, 2);
    assert DaysBeforeMonth(y, 8) == 184 + DaysInMonth(y, 2);
    assert DaysBeforeMonth(y, 9) == 215 + DaysInMonth(y, 2);
    assert DaysBeforeMonth(y, 10) == 245 + DaysInMonth(y, 2);
    assert DaysBeforeMonth(y, 11) == 276 + DaysInMonth(y, 2);
    assert DaysBeforeMonth(y, 12) == 306 + DaysInMonth(y, 2);
  }

  lemma {:induction false} DaysBeforeMonthMonotone(y: int, m1: int, m2: int)
    requires 1 <= m1 <= m2 <= 13
    ensures DaysBeforeMonth(y, m1) <= DaysBeforeMonth(y, m2)
    decreases m2 - m1
  {
    if m1 < m2 {
      DaysBeforeMonthMonotone(y, m1, m2 - 1);
    }
  }

  lemma {:induction false} DaysBeforeYearMonotone(y1: int, y2: int)
    requires MinYear <= y1 <= y2
    ensures DaysBeforeYear(y1) <= DaysBeforeYear(y2)
    decreases y2 - y1
  {
    if y1 < y2 {
      DaysBeforeYearMonotone(y1, y2 - 1);
    }
  }

  /** Every valid date falls inside its own year's block of day numbers. */
  lemma OrdinalWithinYear(d: Date)
    requires Valid(d)
    ensures DaysBeforeYear(d.year) < Ordinal(d) <= DaysBeforeYear(d.year + 1)
  {
    DaysBeforeMonthMonotone(d.year, d.month + 1, 13);
    YearLength(d.year);
  }

  lemma OrdinalRange(d: Date)
    requires Valid(d)
    ensures 1 <= Ordinal(d) <= MaxOrdinal
  {
    OrdinalWithinYear(d);
    DaysBeforeYearMonotone(d.year + 1, MaxYear + 1);
  }

  /** Day numbers follow the calendar order, in both directions. */
  lemma OrdinalOrder(a: Date, b: Date)
    requires Valid(a) && Valid(b)
    ensures Before(a, b) <==> Ordinal(a) < Ordinal(b)
    ensures a == b <==> Ordinal(a) == Ordinal(b)
  {
    if a.year != b.year {
      var (lo, hi) := if a.year < b.year then (a, b) else (b, a);
      OrdinalWithinYear(lo);
      OrdinalWithinYear(hi);
      DaysBeforeYearMonotone(lo.year + 1, hi.year);
    } else if a.month != b.month {
      var (lo, hi) := if a.month < b.month then (a, b) else (b, a);
      DaysBeforeMonthMonotone(a.year, lo.month + 1, hi.month);
    }
  }

  /** The date `n` days into month `m` of year `y` or later in that year. */
  function LocateMonth(y: int, m: int, n: int): (d: Date)
    requires MinYear <= y <= MaxYear && 1 <= m <= 12
    requires 1 <= n <= DaysInYear(y) - DaysBeforeMonth(y, m)
    ensures Valid(d) && d.year == y
    ensures Ordinal(d) == DaysBeforeYear(y) + DaysBeforeMonth(y, m) + n
    decreases 12 - m
  {
    if n <= DaysInMonth(y, m) then Date(y, m, n)
    else
      YearLength(y);
      LocateMonth(y, m + 1, n - DaysInMonth(y, m))
  }

  /** The date `n` days into year `y` or later. */
  function LocateYear(y: int, n: int): (d: Date)
    requires MinYear <= y <= MaxYear
    requires 1 <= n <= MaxOrdinal - DaysBeforeYear(y)
    ensures Valid(d)
    ensures Ordinal(d) == DaysBeforeYear(y) + n
    decreases n
  {
    if n <= DaysInYear(y) then LocateMonth(y, 1, n)
    else LocateYear(y + 1, n - DaysInYear(y))
  }

  /** Python's `date.fromordinal(n)`, defined for `1 <= n <= MaxOrdinal`. */
  function FromOrdinal(n: int): (d: Date)
    requires 1 <= n <= MaxOrdinal
    ensures Valid(d) && Ordinal(d) == n
  {
    LocateYear(MinYear, n)
  }

  lemma FromOrdinalOfOrdinal(d: Date)
    requires Valid(d)
    ensures (OrdinalRange(d); FromOrdinal(Ordinal(d))) == d
  {
    OrdinalRange(d);
    OrdinalOrder(FromOrdinal(Ordinal(d)), d);
  }

  /** The date `k` days before `d`: `None` where Python raises `OverflowError`. */
  function SubtractDays(d: Date, k: int): (r: Option<Date>)
    requires Valid(d)
    ensures r.Some? ==> Valid(r.value) && Ordinal(r.value) == Ordinal(d) - k
    ensures r.None? <==> !(1 <= Ordinal(d) - k <= MaxOrdinal)
  {
    var n := Ordinal(d) - k;
    if 1 <= n <= MaxOrdinal then Some(FromOrdinal(n)) else None
  }

  // ---------------------------------------------------------------------------
  // Text form YYYY-MM-DD
  // ---------------------------------------------------------------------------

  /** `date.isoformat()`. */
  function FormatIso(d: Date): (s: string)
    requires Valid(d)
    ensures |s| == 10 && s[4] == '-' && s[7] == '-'
  {
    PadDigits(d.year, 4) + "-" + PadDigits(d.month, 2) + "-" + PadDigits(d.day, 2)
  }

  /** `datetime.strptime(s, "%Y-%m-%d").date()` on the zero-padded form; `None` where
      Python raises `ValueError`. Only the canonical spelling of a date is accepted: a
      parsed text is its own format. */
  function ParseIso(s: string): (r: Option<Date>)
    ensures r.Some? ==> Valid(r.value) && FormatIso(r.value) == s
  {
    if |s| == 10 && s[4] == '-' && s[7] == '-'
       && AllDigits(s[..4]) && AllDigits(s[5..7]) && AllDigits(s[8..])
    then
      var d := Date(DigitsValue(s[..4]), DigitsValue(s[5..7]), DigitsValue(s[8..]));
      if Valid(d) then
        PadDigitsOfValue(s[..4]);
        PadDigitsOfValue(s[5..7]);
        PadDigitsOfValue(s[8..]);
        assert s == s[..4] + "-" + s[5..7] + "-" + s[8..];
        Some(d)
      else None
    else None
  }

  /** Where the three fields sit in the written form. */
  lemma FormatIsoPieces(d: Date)
    requires Valid(d)
    ensures var s := FormatIso(d);
      && |s| == 10 && s[4] == '-' && s[7] == '-'
      && s[..4] == PadDigits(d.year, 4)
      && s[5..7] == PadDigits(d.month, 2)
      && s[8..] == PadDigits(d.day, 2)
  {
  }

  /** Reading back what `isoformat()` wrote gives the same date. */
  lemma ParseFormatIso(d: Date)
    requires Valid(d)
    ensures ParseIso(FormatIso(d)) == Some(d)
  {
    var s := FormatIso(d);
    FormatIsoPieces(d);
    assert Pow10(2) == 100 && Pow10(4) == 10000;
    PadDigitsValue(d.year, 4);
    PadDigitsValue(d.month, 2);
    PadDigitsValue(d.day, 2);
    assert DigitsValue(s[..4]) == d.year;
    assert DigitsValue(s[5..7]) == d.month;
    assert DigitsValue(s[8..]) == d.day;
  }

  /** The difference in whole days `(b - a).days`. */
  function DaysBetween(a: Date, b: Date): int
    requires Valid(a) && Valid(b)
  {
    Ordinal(b) - Ordinal(a)
  }

  /** The day difference is zero for the same date, positive when `b` is later, negative
      when it is earlier. */
  lemma DaysBetweenSign(a: Date, b: Date)
    requires Valid(a) && Valid(b)
    ensures DaysBetween(a, b) == 0 <==> a == b
    ensures DaysBetween(a, b) > 0 <==> Before(a, b)
    ensures DaysBetween(a, b) < 0 <==> Before(b, a)
  {
    OrdinalOrder(a, b);
    OrdinalOrder(b, a);
  }
}
