/** Proleptic Gregorian calendar dates as Python's `datetime.date` holds them (years
    1 to 9999), the `+ timedelta(days=1)` step and the `%Y%m%d` rendering. */
module Dates {
  import opened Wrappers
  import opened Text

  datatype Date = Date(year: int, month: int, day: int)

  const MinYear := 1
  const MaxYear := 9999

  predicate IsLeapYear(y: int)
  {
    y % 4 == 0 && (y % 100 != 0 || y % 400 == 0)
  }

  function DaysInMonth(y: int, m: int): int
    requires 1 <= m <= 12
  {
    if m == 2 then (if IsLeapYear(y) then 29 else 28)
    else if m == 4 || m == 6 || m == 9 || m == 11 then 30
    else 31
  }

  /** The dates a `datetime.date` can represent. */
  predicate ValidDate(d: Date)
  {
    MinYear <= d.year <= MaxYear && 1 <= d.month <= 12 && 1 <= d.day <= DaysInMonth(d.year, d.month)
  }

  /** A date a `datetime.date` object can hold. */
  type CalendarDate = d: Date | ValidDate(d) witness Date(1, 1, 1)

  /** Chronological order of dates. */
  predicate Before(a: Date, b: Date)
  {
    a.year < b.year || (a.year == b.year && (a.month < b.month || (a.month == b.month && a.day < b.day)))
  }

  /** `date + timedelta(days=1)`; `None` where Python raises `OverflowError`, after the
      last representable date. */
  function NextDay(d: Date): (r: Option<Date>)
    requires ValidDate(d)
    ensures r.Some? ==> ValidDate(r.value)
  {
    if d.day < DaysInMonth(d.year, d.month) then Some(Date(d.year, d.month, d.day + 1))
    else if d.month < 12 then Some(Date(d.year, d.month + 1, 1))
    else if d.year < MaxYear then Some(Date(d.year + 1, 1, 1))
    else None
  }

  /** The next day is the immediate successor: later than `d`, and no valid date lies
      strictly between the two. */
  lemma NextDayIsSuccessor(d: Date, e: Date)
    requires ValidDate(d) && ValidDate(e)
    requires NextDay(d).Some?
    ensures Before(d, NextDay(d).value)
    ensures Before(d, e) ==> e == NextDay(d).value || Before(NextDay(d).value, e)
  {
  }

  /** Only the last representable date has no successor. */
  lemma NextDayOverflow(d: Date)
    requires ValidDate(d)
    ensures NextDay(d).None? <==> d == Date(MaxYear, 12, 31)
  {
  }

  /** `date.strftime("%Y%m%d")`. */
  function FormatYmd(d: Date): (s: string)
    requires ValidDate(d)
    ensures |s| == 8 && AllDigits(s)
  {
    ZeroPadWidth(d.year, 4);
    ZeroPadWidth(d.month, 2);
    ZeroPadWidth(d.day, 2);
    ZeroPad(d.year, 4) + ZeroPad(d.month, 2) + ZeroPad(d.day, 2)
  }

  /** Reads an eight-digit `YYYYMMDD` string back into a date. */
  function ParseYmd(s: string): Date
    requires |s| == 8 && AllDigits(s)
  {
    Date(ParseNat(s[..4]), ParseNat(s[4..6]), ParseNat(s[6..]))
  }

  /** The `YYYYMMDD` text determines the date: formatting loses nothing. */
  lemma ParseFormatYmd(d: Date)
    requires ValidDate(d)
    ensures ParseYmd(FormatYmd(d)) == d
  {
    var s := FormatYmd(d);
    var y, m, dd := ZeroPad(d.year, 4), ZeroPad(d.month, 2), ZeroPad(d.day, 2);
    ZeroPadWidth(d.year, 4);
    ZeroPadWidth(d.month, 2);
    ZeroPadWidth(d.day, 2);
    assert s[..4] == y;
    assert s[4..6] == m;
    assert s[6..] == dd;
  }

  lemma FormatYmdInjective(a: Date, b: Date)
    requires ValidDate(a) && ValidDate(b)
    requires FormatYmd(a) == FormatYmd(b)
    ensures a == b
  {
    ParseFormatYmd(a);
    ParseFormatYmd(b);
  }
}
