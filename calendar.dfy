/**
 * Naive date-times as Python's `datetime` has them: the proleptic Gregorian
 * calendar for years 1..9999, compared field by field, with the few
 * operations the card engine performs on them.
 */
module Calendar {
  import opened Wrappers
  import opened Text

  const MinYear := 1
  const MaxYear := 9999

  datatype DateTime = DateTime(year: int, month: int, day: int,
                               hour: int, minute: int, second: int, microsecond: int)

  predicate IsLeapYear(y: int) {
    y % 4 == 0 && (y % 100 != 0 || y % 400 == 0)
  }

  function DaysInMonth(y: int, m: int): (n: int)
    requires 1 <= m <= 12
    ensures 28 <= n <= 31
  {
    if m == 2 then (if IsLeapYear(y) then 29 else 28)
    else if m == 4 || m == 6 || m == 9 || m == 11 then 30
    else 31
  }

  predicate ValidDate(y: int, m: int, d: int) {
    MinYear <= y <= MaxYear && 1 <= m <= 12 && 1 <= d <= DaysInMonth(y, m)
  }

  /** What the `datetime` constructor accepts. */
  predicate Valid(t: DateTime) {
    && ValidDate(t.year, t.month, t.day)
    && 0 <= t.hour < 24 && 0 <= t.minute < 60 && 0 <= t.second < 60
    && 0 <= t.microsecond < 1000000
  }

  /** Python's `a > b` on two naive datetimes. */
  predicate After(a: DateTime, b: DateTime) {
    if a.year != b.year then a.year > b.year
    else if a.month != b.month then a.month > b.month
    else if a.day != b.day then a.day > b.day
    else if a.hour != b.hour then a.hour > b.hour
    else if a.minute != b.minute then a.minute > b.minute
    else if a.second != b.second then a.second > b.second
    else a.microsecond > b.microsecond
  }

  function Midnight(y: int, m: int, d: int): DateTime {
    DateTime(y, m, d, 0, 0, 0, 0)
  }

  /**
   * `t.replace(year=t.year + n)`: `None` where Python raises ValueError,
   * that is when the year leaves 1..9999 or 29 February does not exist
   * in the target year.
   */
  function AddYears(t: DateTime, n: int): (r: Option<DateTime>)
    requires Valid(t)
    ensures r.Some? ==> Valid(r.value)
  {
    var y := t.year + n;
    if y < MinYear || y > MaxYear then None
    else if t.month == 2 && t.day == 29 && !IsLeapYear(y) then None
    else Some(t.(year := y))
  }

  /** A later year that exists is a later instant. */
  lemma AddYearsIsLater(t: DateTime, n: int)
    requires Valid(t) && n > 0
    ensures AddYears(t, n).Some? ==> After(AddYears(t, n).value, t)
    ensures AddYears(t, n).None? <==>
              t.year + n > MaxYear || (t.month == 2 && t.day == 29 && !IsLeapYear(t.year + n))
  {
  }

  /** `t - timedelta(days=1)` for a midnight that is not 0001-01-01. */
  function PreviousDay(t: DateTime): (r: DateTime)
    requires Valid(t) && !(t.year == MinYear && t.month == 1 && t.day == 1)
    ensures Valid(r)
  {
    if t.day > 1 then t.(day := t.day - 1)
    else if t.month > 1 then t.(month := t.month - 1, day := DaysInMonth(t.year, t.month - 1))
    else t.(year := t.year - 1, month := 12, day := 31)
  }

  /**
   * The last day of a month the way the fallback expiry computes it: build
   * the first of the month, move to the first of the next month with
   * `replace`, and step back one day. `None` where a constructor or
   * `replace` raises.
   */
  function LastDayOfMonth(y: int, m: int): (r: Option<DateTime>)
    ensures r.Some? ==> Valid(r.value) && r.value.year == y && r.value.month == m
  {
    if !ValidDate(y, m, 1) then None
    else if m == 12 then
      (if y + 1 > MaxYear then None else Some(PreviousDay(Midnight(y + 1, 1, 1))))
    else Some(PreviousDay(Midnight(y, m + 1, 1)))
  }

  /** The roundabout computation lands on midnight of the month's last day. */
  lemma LastDayOfMonthIsMonthEnd(y: int, m: int)
    ensures LastDayOfMonth(y, m).Some? <==> ValidDate(y, m, 1) && !(y == MaxYear && m == 12)
    ensures LastDayOfMonth(y, m).Some? ==>
              LastDayOfMonth(y, m).value == Midnight(y, m, DaysInMonth(y, m))
  {
  }

  /** `strftime("%Y-%m-%d %H:%M:%S")`. */
  function Stamp(t: DateTime): (s: string)
    requires Valid(t)
    ensures |s| == 19
  {
    ZeroPadLength(t.year, 4);
    ZeroPadLength(t.month, 2);
    ZeroPadLength(t.day, 2);
    ZeroPadLength(t.hour, 2);
    ZeroPadLength(t.minute, 2);
    ZeroPadLength(t.second, 2);
    ZeroPad(t.year, 4) + "-" + ZeroPad(t.month, 2) + "-" + ZeroPad(t.day, 2) + " "
      + ZeroPad(t.hour, 2) + ":" + ZeroPad(t.minute, 2) + ":" + ZeroPad(t.second, 2)
  }

  /** `strftime("%Y-%m")`. */
  function MonthStamp(t: DateTime): (s: string)
    requires Valid(t)
    ensures |s| == 7
  {
    ZeroPadLength(t.year, 4);
    ZeroPadLength(t.month, 2);
    ZeroPad(t.year, 4) + "-" + ZeroPad(t.month, 2)
  }

  /** The first seven characters of a time stamp are its month stamp. */
  lemma StampStartsWithMonth(t: DateTime)
    requires Valid(t)
    ensures |Stamp(t)| >= 7 && Stamp(t)[..7] == MonthStamp(t)
  {
    ZeroPadLength(t.year, 4);
    ZeroPadLength(t.month, 2);
    var m := MonthStamp(t);
    assert Stamp(t) == m + ("-" + ZeroPad(t.day, 2) + " " + ZeroPad(t.hour, 2) + ":"
                            + ZeroPad(t.minute, 2) + ":" + ZeroPad(t.second, 2));
  }

  /** Two instants in different months have different month stamps. */
  lemma MonthStampInjective(a: DateTime, b: DateTime)
    requires Valid(a) && Valid(b)
    requires MonthStamp(a) == MonthStamp(b)
    ensures a.year == b.year && a.month == b.month
  {
    ZeroPadLength(a.year, 4);
    ZeroPadLength(a.month, 2);
    ZeroPadLength(b.year, 4);
    ZeroPadLength(b.month, 2);
    assert MonthStamp(a)[..4] == ZeroPad(a.year, 4);
    assert MonthStamp(b)[..4] == ZeroPad(b.year, 4);
    assert MonthStamp(a)[5..] == ZeroPad(a.month, 2);
    assert MonthStamp(b)[5..] == ZeroPad(b.month, 2);
    ZeroPadRoundTrip(a.year, 4);
    ZeroPadRoundTrip(b.year, 4);
    ZeroPadRoundTrip(a.month, 2);
    ZeroPadRoundTrip(b.month, 2);
  }
}
