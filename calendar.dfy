/** Time as JavaScript `Date` values see it, restricted to UTC: a time value is an
    integer count of milliseconds since 1970-01-01T00:00:00Z, and a calendar date
    is turned into one by the day arithmetic of ECMA-262 (section 21.4.1 of the
    2023 edition: DayFromYear, MakeDay, MakeDate). */
module Calendar {

  const MsPerSecond: int := 1000
  const MsPerMinute: int := 60 * MsPerSecond
  const MsPerHour: int := 60 * MsPerMinute
  const MsPerDay: int := 24 * MsPerHour

  type Month = m: int | 1 <= m <= 12 witness 1

  /** A calendar date as the screens store it (`YYYY-MM-DD`); `day` is not bounded
      by the month's length, so that a date pushed past the end of its month by a
      year change is still a value (it rolls into the next month, as `setFullYear` does). */
  datatype CivilDate = CivilDate(year: int, month: Month, day: int)

  /** Gregorian leap years. */
  predicate IsLeapYear(y: int) {
    y % 4 == 0 && (y % 100 != 0 || y % 400 == 0)
  }

  function DaysInYear(y: int): int {
    if IsLeapYear(y) then 366 else 365
  }

  function DaysInMonth(y: int, m: Month): int {
    if m == 2 then (if IsLeapYear(y) then 29 else 28)
    else if m == 4 || m == 6 || m == 9 || m == 11 then 30
    else 31
  }

  /** DayFromYear: the day number of January 1st of `y`, counted from 1970-01-01. */
  function DayFromYear(y: int): int {
    365 * (y - 1970) + (y - 1969) / 4 - (y - 1901) / 100 + (y - 1601) / 400
  }

  /** Days from January 1st of `y` to the first day of month `m`. */
  function MonthStart(y: int, m: Month): int {
    [0, 31, 59, 90, 120, 151, 181, 212, 243, 273, 304, 334][m - 1]
      + (if m > 2 && IsLeapYear(y) then 1 else 0)
  }

  /** MakeDay(year, month, date): the day number of a calendar date. A `day`
      beyond the month's length counts on into the following month. */
  function DayNumber(d: CivilDate): int {
    DayFromYear(d.year) + MonthStart(d.year, d.month) + d.day - 1
  }

  /** The time value of a date at midnight UTC, as `new Date("YYYY-MM-DD")` gives it. */
  function TimeValue(d: CivilDate): int {
    DayNumber(d) * MsPerDay
  }

  /** `date.setFullYear(date.getFullYear() + n)`: the same month and day, `n` years
      on; February 29th in a year that is not leap becomes March 1st. */
  function AddYears(d: CivilDate, n: int): CivilDate {
    d.(year := d.year + n)
  }

  /** The day-number formula counts exactly the days of each calendar year. */
  lemma DayFromYearStep(y: int)
    ensures DayFromYear(y + 1) == DayFromYear(y) + DaysInYear(y)
  {
    FourYearStep(y);
    CenturyStep(y);
    QuadricentennialStep(y);
    DivisibilityChain(y);
  }

  /** Multiples of 400 are multiples of 100, which are multiples of 4. */
  lemma DivisibilityChain(y: int)
    ensures y % 100 == 0 ==> y % 4 == 0
    ensures y % 400 == 0 ==> y % 100 == 0
  {
    if y % 100 == 0 {
      assert y == 4 * (25 * (y / 100));
    }
    if y % 400 == 0 {
      assert y == 100 * (4 * (y / 400));
    }
  }

  /** The count of leap-year candidates (multiples of 4) grows by one exactly at one. */
  lemma FourYearStep(y: int)
    ensures (y - 1968) / 4 == (y - 1969) / 4 + (if y % 4 == 0 then 1 else 0)
  {
  }

  lemma CenturyStep(y: int)
    ensures (y - 1900) / 100 == (y - 1901) / 100 + (if y % 100 == 0 then 1 else 0)
  {
  }

  lemma QuadricentennialStep(y: int)
    ensures (y - 1600) / 400 == (y - 1601) / 400 + (if y % 400 == 0 then 1 else 0)
  {
  }

  /** Leap years are four apart, so no three consecutive years hold two of them. */
  lemma AtMostOneLeap(y: int)
    ensures LeapDay(y) + LeapDay(y + 1) + LeapDay(y + 2) <= 1
  {
    assert y % 4 == 0 ==> (y + 1) % 4 != 0 && (y + 2) % 4 != 0;
    assert (y + 1) % 4 == 0 ==> (y + 2) % 4 != 0;
  }

  /** 1 for a leap year, else 0: the extra day a year carries. */
  function LeapDay(y: int): int {
    if IsLeapYear(y) then 1 else 0
  }

  /** Three consecutive years hold three times 365 days plus their leap days. */
  lemma ThreeYearDays(y: int)
    ensures DayFromYear(y + 3) - DayFromYear(y) == 1095 + LeapDay(y) + LeapDay(y + 1) + LeapDay(y + 2)
  {
    DayFromYearStep(y);
    DayFromYearStep(y + 1);
    DayFromYearStep(y + 2);
  }

  /** Three calendar years after any date lie 1095 or 1096 days later: three
      365-day years plus at most one February 29th, whatever month and day the
      date has (a February 29th moved to a common year rolls to March 1st). */
  lemma ThreeYearSpan(d: CivilDate)
    ensures 1095 <= DayNumber(AddYears(d, 3)) - DayNumber(d) <= 1096
  {
    var y := d.year;
    ThreeYearDays(y);
    if d.month > 2 {
      assert MonthStart(y + 3, d.month) - MonthStart(y, d.month) == LeapDay(y + 3) - LeapDay(y);
      AtMostOneLeap(y + 1);
    } else {
      assert MonthStart(y + 3, d.month) == MonthStart(y, d.month);
      AtMostOneLeap(y);
    }
  }
}
