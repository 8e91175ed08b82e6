/**
 * Timestamp arithmetic behind the `times` and `songplays` transforms.
 *
 * A Redshift `timestamp` built as `TIMESTAMP 'epoch' + n * INTERVAL '1 second'`
 * is a whole number of seconds after 1970-01-01 00:00:00 (no time zone), so it
 * is modelled as an `int` count of seconds. The calendar fields that
 * `EXTRACT` reads from it are derived here with proleptic Gregorian civil-date
 * arithmetic on day numbers (days since 1970-01-01).
 */
module Calendar {

  /** A `timestamp` value: seconds since 1970-01-01 00:00:00. */
  type Timestamp = int

  // ---------------------------------------------------------------------
  // Milliseconds to seconds
  // ---------------------------------------------------------------------

  /**
   * Integer division as `bigint / integer` performs it in Redshift:
   * the quotient is truncated toward zero. Dafny's own `/` is Euclidean,
   * which agrees with floor division here only because `b > 0`.
   */
  function TruncDiv(a: int, b: int): int
    requires b > 0
  {
    if a >= 0 then a / b else -((-a) / b)
  }

  /**
   * `TIMESTAMP 'epoch' + ts/1000 * INTERVAL '1 second'`: the event time `ts`
   * (milliseconds) becomes whole seconds, the milliseconds truncated.
   */
  function StartTime(ts: int): Timestamp
  {
    TruncDiv(ts, 1000)
  }

  /** For a non-negative `ts`, the start time is the second that contains it. */
  lemma StartTimeIsContainingSecond(ts: int, t: Timestamp)
    requires ts >= 0
    ensures StartTime(ts) == t <==> 1000 * t <= ts < 1000 * (t + 1)
  {
  }

  /** Before the epoch truncation rounds toward the epoch: the second is the one ending at `ts`. */
  lemma StartTimeBeforeEpoch(ts: int, t: Timestamp)
    requires ts < 0
    ensures StartTime(ts) == t <==> 1000 * (t - 1) < ts <= 1000 * t
  {
  }

  /** Two events less than a second apart inside the same second share a start time. */
  lemma SameSecondSameStartTime(ts1: int, ts2: int)
    requires 0 <= ts1 <= ts2
    requires ts2 - ts1 < 1000 - ts1 % 1000
    ensures StartTime(ts1) == StartTime(ts2)
  {
  }

  /** Truncation toward zero joins the last second before the epoch with the first one after it. */
  lemma StartTimeZeroBucket()
    ensures StartTime(-999) == StartTime(999) == 0
    ensures StartTime(-1000) == -1 && StartTime(1000) == 1
  {
  }

  // ---------------------------------------------------------------------
  // Gregorian years and months
  // ---------------------------------------------------------------------

  predicate IsLeapYear(y: int)
  {
    y % 4 == 0 && (y % 100 != 0 || y % 400 == 0)
  }

  function DaysInYear(y: int): int
  {
    if IsLeapYear(y) then 366 else 365
  }

  function DaysInMonth(y: int, m: int): int
    requires 1 <= m <= 12
  {
    if m == 2 then (if IsLeapYear(y) then 29 else 28)
    else if m == 4 || m == 6 || m == 9 || m == 11 then 30
    else 31
  }

  /** Day number of January 1 of year `y`, counted year by year from 1970. */
  function DaysBeforeYear(y: int): int
    decreases if y < 1970 then 1970 - y else y - 1970
  {
    if y == 1970 then 0
    else if y > 1970 then DaysBeforeYear(y - 1) + DaysInYear(y - 1)
    else DaysBeforeYear(y + 1) - DaysInYear(y)
  }

  /** Consecutive January firsts are exactly one year's length apart. */
  lemma YearLength(y: int)
    ensures DaysBeforeYear(y + 1) - DaysBeforeYear(y) == DaysInYear(y)
  {
  }

  /** January firsts are increasing: a later year starts no earlier than the end of an earlier one. */
  lemma {:induction false} YearsOrdered(y1: int, y2: int)
    requires y1 < y2
    ensures DaysBeforeYear(y1 + 1) <= DaysBeforeYear(y2)
    decreases y2 - y1
  {
    if y1 + 1 < y2 {
      YearsOrdered(y1 + 1, y2);
      YearLength(y1 + 1);
    }
  }

  /** `k` years after 1970 start no later than day `366 * k`. */
  lemma {:induction false} DaysBeforeYearBound(k: nat)
    ensures DaysBeforeYear(1970 + k) <= 366 * k
  {
    if k > 0 {
      DaysBeforeYearBound(k - 1);
      YearLength(1970 + k - 1);
    }
  }

  /** The year containing day `z`, searched upward from year `y`. */
  function SearchYearUp(z: int, y: int): (r: int)
    requires DaysBeforeYear(y) <= z
    ensures DaysBeforeYear(r) <= z < DaysBeforeYear(r + 1)
    decreases z - DaysBeforeYear(y)
  {
    YearLength(y);
    if z < DaysBeforeYear(y + 1) then y else SearchYearUp(z, y + 1)
  }

  /** The year containing day `z`, searched downward from year `y`. */
  function SearchYearDown(z: int, y: int): (r: int)
    requires z < DaysBeforeYear(y + 1)
    ensures DaysBeforeYear(r) <= z < DaysBeforeYear(r + 1)
    decreases DaysBeforeYear(y + 1) - z
  {
    YearLength(y);
    if DaysBeforeYear(y) <= z then y else SearchYearDown(z, y - 1)
  }

  /** The year containing day number `z`. */
  function YearOf(z: int): (y: int)
    ensures DaysBeforeYear(y) <= z < DaysBeforeYear(y + 1)
  {
    if z >= 0 then
      DaysBeforeYearBound(z / 366);
      SearchYearUp(z, 1970 + z / 366)
    else
      SearchYearDown(z, 1969)
  }

  /** Days of a common year before the first of each month (index 12 is the year's end). */
  const CommonDaysBeforeMonth: seq<int> := [0, 31, 59, 90, 120, 151, 181, 212, 243, 273, 304, 334, 365]

  /** Days of year `y` before the first of month `m` (month 13 stands for the year's end). */
  function DaysBeforeMonth(y: int, m: int): int
    requires 1 <= m <= 13
  {
    CommonDaysBeforeMonth[m - 1] + (if IsLeapYear(y) && m > 2 then 1 else 0)
  }

  /** Each month starts where the previous one ends, and the twelve fill the year. */
  lemma MonthLength(y: int, m: int)
    requires 1 <= m <= 12
    ensures DaysBeforeMonth(y, m + 1) - DaysBeforeMonth(y, m) == DaysInMonth(y, m)
    ensures DaysBeforeMonth(y, 1) == 0 && DaysBeforeMonth(y, 13) == DaysInYear(y)
  {
  }

  lemma {:induction false} MonthsOrdered(y: int, m1: int, m2: int)
    requires 1 <= m1 < m2 <= 13
    ensures DaysBeforeMonth(y, m1) + DaysInMonth(y, m1) <= DaysBeforeMonth(y, m2)
    decreases m2 - m1
  {
    MonthLength(y, m1);
    if m1 + 1 < m2 {
      MonthsOrdered(y, m1 + 1, m2);
      MonthLength(y, m1 + 1);
    }
  }

  /** The month holding day-of-year `doy` (0-based), searched from month `m`. */
  function SearchMonth(y: int, doy: int, m: int): (r: int)
    requires 1 <= m <= 12
    requires DaysBeforeMonth(y, m) <= doy < DaysInYear(y)
    ensures m <= r <= 12
    ensures DaysBeforeMonth(y, r) <= doy < DaysBeforeMonth(y, r + 1)
    decreases 12 - m
  {
    MonthLength(y, m);
    if doy < DaysBeforeMonth(y, m + 1) then m else SearchMonth(y, doy, m + 1)
  }

  // ---------------------------------------------------------------------
  // Civil dates
  // ---------------------------------------------------------------------

  datatype Date = Date(year: int, month: int, day: int)

  predicate ValidDate(d: Date)
  {
    1 <= d.month <= 12 && 1 <= d.day <= DaysInMonth(d.year, d.month)
  }

  /** The day number of a date: the reference definition of the calendar. */
  function DaysFromCivil(d: Date): int
    requires ValidDate(d)
  {
    DaysBeforeYear(d.year) + DaysBeforeMonth(d.year, d.month) + d.day - 1
  }

  /** The date of day number `z`; it names a real date whose day number is `z`. */
  function CivilFromDays(z: int): (d: Date)
    ensures ValidDate(d)
    ensures DaysFromCivil(d) == z
  {
    var y := YearOf(z);
    var doy := z - DaysBeforeYear(y);
    YearLength(y);
    MonthLength(y, 1);
    var m := SearchMonth(y, doy, 1);
    MonthLength(y, m);
    Date(y, m, doy - DaysBeforeMonth(y, m) + 1)
  }

  /** A date's day number lies inside its year. */
  lemma DateInsideYear(d: Date, z: int)
    requires ValidDate(d) && z == DaysFromCivil(d)
    ensures DaysBeforeYear(d.year) <= z < DaysBeforeYear(d.year + 1)
  {
    MonthsOrdered(d.year, d.month, 13);
    MonthLength(d.year, d.month);
    YearLength(d.year);
  }

  /** Only one year holds a given day. */
  lemma OneYearHoldsDay(y1: int, y2: int, z: int)
    requires DaysBeforeYear(y1) <= z < DaysBeforeYear(y1 + 1)
    requires DaysBeforeYear(y2) <= z < DaysBeforeYear(y2 + 1)
    ensures y1 == y2
  {
    if y1 < y2 {
      YearsOrdered(y1, y2);
    } else if y2 < y1 {
      YearsOrdered(y2, y1);
    }
  }

  /** Only one month of a year holds a given day of that year. */
  lemma OneMonthHoldsDay(y: int, m1: int, m2: int, doy: int)
    requires 1 <= m1 <= 12 && 1 <= m2 <= 12
    requires DaysBeforeMonth(y, m1) <= doy < DaysBeforeMonth(y, m1) + DaysInMonth(y, m1)
    requires DaysBeforeMonth(y, m2) <= doy < DaysBeforeMonth(y, m2) + DaysInMonth(y, m2)
    ensures m1 == m2
  {
    if m1 < m2 {
      MonthsOrdered(y, m1, m2);
    } else if m2 < m1 {
      MonthsOrdered(y, m2, m1);
    }
  }

  /** Two valid dates with the same day number are the same date. */
  lemma SameDayNumberSameDate(d1: Date, d2: Date, z: int)
    requires ValidDate(d1) && ValidDate(d2)
    requires z == DaysFromCivil(d1) && z == DaysFromCivil(d2)
    ensures d1 == d2
  {
    DateInsideYear(d1, z);
    DateInsideYear(d2, z);
    OneYearHoldsDay(d1.year, d2.year, z);
    OneMonthHoldsDay(d1.year, d1.month, d2.month, z - DaysBeforeYear(d1.year));
  }

  /** Every valid date is recovered from its day number. */
  lemma CivilRoundTrip(d: Date)
    requires ValidDate(d)
    ensures CivilFromDays(DaysFromCivil(d)) == d
  {
    var z := DaysFromCivil(d);
    SameDayNumberSameDate(d, CivilFromDays(z), z);
  }

  /** Day numbers and dates are in one-to-one correspondence. */
  lemma DaysFromCivilInjective(d1: Date, d2: Date)
    requires ValidDate(d1) && ValidDate(d2)
    ensures DaysFromCivil(d1) == DaysFromCivil(d2) <==> d1 == d2
  {
    if DaysFromCivil(d1) == DaysFromCivil(d2) {
      SameDayNumberSameDate(d1, d2, DaysFromCivil(d1));
    }
  }

  // ---------------------------------------------------------------------
  // Fields of a timestamp, as EXTRACT reads them
  // ---------------------------------------------------------------------

  /** The day number of the day holding `t` (a time before the epoch falls on an earlier day). */
  function DayNumber(t: Timestamp): int
  {
    t / 86400
  }

  /** The calendar date of `t`. */
  function DateOf(t: Timestamp): (d: Date)
    ensures ValidDate(d)
  {
    CivilFromDays(DayNumber(t))
  }

  /** `EXTRACT(hour FROM t)`. */
  function Hour(t: Timestamp): int
  {
    (t % 86400) / 3600
  }

  /** `EXTRACT(day FROM t)`: the day of the month. */
  function Day(t: Timestamp): int
  {
    DateOf(t).day
  }

  /** `EXTRACT(month FROM t)`. */
  function Month(t: Timestamp): int
  {
    DateOf(t).month
  }

  /**
   * The astronomical year of year number `e`. Year numbers skip 0: -1 is
   * 1 BC, which is astronomical year 0.
   */
  function AstronomicalYear(e: int): int
  {
    if e < 0 then e + 1 else e
  }

  /**
   * The year number `EXTRACT(year ...)` reports for astronomical year `y`:
   * years AD keep their number, and 1 BC (astronomical 0) is reported as -1.
   */
  function ExtractedYear(y: int): (e: int)
    ensures e != 0 && AstronomicalYear(e) == y
    ensures y > 0 ==> e == y
  {
    if y > 0 then y else y - 1
  }

  /** Every non-zero year number is the extracted year of its astronomical year. */
  lemma ExtractedYearOfAstronomical(e: int)
    requires e != 0
    ensures ExtractedYear(AstronomicalYear(e)) == e
  {
  }

  /** `EXTRACT(year FROM t)`. */
  function Year(t: Timestamp): int
  {
    ExtractedYear(DateOf(t).year)
  }

  /**
   * The date and hour read from `t` locate it: `t` lies in that hour of that date,
   * and every field is in its calendar range.
   */
  lemma FieldsLocateTimestamp(t: Timestamp)
    ensures 0 <= Hour(t) < 24
    ensures Year(t) != 0 && AstronomicalYear(Year(t)) == DateOf(t).year
    ensures 1 <= Month(t) <= 12 && 1 <= Day(t) <= DaysInMonth(DateOf(t).year, Month(t))
    ensures var start := DaysFromCivil(Date(DateOf(t).year, Month(t), Day(t))) * 86400 + Hour(t) * 3600;
            start <= t < start + 3600
  {
  }

  /** Splitting a time into whole days and a remainder is unique. */
  lemma SplitDay(t: int, dn: int, r: int)
    requires 0 <= r < 86400 && t == 86400 * dn + r
    ensures t / 86400 == dn && t % 86400 == r
  {
  }

  /** Splitting a time of day into whole hours and a remainder is unique. */
  lemma SplitHour(r: int, h: int, s: int)
    requires 0 <= s < 3600 && r == 3600 * h + s
    ensures r / 3600 == h
  {
  }

  /** Conversely, a time inside a given hour of a given date reads back that date and hour. */
  lemma FieldsOfDateAndHour(d: Date, h: int, s: int, t: Timestamp)
    requires ValidDate(d) && 0 <= h < 24 && 0 <= s < 3600
    requires t == DaysFromCivil(d) * 86400 + h * 3600 + s
    ensures DateOf(t) == d && Hour(t) == h
  {
    var z := DaysFromCivil(d);
    SplitDay(t, z, h * 3600 + s);
    SplitHour(h * 3600 + s, h, s);
    assert DateOf(t) == CivilFromDays(z);
    CivilRoundTrip(d);
  }

  // ---------------------------------------------------------------------
  // Day of the week
  // ---------------------------------------------------------------------

  /**
   * The day of the week of day number `z` as Redshift's `dayofweek` numbers it:
   * 0 = Sunday, 1 = Monday, ..., 6 = Saturday. Day 0, 1970-01-01, was a Thursday.
   */
  function DayOfWeekOfDay(z: int): int
  {
    (z + 4) % 7
  }

  /** `EXTRACT(dayofweek FROM t)` (0 = Sunday .. 6 = Saturday). */
  function DayOfWeek(t: Timestamp): int
  {
    DayOfWeekOfDay(DayNumber(t))
  }

  /** Number of leap years among 1..n (extended to n < 1 by floor division). */
  function LeapYearsThrough(n: int): int
  {
    n / 4 - n / 100 + n / 400
  }

  /** Stepping from `y - 1` to `y` raises `y / 4` exactly when `y` is a multiple of 4. */
  lemma DivStep4(y: int)
    ensures y / 4 - (y - 1) / 4 == if y % 4 == 0 then 1 else 0
  {
    var q, r := (y - 1) / 4, (y - 1) % 4;
    if r == 3 {
      assert y == 4 * (q + 1);
    } else {
      assert y == 4 * q + (r + 1);
    }
  }

  lemma DivStep100(y: int)
    ensures y / 100 - (y - 1) / 100 == if y % 100 == 0 then 1 else 0
  {
    var q, r := (y - 1) / 100, (y - 1) % 100;
    if r == 99 {
      assert y == 100 * (q + 1);
    } else {
      assert y == 100 * q + (r + 1);
    }
  }

  lemma DivStep400(y: int)
    ensures y / 400 - (y - 1) / 400 == if y % 400 == 0 then 1 else 0
  {
    var q, r := (y - 1) / 400, (y - 1) % 400;
    if r == 399 {
      assert y == 400 * (q + 1);
    } else {
      assert y == 400 * q + (r + 1);
    }
  }

  lemma MultipleOf400(y: int)
    requires y % 400 == 0
    ensures y % 100 == 0
  {
    var k := y / 400;
    assert y == 100 * (4 * k) + 0;
  }

  lemma MultipleOf100(y: int)
    requires y % 100 == 0
    ensures y % 4 == 0
  {
    var k := y / 100;
    assert y == 4 * (25 * k) + 0;
  }

  /** The leap-year count rises by one exactly at a leap year. */
  lemma LeapYearStep(y: int)
    ensures LeapYearsThrough(y) - LeapYearsThrough(y - 1) == if IsLeapYear(y) then 1 else 0
  {
    DivStep4(y);
    DivStep100(y);
    DivStep400(y);
    if y % 400 == 0 {
      MultipleOf400(y);
    }
    if y % 100 == 0 {
      MultipleOf100(y);
    }
  }

  /** The year-by-year count of days agrees with the closed leap-year formula. */
  lemma {:induction false} DaysBeforeYearClosedForm(y: int)
    ensures DaysBeforeYear(y) == 365 * (y - 1970) + LeapYearsThrough(y - 1) - LeapYearsThrough(1969)
    decreases if y < 1970 then 1970 - y else y - 1970
  {
    if y > 1970 {
      DaysBeforeYearClosedForm(y - 1);
      LeapYearStep(y - 1);
    } else if y < 1970 {
      DaysBeforeYearClosedForm(y + 1);
      LeapYearStep(y);
    }
  }

  /** Month offsets of Sakamoto's day-of-week method. */
  const SakamotoOffsets: seq<int> := [0, 3, 2, 5, 0, 3, 5, 1, 4, 6, 2, 4]

  /** The sum whose remainder by 7 is Sakamoto's day of the week. */
  function SakamotoSum(d: Date): int
    requires ValidDate(d)
  {
    var y := if d.month < 3 then d.year - 1 else d.year;
    y + LeapYearsThrough(y) + SakamotoOffsets[d.month - 1] + d.day
  }

  /**
   * Sakamoto's day-of-week formula for a Gregorian date (0 = Sunday): a reference
   * definition that does not go through day numbers.
   */
  function SakamotoDayOfWeek(d: Date): int
    requires ValidDate(d)
  {
    SakamotoSum(d) % 7
  }

  lemma ModSevenShift(b: int, k: int)
    ensures (b + 7 * k) % 7 == b % 7
  {
  }

  /** Sakamoto's month offsets are the month starts of a common year, modulo 7, less one after February. */
  lemma SakamotoOffsetsAreMonthStarts(m: int)
    requires 1 <= m <= 12
    ensures (CommonDaysBeforeMonth[m - 1] - SakamotoOffsets[m - 1] - (if m < 3 then 0 else 1)) % 7 == 0
  {
  }

  /** Day number (shifted to Thursday) and Sakamoto's sum differ by whole weeks. */
  lemma SakamotoGap(d: Date) returns (k: int)
    requires ValidDate(d)
    ensures DaysFromCivil(d) + 4 == SakamotoSum(d) + 7 * k
  {
    var y := d.year;
    var shifted := if d.month < 3 then 0 else 1;
    var leap := if IsLeapYear(y) then 1 else 0;
    LeapYearStep(y);
    assert LeapYearsThrough(y - 1) + shifted * leap == LeapYearsThrough(y - 1 + shifted);
    DaysBeforeYearClosedForm(y);
    assert LeapYearsThrough(1969) == 477;
    assert DaysBeforeMonth(y, d.month) == CommonDaysBeforeMonth[d.month - 1] + shifted * leap;
    var q := CommonDaysBeforeMonth[d.month - 1] - SakamotoOffsets[d.month - 1] - shifted;
    SakamotoOffsetsAreMonthStarts(d.month);
    assert q == 7 * (q / 7);
    k := 52 * (y - 1970) - 349 + q / 7;
  }

  /** The day-of-week numbering agrees with Sakamoto's formula on every date. */
  lemma DayOfWeekMatchesSakamoto(d: Date)
    requires ValidDate(d)
    ensures DayOfWeekOfDay(DaysFromCivil(d)) == SakamotoDayOfWeek(d)
  {
    var k := SakamotoGap(d);
    ModSevenShift(SakamotoSum(d), k);
  }

  /** Consecutive days advance the day of the week by one, Saturday wrapping to Sunday. */
  lemma DayOfWeekAdvances(z: int)
    ensures DayOfWeekOfDay(z + 1) == if DayOfWeekOfDay(z) == 6 then 0 else DayOfWeekOfDay(z) + 1
  {
  }

  // ---------------------------------------------------------------------
  // ISO 8601 week numbers
  // ---------------------------------------------------------------------

  /** The ISO 8601 weekday of day number `z`: 1 = Monday .. 7 = Sunday. */
  function IsoWeekdayOfDay(z: int): int
  {
    (z + 3) % 7 + 1
  }

  /** Moving `n` days moves the weekday `n` places round the week. */
  lemma WeekdayShift(z: int, n: int)
    ensures IsoWeekdayOfDay(z + n) - 1 == (IsoWeekdayOfDay(z) - 1 + n) % 7
  {
    var r := (z + 3) % 7;
    assert z + 3 == 7 * ((z + 3) / 7) + r;
    ModSevenShift(r + n, (z + 3) / 7);
  }

  /** Weeks in ISO year `y`: 53 when January 1 is a Thursday, or a Wednesday of a leap year; 52 otherwise. */
  function IsoWeeksInYear(y: int): int
  {
    var jan1 := IsoWeekdayOfDay(DaysBeforeYear(y));
    if jan1 == 4 || (IsLeapYear(y) && jan1 == 3) then 53 else 52
  }

  /**
   * `EXTRACT(week FROM t)` on day number `z`, by the ordinal-date rule:
   * (ordinal - weekday + 10) div 7, where 0 means the last week of the previous
   * year and a number past the year's weeks means week 1 of the next.
   */
  function IsoWeekOfDay(z: int): (w: int)
    ensures 1 <= w <= 53
  {
    var y := YearOf(z);
    var ordinal := z - DaysBeforeYear(y) + 1;
    YearLength(y);
    var raw := (ordinal - IsoWeekdayOfDay(z) + 10) / 7;
    if raw < 1 then IsoWeeksInYear(y - 1)
    else if raw > IsoWeeksInYear(y) then 1
    else raw
  }

  /** `EXTRACT(week FROM t)`: the ISO 8601 week number. */
  function Week(t: Timestamp): int
  {
    IsoWeekOfDay(DayNumber(t))
  }

  /** The first day of ISO year `y`: the Monday on or before January 4. */
  function IsoYearStart(y: int): int
  {
    var jan4 := DaysBeforeYear(y) + 3;
    jan4 - (IsoWeekdayOfDay(jan4) - 1)
  }

  lemma IsoYearStartFacts(y: int)
    ensures IsoWeekdayOfDay(IsoYearStart(y)) == 1
    ensures DaysBeforeYear(y) - 3 <= IsoYearStart(y) <= DaysBeforeYear(y) + 3
  {
    var jan4 := DaysBeforeYear(y) + 3;
    WeekdayShift(jan4, -(IsoWeekdayOfDay(jan4) - 1));
  }

  /** The week arithmetic of a year of `n` days whose January 1 and 4 fall on `jan1` and `jan4`. */
  lemma IsoWeeksArithmetic(n: int, jan1: int, jan4: int, nextJan4: int)
    requires n == 365 || n == 366
    requires 1 <= jan1 <= 7 && jan4 - 1 == (jan1 - 1 + 3) % 7 && nextJan4 - 1 == (jan4 - 1 + n) % 7
    ensures n - nextJan4 + jan4 == 7 * (if jan1 == 4 || (n == 366 && jan1 == 3) then 53 else 52)
  {
  }

  /** An ISO year is exactly as many weeks long as IsoWeeksInYear says. */
  lemma IsoYearLength(y: int)
    ensures IsoYearStart(y + 1) - IsoYearStart(y) == 7 * IsoWeeksInYear(y)
  {
    var j := DaysBeforeYear(y);
    var n := DaysInYear(y);
    YearLength(y);
    WeekdayShift(j, 3);
    WeekdayShift(j + 3, n);
    IsoWeeksArithmetic(n, IsoWeekdayOfDay(j), IsoWeekdayOfDay(j + 3), IsoWeekdayOfDay(j + 3 + n));
  }

  /** The ISO year holding a day is its calendar year or a neighbour. */
  lemma IsoYearNearCalendarYear(z: int, isoYear: int)
    requires IsoYearStart(isoYear) <= z < IsoYearStart(isoYear + 1)
    ensures YearOf(z) - 1 <= isoYear <= YearOf(z) + 1
  {
    var y := YearOf(z);
    IsoYearStartFacts(isoYear);
    IsoYearStartFacts(isoYear + 1);
    if isoYear >= y + 2 {
      YearsOrdered(y + 1, isoYear);
      YearLength(y + 1);
      assert false;
    }
    if isoYear <= y - 2 {
      YearsOrdered(isoYear + 1, y);
      YearLength(isoYear + 1);
      assert false;
    }
  }

  /** The ordinal-date rule counts whole weeks from the start of the calendar year's ISO year. */
  lemma OrdinalRule(z: int)
    ensures var y := YearOf(z);
            (z - DaysBeforeYear(y) + 1 - IsoWeekdayOfDay(z) + 10) / 7 == (z - IsoYearStart(y)) / 7 + 1
  {
    var y := YearOf(z);
    var s := IsoYearStart(y);
    IsoYearStartFacts(y);
    WeekdayShift(s, z - s);
    var wk := (z - s) / 7;
    assert z - s == 7 * wk + (IsoWeekdayOfDay(z) - 1);
    var a := IsoWeekdayOfDay(DaysBeforeYear(y) + 3);
    assert s == DaysBeforeYear(y) + 4 - a;
    assert z - DaysBeforeYear(y) + 1 - IsoWeekdayOfDay(z) + 10 == 7 * (wk + 1) + 7 - a;
  }

  /** The rule unfolded: clamp the week count from the calendar year's ISO start. */
  lemma IsoWeekUnfolded(z: int)
    ensures var y := YearOf(z);
            var raw := (z - IsoYearStart(y)) / 7 + 1;
            IsoWeekOfDay(z) == if raw < 1 then IsoWeeksInYear(y - 1) else if raw > IsoWeeksInYear(y) then 1 else raw
  {
    OrdinalRule(z);
  }

  lemma IsoWeekInOwnYear(z: int, isoYear: int)
    requires isoYear == YearOf(z)
    requires IsoYearStart(isoYear) <= z < IsoYearStart(isoYear + 1)
    ensures IsoWeekOfDay(z) == (z - IsoYearStart(isoYear)) / 7 + 1
  {
    IsoWeekUnfolded(z);
    IsoYearLength(isoYear);
  }

  lemma IsoWeekInPreviousYear(z: int, isoYear: int)
    requires isoYear == YearOf(z) - 1
    requires z < IsoYearStart(isoYear + 1)
    ensures IsoWeekOfDay(z) == (z - IsoYearStart(isoYear)) / 7 + 1
  {
    var y := YearOf(z);
    var s := IsoYearStart(y);
    IsoWeekUnfolded(z);
    IsoYearLength(y - 1);
    IsoYearStartFacts(y);
    assert s - 3 <= z < s;
    assert z - IsoYearStart(y - 1) == 7 * (IsoWeeksInYear(y - 1) - 1) + (z - s + 7);
  }

  lemma IsoWeekInNextYear(z: int, isoYear: int)
    requires isoYear == YearOf(z) + 1
    requires IsoYearStart(isoYear) <= z
    ensures IsoWeekOfDay(z) == (z - IsoYearStart(isoYear)) / 7 + 1 == 1
  {
    var y := YearOf(z);
    IsoWeekUnfolded(z);
    IsoYearLength(y);
    IsoYearStartFacts(y + 1);
    YearLength(y);
  }

  /**
   * The rule agrees with the definition of ISO 8601: in the ISO year holding
   * day `z`, weeks are counted in whole Mondays-to-Sundays from the year's start.
   */
  lemma IsoWeekMatchesDefinition(z: int, isoYear: int)
    requires IsoYearStart(isoYear) <= z < IsoYearStart(isoYear + 1)
    ensures IsoWeekOfDay(z) == (z - IsoYearStart(isoYear)) / 7 + 1
  {
    IsoYearNearCalendarYear(z, isoYear);
    if isoYear == YearOf(z) {
      IsoWeekInOwnYear(z, isoYear);
    } else if isoYear == YearOf(z) - 1 {
      IsoWeekInPreviousYear(z, isoYear);
    } else {
      IsoWeekInNextYear(z, isoYear);
    }
  }

  /** ISO years follow one another: a later ISO year starts no earlier than the end of an earlier one. */
  lemma {:induction false} IsoYearsOrdered(y1: int, y2: int)
    requires y1 < y2
    ensures IsoYearStart(y1 + 1) <= IsoYearStart(y2)
    decreases y2 - y1
  {
    if y1 + 1 < y2 {
      IsoYearsOrdered(y1 + 1, y2);
      IsoYearLength(y1 + 1);
    }
  }

  /** The ISO year holding day `z`: one of the calendar year's neighbours or the year itself. */
  function IsoYearOf(z: int): (y: int)
    ensures IsoYearStart(y) <= z < IsoYearStart(y + 1)
  {
    var y := YearOf(z);
    IsoYearStartFacts(y - 1);
    IsoYearStartFacts(y);
    IsoYearStartFacts(y + 1);
    IsoYearStartFacts(y + 2);
    YearLength(y - 1);
    YearLength(y);
    YearLength(y + 1);
    if z < IsoYearStart(y) then y - 1
    else if z < IsoYearStart(y + 1) then y
    else y + 1
  }

  /** Exactly one ISO year holds a day. */
  lemma IsoYearUnique(z: int, y: int)
    requires IsoYearStart(y) <= z < IsoYearStart(y + 1)
    ensures y == IsoYearOf(z)
  {
    var x := IsoYearOf(z);
    if x < y {
      IsoYearsOrdered(x, y);
    } else if y < x {
      IsoYearsOrdered(y, x);
    }
  }

  // ---------------------------------------------------------------------
  // A worked example
  // ---------------------------------------------------------------------

  /** Between 1970 and 2098 every block of four years holds exactly one leap year. */
  lemma {:induction false} FourYearBlocks(k: nat)
    requires k <= 32
    ensures DaysBeforeYear(1970 + 4 * k) == 1461 * k
  {
    if k > 0 {
      var y := 1970 + 4 * (k - 1);
      FourYearBlocks(k - 1);
      YearLength(y);
      YearLength(y + 1);
      YearLength(y + 2);
      YearLength(y + 3);
      assert y % 4 == 2;
      assert IsLeapYear(y + 2) && !IsLeapYear(y) && !IsLeapYear(y + 1) && !IsLeapYear(y + 3);
    }
  }

  lemma JanuaryFirsts2018And2019()
    ensures DaysBeforeYear(2018) == 17532 && DaysBeforeYear(2019) == 17897
  {
    FourYearBlocks(12);
    YearLength(2018);
  }

  lemma IsoYearStarts2018And2019()
    ensures IsoYearStart(2018) == 17532 && IsoYearStart(2019) == 17896
  {
    JanuaryFirsts2018And2019();
  }

  /** 1541990258 seconds after the epoch is 02:37:38 on 2018-11-12. */
  lemma ExampleDateAndHour()
    ensures DateOf(1541990258) == Date(2018, 11, 12) && Hour(1541990258) == 2
  {
    JanuaryFirsts2018And2019();
    assert DaysFromCivil(Date(2018, 11, 12)) == 17847;
    FieldsOfDateAndHour(Date(2018, 11, 12), 2, 2258, 1541990258);
  }

  /** 2018-11-12 was a Monday in ISO week 46. */
  lemma ExampleWeek()
    ensures DayOfWeek(1541990258) == 1 && Week(1541990258) == 46
  {
    assert DayNumber(1541990258) == 17847;
    IsoYearStarts2018And2019();
    IsoWeekMatchesDefinition(17847, 2018);
  }

  /** 1 BC has no year 0 before it in the numbering: its first second reports year -1. */
  lemma ExampleFirstBCYear()
    ensures DateOf(-62167219200) == Date(0, 1, 1) && Year(-62167219200) == -1
  {
    DaysBeforeYearClosedForm(0);
    FieldsOfDateAndHour(Date(0, 1, 1), 0, 0, -62167219200);
  }
}
