/**
 * The round trip between meeus/C/lib/datetime.c's dt_date_to_jd and
 * dt_jd_to_date. The forward direction switches to Gregorian arithmetic on
 * 1852-11-04, the inverse at day number 2299161 (1582-10-15), so a date comes
 * back unchanged up to the Julian 1582-10-04 and from 1852-11-04 on, and
 * moves in between.
 */
module DateTimeRoundTrip {
  import opened Units
  import opened Util
  import opened DateTime

  /** Up to 1582-10-04, the last day of the Julian calendar. */
  predicate JulianEra(d: Date)
  {
    d.year < 1582 - 1900 || (d.year == 1582 - 1900 && (d.mon < 9 || (d.mon == 9 && d.mday <= 4)))
  }

  /** (int)(365.25 y) of a year count y >= 0 is 365 y plus its leap days. */
  lemma DaysOfYearsExact(y: int)
    requires y >= 0
    ensures DaysOfYears(y) == 365 * y + y / 4
  {
    var q, r := y / 4, y % 4;
    assert y == 4 * q + r;
    assert 365.25 * y as real == (365 * y + q) as real + r as real / 4.0;
  }

  /** (int)(30.6001 k) for the months k = 4 (March) to 16 of the shifted year. */
  lemma DaysOfMonthsTable(k: int)
    requires 4 <= k <= 16
    ensures DaysOfMonths(k) == [122, 153, 183, 214, 244, 275, 306, 336, 367, 397, 428, 459, 489][k - 4]
  {
    if k == 4 { } else if k == 5 { } else if k == 6 { } else if k == 7 { }
    else if k == 8 { } else if k == 9 { } else if k == 10 { } else if k == 11 { }
    else if k == 12 { } else if k == 13 { } else if k == 14 { } else if k == 15 { }
    else { }
  }

  /** Every month of a valid date fits between two consecutive (int)(30.6001 k). */
  lemma MonthFits(mon: int, leap: bool)
    requires 0 <= mon < 12
    ensures var M := if mon < 2 then mon + 13 else mon + 1;
      DaysInMonth(mon, leap) <= DaysOfMonths(M + 2) - DaysOfMonths(M + 1)
  {
    var M := if mon < 2 then mon + 13 else mon + 1;
    DaysOfMonthsTable(M + 1);
    DaysOfMonthsTable(M + 2);
  }

  /** E = (int)((B - D) / 30.6001) finds the month again. */
  lemma MonthRecovered(M: int, mday: int)
    requires 3 <= M <= 14
    requires 1 <= mday <= DaysOfMonths(M + 2) - DaysOfMonths(M + 1)
    ensures MonthsOfDays(DaysOfMonths(M + 1) + mday) == M + 1
  {
    DaysOfMonthsTable(M + 1);
    DaysOfMonthsTable(M + 2);
    var n := DaysOfMonths(M + 1) + mday;
    var q := n as real / 30.6001;
    if M == 3 { assert 4.0 <= q < 5.0; }
    else if M == 4 { assert 5.0 <= q < 6.0; }
    else if M == 5 { assert 6.0 <= q < 7.0; }
    else if M == 6 { assert 7.0 <= q < 8.0; }
    else if M == 7 { assert 8.0 <= q < 9.0; }
    else if M == 8 { assert 9.0 <= q < 10.0; }
    else if M == 9 { assert 10.0 <= q < 11.0; }
    else if M == 10 { assert 11.0 <= q < 12.0; }
    else if M == 11 { assert 12.0 <= q < 13.0; }
    else if M == 12 { assert 13.0 <= q < 14.0; }
    else if M == 13 { assert 14.0 <= q < 15.0; }
    else { assert 15.0 <= q < 16.0; }
  }

  /**
   * C = (int)((B - 122.1) / 365.25) finds the year count again, given the
   * day n of the March-based year; day 488 (February 29) only in a year
   * count of the form 4k + 3.
   */
  lemma YearRecovered(y: int, n: int)
    requires y >= 0 && 123 <= n <= 488
    requires n == 488 ==> y % 4 == 3
    ensures YearsOfDays(DaysOfYears(y) + n) == y
  {
    DaysOfYearsExact(y);
    var B := DaysOfYears(y) + n;
    assert 4 * (y / 4) == y - y % 4;
    var q := (B as real - 122.1) / 365.25;
    assert y as real <= q < y as real + 1.0;
  }

  /**
   * From 1852 on, the century count alpha of dt_jd_to_date is A - 4 and the
   * Gregorian day number goes back to the Julian-style count.
   */
  lemma GregorianShiftUndone(Y: int, n: int)
    requires Y >= 1852 && 123 <= n <= 488
    requires n == 488 ==> (Y + 1) % 4 == 0 && ((Y + 1) % 100 != 0 || (Y + 1) % 400 == 0)
    ensures var A := Y / 100;
      var Z := DaysOfYears(Y + 4716) + n + (2 - A + A / 4) - 1524;
      Z >= 2299161 && GregorianShift(Z) == DaysOfYears(Y + 4716) + n - 1524
  {
    var A, r := Y / 100, Y % 100;
    var Z := DaysOfYears(Y + 4716) + n + (2 - A + A / 4) - 1524;
    DaysOfYearsExact(Y + 4716);
    ShiftedDayNumber(Y, n, A, r, Z);
    if n == 488 && r == 99 {
      LeapCentury(Y, A);
    }
    CenturyBounds(A, r, n, Z);
    CenturyCountOf(Z, A - 4);
    CDivOf(A - 4, 4, A / 4 - 1, A % 4);
  }

  /** The day number of day n of March-based year Y, Gregorian correction included, by century. */
  lemma ShiftedDayNumber(Y: int, n: int, A: int, r: int, Z: int)
    requires Y >= 0 && Y == 100 * A + r && 0 <= r < 100
    requires Z == 365 * (Y + 4716) + (Y + 4716) / 4 + n + (2 - A + A / 4) - 1524
    ensures Z == 1720997 + 36524 * A + A / 4 + 365 * r + r / 4 + n
  {
    EuclidOf(Y + 4716, 4, 25 * A + r / 4 + 1179, r % 4);
  }

  /** If year Y + 1 = 100 (A + 1) is a leap year, A + 1 is a multiple of four. */
  lemma LeapCentury(Y: int, A: int)
    requires Y == 100 * A + 99
    requires (Y + 1) % 4 == 0 && ((Y + 1) % 100 != 0 || (Y + 1) % 400 == 0)
    ensures A % 4 == 3
  {
    EuclidOf(Y + 1, 100, A + 1, 0);
    var k := (Y + 1) / 400;
    assert 100 * (A + 1) == 400 * k;
    EuclidOf(A, 4, k - 1, 3);
  }

  /** The century count's numerator 4 Z - 7468865 lies in century A - 4. */
  lemma CenturyBounds(A: int, r: int, n: int, Z: int)
    requires A >= 18 && 0 <= r < 100 && 123 <= n <= 488
    requires n == 488 && r == 99 ==> A % 4 == 3
    requires Z == 1720997 + 36524 * A + A / 4 + 365 * r + r / 4 + n
    ensures 0 <= 4 * Z - 7468865 - 146097 * (A - 4) < 146097
  {
    assert 4 * Z - 7468865 - 146097 * (A - 4) == 1460 * r + 4 * (r / 4) + 4 * n - 489 - A % 4;
  }

  /** alpha = (int)((Z - 1867216.25) / 36524.25) is c when 4 Z - 7468865 lies in century c. */
  lemma CenturyCountOf(Z: int, c: int)
    requires c >= 0 && 0 <= 4 * Z - 7468865 - 146097 * c < 146097
    ensures CenturyCount(Z) == c
  {
    var q := (Z as real - 1867216.25) / 36524.25;
    assert q - c as real == (4 * Z - 7468865 - 146097 * c) as real / 146097.0;
  }

  /** The seconds of the day come back from the fraction of jd + 0.5. */
  lemma TimeRecovered(Z: int, s: int)
    requires Z >= 0 && 0 <= s < 86400
    ensures var jdi := Z as real + s as real / 86400.0;
      Trunc(jdi) == Z && SecondsOfFraction(jdi - Z as real) == s
  {
  }

  /**
   * The date part of dt_jd_to_date, given the whole day number Z of jd + 0.5,
   * the year count C, the day n of the March-based year and the month E it
   * finds on the way.
   */
  lemma JdToDateOfDay(jd: real, Z: int, C: int, n: int, E: int)
    requires jd >= 0.0 && Trunc(jd + 0.5) == Z
    requires YearsOfDays(GregorianShift(Z) + 1524) == C
    requires GregorianShift(Z) + 1524 - DaysOfYears(C) == n
    requires MonthsOfDays(n) == E
    ensures var m := if E < 14 then E - 1 else E - 13;
      var d := JdToDateFields(jd);
      d.mday == n - DaysOfMonths(E) && d.mon == m - 1
      && d.year == if m > 2 then C - 4716 - 1900 else C - 4715 - 1900
  {
  }

  /** The time part of dt_jd_to_date, when jd + 0.5 is the day number Z plus s seconds. */
  lemma JdToDateOfSecond(jd: real, Z: int, s: int)
    requires Z >= 0 && 0 <= s < 86400 && jd >= 0.0
    requires jd + 0.5 == Z as real + s as real / 86400.0
    ensures Trunc(jd + 0.5) == Z
    ensures var d := JdToDateFields(jd);
      d.sec == s % 60 && d.min == (s % 3600) / 60 && d.hour == s / 3600
  {
    TimeRecovered(Z, s);
  }

  /** The year count Y + 4716 of dt_date_to_jd, for a year that starts in March. */
  function YearCount(d: Date): int
  {
    (if d.mon < 2 then d.year + 1900 - 1 else d.year + 1900) + 4716
  }

  /** The month M + 1 of dt_date_to_jd: 4 for March up to 15 for February. */
  function MonthCount(d: Date): int
  {
    if d.mon < 2 then d.mon + 14 else d.mon + 2
  }

  /** The day of the March-based year that dt_date_to_jd adds up. */
  function MarchDay(d: Date): int
  {
    DaysOfMonths(MonthCount(d)) + d.mday
  }

  /** The correction B of dt_date_to_jd: 2 - A + A / 4 in the Gregorian calendar, else 0. */
  function CalendarTerm(d: Date): int
  {
    var A := CDiv(YearCount(d) - 4716, 100);
    if IsGregorian(d) then 2 - A + CDiv(A, 4) else 0
  }

  /** dt_date_to_jd adds the whole days and the fraction of the day. */
  lemma JdValueSplit(d: Date)
    ensures JdValue(d)
      == (DaysOfYears(YearCount(d)) + MarchDay(d) + CalendarTerm(d) - 1524) as real
         + SecondOfDay(d) as real / 86400.0 - 0.5
  {
    FracDaySplit(d);
  }

  /** The March-based day of a valid date and the leap-day condition it obeys. */
  lemma MarchDayRange(d: Date)
    requires ValidDate(d)
    ensures 123 <= MarchDay(d) <= 488
    ensures MarchDay(d) == 488 ==> d.mon == 1 && d.mday == 29 && IsLeap(d.year + 1900)
    ensures MarchDay(d) == 488 ==> YearCount(d) % 4 == 3
    ensures MonthsOfDays(MarchDay(d)) == MonthCount(d)
  {
    var M := MonthCount(d) - 1;
    MonthFits(d.mon, IsLeap(d.year + 1900));
    MonthRecovered(M, d.mday);
    DaysOfMonthsTable(M + 1);
    LeapYearCount(d.year + 1900, IsLeap(d.year + 1900));
  }

  /** In the Julian era the day number stays below 2299161, so dt_jd_to_date uses it as is. */
  lemma JulianDayNumber(d: Date)
    requires ValidDate(d) && !Earlier(d, JdEpoch) && JulianEra(d) && !IsGregorian(d)
    ensures var Z := DaysOfYears(YearCount(d)) + MarchDay(d) + CalendarTerm(d) - 1524;
      0 <= Z < 2299161 && GregorianShift(Z) == Z
      && (Z == 0 ==> SecondOfDay(d) >= 43200)
  {
    MarchDayRange(d);
    var yp := YearCount(d);
    assert yp >= 3 && (yp == 3 ==> MonthCount(d) >= 14);
    DaysOfYearsExact(yp);
    if yp <= 6297 {
      DaysOfYearsExact(6297);
    } else {
      assert yp == 6298 && MonthCount(d) <= 11;
      DaysOfMonthsTable(MonthCount(d));
    }
  }

  /** From 1852-11-04 on, the Gregorian correction is undone by dt_jd_to_date. */
  lemma GregorianDayNumber(d: Date)
    requires ValidDate(d) && IsGregorian(d)
    ensures var Z := DaysOfYears(YearCount(d)) + MarchDay(d) + CalendarTerm(d) - 1524;
      Z >= 2299161 && GregorianShift(Z) == DaysOfYears(YearCount(d)) + MarchDay(d) - 1524
  {
    MarchDayRange(d);
    var Y := YearCount(d) - 4716;
    assert Y >= 1852;
    GregorianShiftUndone(Y, MarchDay(d));
  }

  /**
   * dt_jd_to_date inverts dt_date_to_jd on every valid date from JD 0 up to
   * the Julian 1582-10-04 and from 1852-11-04 on.
   */
  lemma JulianDayRoundTrip(d: Date)
    requires ValidDate(d) && !Earlier(d, JdEpoch)
    requires JulianEra(d) || IsGregorian(d)
    ensures DateToJd(d).Ok? && DateToJd(d).value >= 0.0
    ensures JdToDateFields(DateToJd(d).value) == d
  {
    DayNumberOf(d);
    assert DateToJd(d) == Ok(JdValue(d));
    JdValueRoundTrip(d);
  }

  /** What dt_jd_to_date makes of the value that dt_date_to_jd computes. */
  lemma JdValueRoundTrip(d: Date)
    requires ValidDate(d) && !Earlier(d, JdEpoch)
    requires JulianEra(d) || IsGregorian(d)
    ensures JdValue(d) >= 0.0 && JdToDateFields(JdValue(d)) == d
  {
    var Z := DaysOfYears(YearCount(d)) + MarchDay(d) + CalendarTerm(d) - 1524;
    DayNumberOf(d);
    MarchDayRange(d);
    SecondsSplit(d.hour, d.min, d.sec);
    TimeOfDayRoundTrip(d, Z);
    DayRoundTrip(d, Z);
  }

  /** The hour, minute and second come back, given the day number Z of the date. */
  lemma TimeOfDayRoundTrip(d: Date, Z: int)
    requires 0 <= d.hour < 24 && 0 <= d.min < 60 && 0 <= d.sec < 60
    requires Z >= 0 && JdValue(d) >= 0.0
    requires JdValue(d) == Z as real + SecondOfDay(d) as real / 86400.0 - 0.5
    ensures var r := JdToDateFields(JdValue(d));
      r.sec == d.sec && r.min == d.min && r.hour == d.hour
  {
    var s := SecondOfDay(d);
    SecondsSplit(d.hour, d.min, d.sec);
    JdToDateOfSecond(JdValue(d), Z, s);
  }

  /** The day of the month, the month and the year come back, given the day number Z of the date. */
  lemma DayRoundTrip(d: Date, Z: int)
    requires 0 <= d.mon < 12 && 0 <= SecondOfDay(d) < 86400
    requires YearCount(d) >= 0 && 123 <= MarchDay(d) <= 488
    requires MarchDay(d) == 488 ==> YearCount(d) % 4 == 3
    requires MonthsOfDays(MarchDay(d)) == MonthCount(d)
    requires Z >= 0 && JdValue(d) >= 0.0
    requires GregorianShift(Z) + 1524 == DaysOfYears(YearCount(d)) + MarchDay(d)
    requires JdValue(d) == Z as real + SecondOfDay(d) as real / 86400.0 - 0.5
    ensures var r := JdToDateFields(JdValue(d));
      r.mday == d.mday && r.mon == d.mon && r.year == d.year
  {
    var yp, n := YearCount(d), MarchDay(d);
    var jd := JdValue(d);
    JdToDateOfSecond(jd, Z, SecondOfDay(d));
    YearRecovered(yp, n);
    JdToDateOfDay(jd, Z, yp, n, MonthCount(d));
  }

  /** The whole day number of a date in either era, and what dt_jd_to_date makes of it. */
  lemma DayNumberOf(d: Date)
    requires ValidDate(d) && !Earlier(d, JdEpoch)
    requires JulianEra(d) || IsGregorian(d)
    ensures var Z := DaysOfYears(YearCount(d)) + MarchDay(d) + CalendarTerm(d) - 1524;
      Z >= 0 && GregorianShift(Z) + 1524 == DaysOfYears(YearCount(d)) + MarchDay(d)
      && 0 <= SecondOfDay(d) < 86400
      && JdValue(d) == Z as real + SecondOfDay(d) as real / 86400.0 - 0.5
      && JdValue(d) >= 0.0
  {
    if IsGregorian(d) {
      GregorianDayNumber(d);
    } else {
      JulianDayNumber(d);
    }
    JdValueSplit(d);
  }

  /** February of a leap year y falls in March-based year count y - 1 + 4716 = 4k + 3. */
  lemma LeapYearCount(y: int, leap: bool)
    requires leap == IsLeap(y)
    ensures leap ==> (y + 4715) % 4 == 3
  {
    if leap {
      assert y % 4 == 0;
      assert y + 4715 == 4 * (y / 4 + 1178) + 3;
    }
  }

  /** The second of the day splits back into its hour, minute and second. */
  lemma SecondsSplit(h: int, m: int, sec: int)
    requires 0 <= h < 24 && 0 <= m < 60 && 0 <= sec < 60
    ensures var s := 3600 * h + 60 * m + sec;
      s % 60 == sec && (s % 3600) / 60 == m && s / 3600 == h
  {
    var s := 3600 * h + 60 * m + sec;
    assert s == 3600 * h + (60 * m + sec) && 0 <= 60 * m + sec < 3600;
    assert s % 3600 == 60 * m + sec;
    assert s == 60 * (60 * h + m) + sec;
  }

  /** dt_get_frac_day is the day of the month plus the second of the day over 86400. */
  lemma FracDaySplit(d: Date)
    ensures FracDay(d) == d.mday as real + SecondOfDay(d) as real / 86400.0
  {
  }

  /**
   * Between the two calendars dates move: the Julian 1700-01-01 is sent to
   * JD 2341982.5 ...
   */
  lemma RoundTripGapForward()
    ensures DateToJd(Date(0, 0, 0, 1, 0, 1700 - 1900)) == Ok(2341982.5)
  {
    assert DaysOfYears(6415) == 2343078;
    assert DaysOfMonths(14) == 428;
  }

  /** ... and dt_jd_to_date reads every instant of that day as the Gregorian 1700-01-11. */
  lemma RoundTripGapBackward(jd: real)
    requires 2341982.5 <= jd < 2341983.5
    ensures var d := JdToDateFields(jd);
      d.mday == 11 && d.mon == 0 && d.year == 1700 - 1900
  {
    var Z := 2341983;
    assert Trunc(jd + 0.5) == Z;
    assert CenturyCount(Z) == 12;
    assert GregorianShift(Z) == 2341993;
    assert YearsOfDays(2341993 + 1524) == 6415;
    assert DaysOfYears(6415) == 2343078;
    assert MonthsOfDays(439) == 14;
    assert DaysOfMonths(14) == 428;
    JdToDateOfDay(jd, Z, 6415, 439, 14);
  }
}
