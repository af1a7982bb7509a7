/**
 * meeus/C/lib/datetime.c: comparison of dates, the Gregorian switch, leap
 * years, the Julian Day of a calendar date and back (chapter 7 of Meeus,
 * "Astronomical Algorithms"), day of the week and day of the year.
 *
 * A `struct tm` is a `Date` where a function only reads it, and a `Tm`
 * object where the library writes into the caller's structure. Both follow
 * the C conventions: `year` counts years since 1900 and `mon` runs 0..11.
 */
module DateTime {
  import opened Units
  import opened Util

  /** The struct tm fields that the library reads, in initializer order. */
  datatype Date = Date(sec: int, min: int, hour: int, mday: int, mon: int, year: int)

  /** Seconds per day, DT_SECS_PER_DAY. */
  const SecsPerDay: int := 86400

  /** 1852-11-04 00:00:00, the date from which dt_is_gregorian answers yes. */
  const GregorianSwitch: Date := Date(0, 0, 0, 4, 10, 1852 - 1900)

  /** -4712-01-01 12:00:00, Julian Day 0: earlier dates are rejected. */
  const JdEpoch: Date := Date(0, 0, 12, 1, 0, -4712 - 1900)

  /** a comes strictly before b in the order year, month, day, hour, minute, second. */
  predicate Earlier(a: Date, b: Date)
  {
    a.year < b.year
    || (a.year == b.year
        && (a.mon < b.mon
            || (a.mon == b.mon
                && (a.mday < b.mday
                    || (a.mday == b.mday
                        && (a.hour < b.hour
                            || (a.hour == b.hour
                                && (a.min < b.min || (a.min == b.min && a.sec < b.sec)))))))))
  }

  /**
   * dt_cmpdate: 0 for equal dates, otherwise the difference of the first
   * field, from the year down to the second, in which they differ.
   */
  function CmpDate(d1: Date, d2: Date): (c: int)
    ensures c == 0 <==> d1 == d2
    ensures c < 0 <==> Earlier(d1, d2)
    ensures c > 0 <==> Earlier(d2, d1)
  {
    if d1.year == d2.year then
      if d1.mon == d2.mon then
        if d1.mday == d2.mday then
          if d1.hour == d2.hour then
            if d1.min == d2.min then
              if d1.sec == d2.sec then 0
              else d1.sec - d2.sec
            else d1.min - d2.min
          else d1.hour - d2.hour
        else d1.mday - d2.mday
      else d1.mon - d2.mon
    else d1.year - d2.year
  }

  /** Swapping the arguments negates the comparison. */
  lemma CmpDateAntisymmetric(d1: Date, d2: Date)
    ensures CmpDate(d1, d2) == -CmpDate(d2, d1)
  {
  }

  /** The order dt_cmpdate decides is transitive. */
  lemma EarlierTransitive(a: Date, b: Date, c: Date)
    requires Earlier(a, b) && Earlier(b, c)
    ensures Earlier(a, c)
  {
  }

  /** dt_is_gregorian: on or after 1852-11-04 00:00:00. */
  function IsGregorian(d: Date): (g: bool)
    ensures g <==> !Earlier(d, GregorianSwitch)
  {
    CmpDate(d, GregorianSwitch) >= 0
  }

  /**
   * dt_is_leap: every fourth year up to 1582; after 1582 century years only
   * when divisible by 400.
   */
  function IsLeap(year: int): (leap: bool)
    ensures year <= 1582 ==> (leap <==> year % 4 == 0)
    ensures year > 1582 ==> (leap <==> year % 4 == 0 && (year % 100 != 0 || year % 400 == 0))
  {
    CModZero(year);
    if CMod(year, 4) == 0 then
      if year <= 1582 then true
      else CMod(year, 100) != 0 || CMod(year, 400) == 0
    else false
  }

  /** The seconds since midnight that the time fields of a date stand for. */
  function SecondOfDay(d: Date): int
  {
    3600 * d.hour + 60 * d.min + d.sec
  }

  /** dt_get_frac_day: the day of the month plus the elapsed fraction of the day. */
  function FracDay(d: Date): (f: real)
    ensures 0 <= SecondOfDay(d) < SecsPerDay ==> d.mday as real <= f < d.mday as real + 1.0
  {
    d.mday as real + (3600.0 * d.hour as real + 60.0 * d.min as real + d.sec as real) / 86400.0
  }

  /** (int)(365.25 * y): the days in y Julian years, counted from a year 0. */
  function DaysOfYears(y: int): int
  {
    Trunc(365.25 * y as real)
  }

  /** (int)(30.6001 * k): the days before month k of a year that starts in March. */
  function DaysOfMonths(k: int): int
  {
    Trunc(30.6001 * k as real)
  }

  /** (int)((B - 122.1) / 365.25): the Julian year count of day number B. */
  function YearsOfDays(B: int): int
  {
    Trunc((B as real - 122.1) / 365.25)
  }

  /** (int)(n / 30.6001): the month count of the n-th day of a March year. */
  function MonthsOfDays(n: int): int
  {
    Trunc(n as real / 30.6001)
  }

  /** (int)(F * DT_SECS_PER_DAY): the whole seconds in a fraction of a day. */
  function SecondsOfFraction(F: real): int
  {
    Trunc(F * 86400.0)
  }

  /** Julian Day of a date that dt_date_to_jd accepts. */
  function JdValue(d: Date): real
  {
    var M0 := d.mon + 1;
    var Y0 := 1900 + d.year;
    var Y := if M0 <= 2 then Y0 - 1 else Y0;
    var M := if M0 <= 2 then M0 + 12 else M0;
    var A := CDiv(Y, 100);
    var B := if IsGregorian(d) then 2 - A + CDiv(A, 4) else 0;
    (DaysOfYears(Y + 4716) + DaysOfMonths(M + 1)) as real
      + FracDay(d) + B as real - 1524.5
  }

  /**
   * dt_date_to_jd: dates before -4712-01-01 12:00 are a range error;
   * Julian-calendar arithmetic before 1852-11-04, Gregorian from then on.
   */
  function DateToJd(d: Date): (r: Result<real>)
    ensures r.Fail? <==> Earlier(d, JdEpoch)
    ensures r.Fail? ==> r.error == InvalidRange
    ensures r.Ok? ==> r.value == JdValue(d)
  {
    if CmpDate(d, JdEpoch) < 0 then Fail(InvalidRange) else Ok(JdValue(d))
  }

  /** The first instant accepted is Julian Day 0. */
  lemma DateToJdEpoch()
    ensures DateToJd(JdEpoch) == Ok(0.0)
  {
    assert DaysOfYears(3) == 1095;
    assert DaysOfMonths(14) == 428;
  }

  /** Meeus example 7.a: 1957-10-04 19:29 is JD 2436116.31 to two decimals. */
  lemma DateToJdSputnik()
    ensures DateToJd(Date(0, 29, 19, 4, 9, 57)).Ok?
    ensures var jd := DateToJd(Date(0, 29, 19, 4, 9, 57)).value;
      2436116.305 <= jd < 2436116.315
  {
    assert DaysOfYears(6673) == 2437313;
    assert DaysOfMonths(11) == 336;
    assert CDiv(1957, 100) == 19 && CDiv(19, 4) == 4;
  }

  /** Meeus example 7.b: 333-01-27 12:00 is JD 1842713.0. */
  lemma DateToJd333()
    ensures DateToJd(Date(0, 0, 12, 27, 0, 333 - 1900)) == Ok(1842713.0)
  {
    assert DaysOfYears(5048) == 1843782;
    assert DaysOfMonths(14) == 428;
  }

  /** Meeus example 7.d: 1910-04-20 is JD 2418781.5 and 1986-02-09 is JD 2446470.5. */
  lemma DateToJdExamples()
    ensures DateToJd(Date(0, 0, 0, 20, 3, 10)) == Ok(2418781.5)
    ensures DateToJd(Date(0, 0, 0, 9, 1, 86)) == Ok(2446470.5)
  {
    assert DaysOfYears(6626) == 2420146;
    assert DaysOfMonths(5) == 153;
    assert CDiv(1910, 100) == 19 && CDiv(19, 4) == 4;
    assert DaysOfYears(6701) == 2447540;
    assert DaysOfMonths(15) == 459;
    assert CDiv(1985, 100) == 19;
  }

  /** A date whose fields are in their calendar ranges, with February 29 only in a dt_is_leap year. */
  predicate ValidDate(d: Date)
  {
    0 <= d.mon < 12 && 1 <= d.mday <= DaysInMonth(d.mon, IsLeap(d.year + 1900))
    && 0 <= d.hour < 24 && 0 <= d.min < 60 && 0 <= d.sec < 60
  }

  /** The same calendar day at 0h, as dt_get_day_of_week builds it. */
  function Midnight(d: Date): Date
  {
    Date(0, 0, 0, d.mday, d.mon, d.year)
  }

  /**
   * dt_get_day_of_week: (int)(jd + 1.5) % 7 of the day's 0h Julian Day,
   * 0 being Sunday. On a range error jd keeps its initial 0, so 1 is written.
   */
  function DayOfWeek(d: Date): (r: (MErr, int))
    ensures r.0 == InvalidRange <==> Earlier(Midnight(d), JdEpoch)
    ensures r.0 == InvalidRange ==> r.1 == 1
    ensures r.0 == NoErr ==> r.1 == CMod(Trunc(JdValue(Midnight(d)) + 1.5), 7)
    ensures -7 < r.1 < 7
  {
    var res := DateToJd(Midnight(d));
    var jd := if res.Ok? then res.value else 0.0;
    (if res.Ok? then NoErr else res.error, CMod(Trunc(jd + 1.5), 7))
  }

  /** Meeus example 7.e: 1954-06-30 was a Wednesday. */
  lemma DayOfWeekExample()
    ensures DayOfWeek(Date(0, 0, 12, 30, 5, 54)) == (NoErr, 3)
  {
    assert DaysOfYears(6670) == 2436217;
    assert DaysOfMonths(7) == 214;
    assert CDiv(1954, 100) == 19;
    assert JdValue(Date(0, 0, 0, 30, 5, 54)) == 2434923.5;
  }

  /**
   * dt_get_day_of_year: (int)(275 M / 9) - K (int)((M + 9) / 12) + day - 30,
   * with K = 1 in a leap year and 2 otherwise. It never fails.
   */
  function DayOfYear(d: Date): (r: (MErr, int))
    ensures r.0 == NoErr
  {
    var K := if IsLeap(d.year + 1900) then 1 else 2;
    var M := d.mon + 1;
    (NoErr, CDiv(275 * M, 9) - K * CDiv(M + 9, 12) + d.mday - 30)
  }

  /** The length of month mon (0..11) in a year that is leap or not. */
  function DaysInMonth(mon: int, leap: bool): int
    requires 0 <= mon < 12
  {
    if mon == 1 then (if leap then 29 else 28)
    else if mon == 3 || mon == 5 || mon == 8 || mon == 10 then 30
    else 31
  }

  /** The number of days in the months before month mon. */
  function DaysBefore(mon: int, leap: bool): int
    requires 0 <= mon < 12
  {
    if mon == 0 then 0 else DaysBefore(mon - 1, leap) + DaysInMonth(mon - 1, leap)
  }

  /** The first of each month follows the last day of the month before. */
  lemma DayOfYearNextMonth(d: Date)
    requires 0 <= d.mon < 11
    ensures DayOfYear(d.(mon := d.mon + 1)).1
      == DayOfYear(d).1 + DaysInMonth(d.mon, IsLeap(d.year + 1900))
  {
    if d.mon == 0 { } else if d.mon == 1 { } else if d.mon == 2 { } else if d.mon == 3 { }
    else if d.mon == 4 { } else if d.mon == 5 { } else if d.mon == 6 { } else if d.mon == 7 { }
    else if d.mon == 8 { } else if d.mon == 9 { } else { }
  }

  /** The day of the year counts the days of the earlier months plus the day of the month. */
  lemma {:induction false} DayOfYearCountsDays(d: Date)
    requires 0 <= d.mon < 12
    ensures DayOfYear(d).1 == DaysBefore(d.mon, IsLeap(d.year + 1900)) + d.mday
    decreases d.mon
  {
    if d.mon > 0 {
      var prev := d.(mon := d.mon - 1);
      DayOfYearCountsDays(prev);
      DayOfYearNextMonth(prev);
      assert prev.(mon := prev.mon + 1) == d;
    }
  }

  /** Meeus examples 7.f and 7.g: 1978-11-14 is day 318 and 1988-04-22 is day 113. */
  lemma DayOfYearExamples()
    ensures DayOfYear(Date(0, 0, 0, 14, 10, 78)) == (NoErr, 318)
    ensures DayOfYear(Date(0, 0, 0, 22, 3, 88)) == (NoErr, 113)
  {
  }

  /**
   * The date dt_jd_to_date writes for a Julian Day jd >= 0 (the day of the
   * week and of the year are written too; see Tm.JdToDate).
   */
  function JdToDateFields(jd: real): Date
    requires jd >= 0.0
  {
    var Z := Trunc(jd + 0.5);
    DayFields(GregorianShift(Z), SecondsOfFraction(jd + 0.5 - Z as real))
  }

  /**
   * The date of the day whose Julian-style day number is A, secs seconds
   * into the day: year count C, March-based month E and the day within it.
   */
  function DayFields(A: int, secs: int): Date
  {
    var B := A + 1524;
    var C := YearsOfDays(B);
    var D := DaysOfYears(C);
    var E := MonthsOfDays(B - D);
    var m := if E < 14 then E - 1 else E - 13;
    Date(CMod(secs, 60), CDiv(CMod(secs, 3600), 60), CDiv(secs, 3600),
         B - D - DaysOfMonths(E), m - 1,
         if m > 2 then C - 4716 - 1900 else C - 4715 - 1900)
  }

  /** JdToDateFields from the day number and the seconds of jd + 0.5. */
  lemma JdToDateFieldsOf(jd: real, Z: int, A: int, secs: int)
    requires jd >= 0.0 && Z == Trunc(jd + 0.5) && A == GregorianShift(Z)
    requires secs == SecondsOfFraction(jd + 0.5 - Z as real)
    ensures JdToDateFields(jd) == DayFields(A, secs)
  {
  }

  /**
   * The day number A of dt_jd_to_date: Z itself below 2299161, otherwise Z
   * corrected by the century leap days the Gregorian calendar drops.
   */
  function GregorianShift(Z: int): int
  {
    if Z < 2299161 then Z
    else
      var alpha := CenturyCount(Z);
      Z + 1 + alpha - CDiv(alpha, 4)
  }

  /** alpha = (int)((Z - 1867216.25) / 36524.25): Gregorian centuries since 400 CE, roughly. */
  function CenturyCount(Z: int): int
  {
    Trunc((Z as real - 1867216.25) / 36524.25)
  }

  /** The fraction of the day splits into an hour 0..23, a minute and a second 0..59. */
  lemma JdToDateTimeRanges(jd: real)
    requires jd >= 0.0
    ensures var d := JdToDateFields(jd);
      0 <= d.hour <= 23 && 0 <= d.min <= 59 && 0 <= d.sec <= 59
  {
    var jdi := jd + 0.5;
    var F := jdi - Trunc(jdi) as real;
    assert 0.0 <= F < 1.0;
    var secs := SecondsOfFraction(F);
    assert 0 <= secs < 86400;
  }

  /** Whatever jd >= 0, the month written is in 0..11. */
  lemma JdToDateMonthRange(jd: real)
    requires jd >= 0.0
    ensures 0 <= JdToDateFields(jd).mon <= 11
  {
    var jdi := jd + 0.5;
    var Z := Trunc(jdi);
    var A := GregorianShift(Z);
    var B := A + 1524;
    assert B >= 1524;
    var C := YearsOfDays(B);
    assert C >= 0;
    assert 365.25 * C as real <= B as real - 122.1 < 365.25 * C as real + 365.25;
    var D := DaysOfYears(C);
    assert 123 <= B - D <= 488;
    var E := MonthsOfDays(B - D);
    assert 4 <= E <= 15;
  }

  /** Meeus example 7.c: JD 2436116.31 is 1957-10-04 19:26. */
  lemma JdToDateSputnik()
    ensures var d := JdToDateFields(2436116.31);
      d.mday == 4 && d.mon == 9 && d.year == 57 && d.hour == 19 && d.min == 26
  {
    var Z := Trunc(2436116.81);
    assert Z == 2436116;
    assert CenturyCount(Z) == 15;
    var B := GregorianShift(Z) + 1524;
    assert B == 2437653;
    var C := YearsOfDays(B);
    assert C == 6673;
    var D := DaysOfYears(C);
    assert D == 2437313;
    var E := MonthsOfDays(B - D);
    assert E == 11;
    assert DaysOfMonths(11) == 336;
    var secs := SecondsOfFraction(2436116.81 - 2436116.0);
    assert secs == 69984;
  }

  /** A struct tm that the library writes into. */
  class Tm {
    var sec: int
    var min: int
    var hour: int
    var mday: int
    var mon: int
    var year: int
    var wday: int
    var yday: int
    var isdst: int

    /** The fields that dt_cmpdate and dt_date_to_jd read. */
    function Fields(): Date
      reads this
    {
      Date(sec, min, hour, mday, mon, year)
    }

    /**
     * dt_jd_to_date: fails for jd < 0 and writes nothing; otherwise writes
     * the date, the day of the week (int)(jd + 1.5) % 7 and the day of the
     * year. tm_isdst is left alone.
     */
    method JdToDate(jd: real) returns (err: MErr)
      modifies this`sec, this`min, this`hour, this`mday, this`mon, this`year, this`wday, this`yday
      ensures jd < 0.0 ==> err == InvalidRange && unchanged(this)
      ensures jd >= 0.0 ==> err == NoErr && Fields() == JdToDateFields(jd)
      ensures jd >= 0.0 ==> wday == CMod(Trunc(jd + 1.5), 7)
      ensures jd >= 0.0 ==> yday == DayOfYear(JdToDateFields(jd)).1
    {
      if jd < 0.0 {
        return InvalidRange;
      }
      var Z := Trunc(jd + 0.5);
      var A := GregorianShift(Z);
      var secs := SecondsOfFraction(jd + 0.5 - Z as real);
      var d := DayFields(A, secs);
      JdToDateFieldsOf(jd, Z, A, secs);
      var doy := DayOfYear(d);
      sec, min, hour, mday, mon, year := d.sec, d.min, d.hour, d.mday, d.mon, d.year;
      wday := CMod(Trunc(jd + 1.5), 7);
      yday := doy.1;
      err := doy.0;
    }

    /** dt_set_day_of_week: stores dt_get_day_of_week's result in tm_wday. */
    method SetDayOfWeek() returns (err: MErr)
      modifies this`wday
      ensures (err, wday) == DayOfWeek(Fields())
    {
      var dow := DayOfWeek(Fields());
      err := dow.0;
      wday := dow.1;
    }
  }
}
