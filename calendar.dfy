/**
 * meeus/C/lib/calendar.c: the date of Christian Easter Sunday (chapter 8 of
 * Meeus), by the Gregorian computus after 1582 and the Julian one up to
 * 1582 included. All arithmetic is C integer arithmetic.
 */
module Calendar {
  import opened Units
  import opened Util
  import opened DateTime
  import opened DateTimeRoundTrip

  /**
   * h of the Gregorian computus: the epact-like day count from the golden
   * number a and the century b, with d = b / 4, f = (b + 8) / 25 and
   * g = (b - f + 1) / 3.
   */
  function GregorianMoon(a: int, b: int): int
  {
    var d := CDiv(b, 4);
    var f := CDiv(b + 8, 25);
    var g := CDiv(b - f + 1, 3);
    CMod(19 * a + b - d - g + 15, 30)
  }

  /**
   * l of the Gregorian computus: the days from h to the next Sunday, with
   * e = b % 4, i = c / 4 and k = c % 4 for the year c within the century.
   */
  function GregorianWeekday(b: int, c: int, h: int): int
  {
    var e := CMod(b, 4);
    var i := CDiv(c, 4);
    var k := CMod(c, 4);
    CMod(32 + 2 * e + 2 * i - h - k, 7)
  }

  /** The day counter o = h + l - 7 m + 114 of the Gregorian computus. */
  function GregorianComputus(year: int): int
  {
    var a := CMod(year, 19);
    var b := CDiv(year, 100);
    var c := CMod(year, 100);
    var h := GregorianMoon(a, b);
    var l := GregorianWeekday(b, c, h);
    var m := CDiv(a + 11 * h + 22 * l, 451);
    h + l - 7 * m + 114
  }

  /** The day counter h = d + e + 114 of the Julian computus. */
  function JulianComputus(year: int): int
  {
    var a := CMod(year, 4);
    var b := CMod(year, 7);
    var c := CMod(year, 19);
    var d := CMod(19 * c + 15, 30);
    var e := CMod(2 * a + 4 * b - d + 34, 7);
    d + e + 114
  }

  /** The count of days from March 0 of the form 31 * month + day - 1. */
  function EasterCounter(year: int): int
  {
    if year > 1582 then GregorianComputus(year) else JulianComputus(year)
  }

  /**
   * cal_get_easter: (error, month 1..12, day 1..31). It never fails; for years
   * from 0 on Easter falls between March 22 and April 25 in either calendar.
   */
  function Easter(year: int): (r: (MErr, int, int))
    ensures r.0 == NoErr
    ensures year >= 0 ==> (r.1 == 3 && 22 <= r.2 <= 31) || (r.1 == 4 && 1 <= r.2 <= 25)
  {
    var o := EasterCounter(year);
    var r := (NoErr, CDiv(o, 31), CMod(o, 31) + 1);
    if year >= 0 then EasterCounterRange(year); r else r
  }

  /** The counter lies between 114 (March 22) and 148 (April 25). */
  lemma EasterCounterRange(year: int)
    requires year >= 0
    ensures 114 <= EasterCounter(year) <= 148
  {
    if year > 1582 {
      GregorianCounterRange(year);
    } else {
      JulianCounterRange(year);
    }
  }

  lemma GregorianCounterRange(year: int)
    requires year > 1582
    ensures 114 <= GregorianComputus(year) <= 148
  {
    var a, b, c := CMod(year, 19), CDiv(year, 100), CMod(year, 100);
    assert 0 <= a < 19 && b >= 15 && 0 <= c < 100 by {
      CDivCMod(year, 19);
      CDivCMod(year, 100);
    }
    GregorianComputusSteps(year);
    GregorianStepRanges(a, b, c);
    var h := GregorianMoon(a, b);
    var l := GregorianWeekday(b, c, h);
    var m := CDiv(a + 11 * h + 22 * l, 451);
    assert m == 0 || m == 1 by {
      CDivCMod(a + 11 * h + 22 * l, 451);
    }
    if m == 1 {
      assert l == 6 && h >= 28 by {
        CDivCMod(a + 11 * h + 22 * l, 451);
      }
    }
  }

  lemma JulianCounterRange(year: int)
    requires year >= 0
    ensures 114 <= JulianComputus(year) <= 148
  {
    JulianComputusSteps(year);
    var c := CMod(year, 19);
    assert 0 <= c < 19 by {
      CDivCMod(year, 19);
    }
    var d := CMod(19 * c + 15, 30);
    var q := CDiv(19 * c + 15, 30);
    assert 19 * c + 15 == 30 * q + d && 0 <= d < 30 by {
      CDivCMod(19 * c + 15, 30);
    }
    JulianEpactBound(c, q, d);
    var x := 2 * CMod(year, 4) + 4 * CMod(year, 7) - d + 34;
    assert 0 <= CMod(x, 7) < 7 by {
      CDivCMod(year, 4);
      CDivCMod(year, 7);
      CDivCMod(x, 7);
    }
  }

  /** 19 c = 30 q + 14 has no solution with c in 0..18, so d is never 29. */
  lemma JulianEpactBound(c: int, q: int, d: int)
    requires 0 <= c < 19 && 19 * c + 15 == 30 * q + d && 0 <= d < 30
    ensures d <= 28
  {
  }

  /** For a year after 1582, h lies in 0..29 and l in 0..6. */
  lemma GregorianStepRanges(a: int, b: int, c: int)
    requires 0 <= a < 19 && b >= 15 && 0 <= c < 100
    ensures 0 <= GregorianMoon(a, b) < 30
    ensures 0 <= GregorianWeekday(b, c, GregorianMoon(a, b)) < 7
  {
    GregorianMoonRange(a, b);
    GregorianWeekdayRange(b, c, GregorianMoon(a, b));
  }

  lemma GregorianMoonRange(a: int, b: int)
    requires 0 <= a < 19 && b >= 0
    ensures 0 <= GregorianMoon(a, b) < 30
  {
    var d, f := CDiv(b, 4), CDiv(b + 8, 25);
    CDivCMod(b, 4);
    CDivCMod(b + 8, 25);
    var g := CDiv(b - f + 1, 3);
    CDivCMod(b - f + 1, 3);
    CDivCMod(19 * a + b - d - g + 15, 30);
  }

  lemma GregorianWeekdayRange(b: int, c: int, h: int)
    requires b >= 0 && 0 <= c < 100 && 0 <= h < 30
    ensures 0 <= GregorianWeekday(b, c, h) < 7
  {
    CDivCMod(b, 4);
    CDivCMod(c, 4);
    var e, i, k := CMod(b, 4), CDiv(c, 4), CMod(c, 4);
    CDivCMod(32 + 2 * e + 2 * i - h - k, 7);
  }

  /** The 0h date, as a struct tm, of day counter o (114..148) of a year. */
  function CounterDate(year: int, o: int): Date
  {
    Date(0, 0, 0, CMod(o, 31) + 1, CDiv(o, 31) - 1, year - 1900)
  }

  /** The 0h date of Easter Sunday of a year. */
  function EasterDate(year: int): Date
  {
    CounterDate(year, EasterCounter(year))
  }

  /** B of dt_date_to_jd in a Gregorian year: 2 - A + A / 4 with A = year / 100. */
  function GregorianCorrection(year: int): int
  {
    var A := CDiv(year, 100);
    2 - A + CDiv(A, 4)
  }

  /**
   * The day number (int)(jd + 1.5) of day counter o of a year, for a
   * calendar correction B: 365 days a year and a leap day every fourth year
   * from -4716, plus the days from March 0.
   */
  function DayCount(year: int, o: int, B: int): int
  {
    365 * (year + 4716) + (year + 4716) / 4 + o + 30 + B - 1523
  }

  /**
   * dt_date_to_jd on a date in March or April: the Julian calendar up to 1852
   * and the Gregorian one from 1853 on.
   */
  lemma CounterDayNumber(year: int, o: int)
    requires year >= 0 && 114 <= o <= 148
    ensures DateToJd(CounterDate(year, o)).Ok?
    ensures IsGregorian(CounterDate(year, o)) <==> year >= 1853
    ensures Trunc(JdValue(CounterDate(year, o)) + 1.5)
      == DayCount(year, o, if year >= 1853 then GregorianCorrection(year) else 0)
  {
    var d := CounterDate(year, o);
    CDivCMod(o, 31);
    DaysOfYearsExact(year + 4716);
    if o <= 123 {
      assert d.mon == 2 && d.mday == o - 92;
      DaysOfMonthsTable(4);
    } else {
      assert d.mon == 3 && d.mday == o - 123;
      DaysOfMonthsTable(5);
    }
    var N := DayCount(year, o, if year >= 1853 then GregorianCorrection(year) else 0);
    assert JdValue(d) + 1.5 == N as real;
  }

  /** dt_get_day_of_week succeeds on a 0h date that dt_date_to_jd accepts. */
  lemma MidnightWeekdayOk(d: Date)
    requires DateToJd(d).Ok? && d.hour == 0 && d.min == 0 && d.sec == 0
    ensures DayOfWeek(d).0 == NoErr
  {
    assert Midnight(d) == d;
  }

  /** The weekday of a 0h date is its day number modulo 7. */
  lemma MidnightWeekdayValue(d: Date, N: int)
    requires DateToJd(d).Ok? && d.hour == 0 && d.min == 0 && d.sec == 0
    requires Trunc(JdValue(d) + 1.5) == N && N >= 0
    ensures DayOfWeek(d).1 == N % 7
  {
    assert Midnight(d) == d;
    CDivCMod(N, 7);
  }

  /** The weekday of a counter date is its day number modulo 7. */
  lemma CounterDateWeekday(year: int, o: int)
    requires year >= 0 && 114 <= o <= 148
    ensures DayOfWeek(CounterDate(year, o))
      == (NoErr, DayCount(year, o, if year >= 1853 then GregorianCorrection(year) else 0) % 7)
  {
    var d := CounterDate(year, o);
    var N := DayCount(year, o, if year >= 1853 then GregorianCorrection(year) else 0);
    assert DateToJd(d).Ok? && Trunc(JdValue(d) + 1.5) == N by {
      CounterDayNumber(year, o);
    }
    MidnightWeekdayOk(d);
    MidnightWeekdayValue(d, N);
  }

  /** The Gregorian counter in terms of the values of its steps. */
  lemma GregorianComputusSteps(year: int)
    ensures var a, b, c := CMod(year, 19), CDiv(year, 100), CMod(year, 100);
      var h := GregorianMoon(a, b);
      var l := GregorianWeekday(b, c, h);
      GregorianComputus(year) == h + l - 7 * CDiv(a + 11 * h + 22 * l, 451) + 114
      && l == CMod(32 + 2 * CMod(b, 4) + 2 * CDiv(c, 4) - h - CMod(c, 4), 7)
  {
  }

  lemma MultipleOfSeven(n: int, k: int)
    requires n == 7 * k
    ensures n % 7 == 0
  {
  }

  /** The day-count identity behind the Gregorian computus, in the steps' values. */
  lemma GregorianSundayCore(year: int, b: int, d: int, e: int, i: int, k: int,
                            h: int, l: int, q: int, m: int, p: int, o: int, N: int)
    requires year == 100 * b + 4 * i + k && b == 4 * d + e && year + 4716 == 4 * p + k
    requires 32 + 2 * e + 2 * i - h - k == 7 * q + l && o == h + l - 7 * m + 114
    requires N == 365 * (year + 4716) + p + o + 32 - b + d - 1523
    ensures N % 7 == 0
  {
    var K := 20871 * d + 5218 * e + 209 * i + 52 * k - q - m + 245882;
    assert N == 7 * K;
    MultipleOfSeven(N, K);
  }

  /**
   * In the Gregorian calendar the day count of the counter's date is a
   * multiple of 7: the date is a Sunday.
   */
  lemma GregorianSundayArithmetic(year: int)
    requires year > 1582
    ensures DayCount(year, GregorianComputus(year), GregorianCorrection(year)) % 7 == 0
  {
    var a, b, c := CMod(year, 19), CDiv(year, 100), CMod(year, 100);
    assert year == 100 * b + c && 0 <= a < 19 && b >= 15 && 0 <= c < 100 by {
      CDivCMod(year, 19);
      CDivCMod(year, 100);
    }
    GregorianStepRanges(a, b, c);
    GregorianComputusSteps(year);
    var h := GregorianMoon(a, b);
    var l := GregorianWeekday(b, c, h);
    var m := CDiv(a + 11 * h + 22 * l, 451);
    var d, e := CDiv(b, 4), CMod(b, 4);
    assert b == 4 * d + e by { CDivCMod(b, 4); }
    var i, k := CDiv(c, 4), CMod(c, 4);
    assert c == 4 * i + k && 0 <= k < 4 by { CDivCMod(c, 4); }
    var x := 32 + 2 * e + 2 * i - h - k;
    var q := CDiv(x, 7);
    assert x == 7 * q + l by { CDivCMod(x, 7); }
    var p := 25 * b + i + 1179;
    QuarterOf(year + 4716, p, k);
    GregorianSundayCore(year, b, d, e, i, k, h, l, q, m, p, GregorianComputus(year),
                        DayCount(year, GregorianComputus(year), GregorianCorrection(year)));
  }

  /** Euclidean division by 4, from a quotient and remainder. */
  lemma QuarterOf(x: int, q: int, r: int)
    requires x == 4 * q + r && 0 <= r < 4
    ensures x / 4 == q
  {
  }

  /** The Julian counter in terms of the values of its steps. */
  lemma JulianComputusSteps(year: int)
    ensures var a, b, c := CMod(year, 4), CMod(year, 7), CMod(year, 19);
      var d := CMod(19 * c + 15, 30);
      JulianComputus(year) == d + CMod(2 * a + 4 * b - d + 34, 7) + 114
  {
  }

  /** The day-count identity behind the Julian computus, in the steps' values. */
  lemma JulianSundayCore(year: int, a: int, b: int, d: int, e: int,
                         p: int, r: int, u: int, o: int, N: int)
    requires year == 4 * p + a && year == 7 * r + b
    requires 2 * a + 4 * b - d + 34 == 7 * u + e && o == d + e + 114
    requires N == 365 * (year + 4716) + p + 1179 + o + 30 - 1523
    ensures N % 7 == 0
  {
    var K := 52 * year + 10 * r + 2 * a + 6 * b - (year + p + 2 * a + 4 * b) - u + 245882;
    assert N == 7 * K;
    MultipleOfSeven(N, K);
  }

  /**
   * In the Julian calendar the day count of the counter's date is a
   * multiple of 7: the date is a Sunday.
   */
  lemma JulianSundayArithmetic(year: int)
    requires year >= 0
    ensures DayCount(year, JulianComputus(year), 0) % 7 == 0
  {
    var a, b, c := CMod(year, 4), CMod(year, 7), CMod(year, 19);
    var p, r := CDiv(year, 4), CDiv(year, 7);
    assert year == 4 * p + a && year == 7 * r + b && 0 <= a < 4 && 0 <= b < 7 && 0 <= c < 19 by {
      CDivCMod(year, 4);
      CDivCMod(year, 7);
      CDivCMod(year, 19);
    }
    JulianComputusSteps(year);
    var d := CMod(19 * c + 15, 30);
    var x := 2 * a + 4 * b - d + 34;
    var u, e := CDiv(x, 7), CMod(x, 7);
    assert x == 7 * u + e by { CDivCMod(x, 7); }
    QuarterOf(year + 4716, p + 1179, a);
    JulianSundayCore(year, a, b, d, e, p, r, u, JulianComputus(year), DayCount(year, JulianComputus(year), 0));
  }

  /**
   * The Gregorian computus yields a Sunday, as dt_get_day_of_week counts
   * days, in every year from 1853 on (dt_is_gregorian switches calendars on
   * 1852-11-04).
   */
  lemma GregorianEasterIsSunday(year: int)
    requires year >= 1853
    ensures DayOfWeek(EasterDate(year)) == (NoErr, 0)
  {
    var o := GregorianComputus(year);
    assert EasterDate(year) == CounterDate(year, o);
    GregorianCounterRange(year);
    GregorianSundayArithmetic(year);
    CounterDateWeekday(year, o);
  }

  /** The Julian computus yields a Sunday in every year from 0 to 1582. */
  lemma JulianEasterIsSunday(year: int)
    requires 0 <= year <= 1582
    ensures DayOfWeek(EasterDate(year)) == (NoErr, 0)
  {
    var o := JulianComputus(year);
    assert EasterDate(year) == CounterDate(year, o);
    JulianCounterRange(year);
    JulianSundayArithmetic(year);
    CounterDateWeekday(year, o);
  }

  /** In the Julian calendar Easter repeats every 532 = 4 * 7 * 19 years. */
  lemma JulianEasterCycle(year: int)
    requires 0 <= year && year + 532 <= 1582
    ensures Easter(year + 532) == Easter(year)
  {
    JulianComputusCycle(year);
    var o := JulianComputus(year);
    assert EasterCounter(year + 532) == o;
    assert EasterCounter(year) == o;
    EasterOfCounter(year + 532, year);
  }

  /** Easter is a function of the counter alone. */
  lemma EasterOfCounter(y1: int, y2: int)
    requires EasterCounter(y1) == EasterCounter(y2)
    ensures Easter(y1) == Easter(y2)
  {
  }

  /** The Julian computus reads the year only modulo 4, 7 and 19. */
  lemma JulianComputusCycle(year: int)
    requires year >= 0
    ensures JulianComputus(year + 532) == JulianComputus(year)
  {
    assert CMod(year + 532, 4) == CMod(year, 4) by {
      CDivCMod(year, 4);
      CDivCMod(year + 532, 4);
    }
    assert CMod(year + 532, 7) == CMod(year, 7) by {
      CDivCMod(year, 7);
      CDivCMod(year + 532, 7);
    }
    assert CMod(year + 532, 19) == CMod(year, 19) by {
      CDivCMod(year, 19);
      CDivCMod(year + 532, 19);
    }
  }

  /** h of the Gregorian computus, from the quotient and remainder of every step. */
  lemma GregorianMoonAt(a: int, b: int, d: int, f: int, g: int, h: int,
                        rd: int, rf: int, rg: int, q: int)
    requires b >= 0 && b == 4 * d + rd && 0 <= rd < 4
    requires b + 8 == 25 * f + rf && 0 <= rf < 25
    requires b - f + 1 >= 0 && b - f + 1 == 3 * g + rg && 0 <= rg < 3
    requires 19 * a + b - d - g + 15 >= 0 && 19 * a + b - d - g + 15 == 30 * q + h && 0 <= h < 30
    ensures GregorianMoon(a, b) == h
  {
    CDivOf(b, 4, d, rd);
    CDivOf(b + 8, 25, f, rf);
    CDivOf(b - f + 1, 3, g, rg);
    CDivOf(19 * a + b - d - g + 15, 30, q, h);
  }

  /** l of the Gregorian computus, from the quotient and remainder of every step. */
  lemma GregorianWeekdayAt(b: int, c: int, h: int, e: int, i: int, k: int, l: int, qb: int, q: int)
    requires b >= 0 && b == 4 * qb + e && 0 <= e < 4
    requires c >= 0 && c == 4 * i + k && 0 <= k < 4
    requires 32 + 2 * e + 2 * i - h - k >= 0 && 32 + 2 * e + 2 * i - h - k == 7 * q + l && 0 <= l < 7
    ensures GregorianWeekday(b, c, h) == l
  {
    CDivOf(b, 4, qb, e);
    CDivOf(c, 4, i, k);
    CDivOf(32 + 2 * e + 2 * i - h - k, 7, q, l);
  }

  /** The Gregorian counter and Easter of a year, from the value of every step. */
  lemma GregorianEasterAt(year: int, a: int, b: int, c: int, h: int, l: int, m: int,
                          qa: int, rm: int, month: int, day: int)
    requires year > 1582 && year == 19 * qa + a && 0 <= a < 19 && year == 100 * b + c && 0 <= c < 100
    requires GregorianMoon(a, b) == h && GregorianWeekday(b, c, h) == l
    requires a + 11 * h + 22 * l >= 0 && a + 11 * h + 22 * l == 451 * m + rm && 0 <= rm < 451
    requires h + l - 7 * m + 114 >= 0 && h + l - 7 * m + 114 == 31 * month + day - 1 && 1 <= day <= 31
    ensures Easter(year) == (NoErr, month, day)
  {
    CDivOf(year, 19, qa, a);
    CDivOf(year, 100, b, c);
    CDivOf(a + 11 * h + 22 * l, 451, m, rm);
    assert GregorianComputus(year) == h + l - 7 * m + 114;
    CDivOf(h + l - 7 * m + 114, 31, month, day - 1);
  }

  /** Gregorian Easter of 1991, the first example of Meeus chapter 8. */
  lemma EasterOf1991()
    ensures Easter(1991) == (NoErr, 3, 31)
  {
    GregorianMoonAt(15, 19, 4, 1, 6, 9, 3, 2, 1, 10);
    GregorianWeekdayAt(19, 91, 9, 3, 22, 3, 0, 4, 10);
    GregorianEasterAt(1991, 15, 19, 91, 9, 0, 0, 104, 114, 3, 31);
  }

  /** Gregorian Easter of 1954, a year in which the correction m is 1. */
  lemma EasterOf1954()
    ensures Easter(1954) == (NoErr, 4, 18)
  {
    GregorianMoonAt(16, 19, 4, 1, 6, 28, 3, 2, 1, 10);
    GregorianWeekdayAt(19, 54, 28, 3, 13, 2, 6, 4, 4);
    GregorianEasterAt(1954, 16, 19, 54, 28, 6, 1, 102, 5, 4, 18);
  }

  /** Gregorian Easter of 1818, the earliest possible date, March 22. */
  lemma EasterOf1818()
    ensures Easter(1818) == (NoErr, 3, 22)
  {
    GregorianMoonAt(13, 18, 4, 1, 6, 0, 2, 1, 0, 9);
    GregorianWeekdayAt(18, 18, 0, 2, 4, 2, 0, 4, 6);
    GregorianEasterAt(1818, 13, 18, 18, 0, 0, 0, 95, 13, 3, 22);
  }

  /** Gregorian Easter of 1967. */
  lemma EasterOf1967()
    ensures Easter(1967) == (NoErr, 3, 26)
  {
    GregorianMoonAt(10, 19, 4, 1, 6, 4, 3, 2, 1, 7);
    GregorianWeekdayAt(19, 67, 4, 3, 16, 3, 0, 4, 9);
    GregorianEasterAt(1967, 10, 19, 67, 4, 0, 0, 103, 54, 3, 26);
  }

  /** Gregorian Easter of 1992. */
  lemma EasterOf1992()
    ensures Easter(1992) == (NoErr, 4, 19)
  {
    GregorianMoonAt(16, 19, 4, 1, 6, 28, 3, 2, 1, 10);
    GregorianWeekdayAt(19, 92, 28, 3, 23, 0, 0, 4, 8);
    GregorianEasterAt(1992, 16, 19, 92, 28, 0, 0, 104, 324, 4, 19);
  }

  /** Gregorian Easter of 2000. */
  lemma EasterOf2000()
    ensures Easter(2000) == (NoErr, 4, 23)
  {
    GregorianMoonAt(5, 20, 5, 1, 6, 29, 0, 3, 2, 3);
    GregorianWeekdayAt(20, 0, 29, 0, 0, 0, 3, 5, 0);
    GregorianEasterAt(2000, 5, 20, 0, 29, 3, 0, 105, 390, 4, 23);
  }

  /** Meeus chapter 8: Julian Easter of 711 is April 12. */
  lemma EasterOf711()
    ensures Easter(711) == (NoErr, 4, 12)
  {
    assert CMod(711, 4) == 3 && CMod(711, 7) == 4 && CMod(711, 19) == 8;
    assert CMod(19 * 8 + 15, 30) == 17 && CMod(2 * 3 + 4 * 4 - 17 + 34, 7) == 4;
  }
}
