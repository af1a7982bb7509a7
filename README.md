# astro: the Meeus library, the VSOP87 generators and the sundial, in Dafny

This project models the computational core of the astro repository and proves properties of the model:

- the astronomical library in C after Jean Meeus, *Astronomical Algorithms* (`meeus/C/lib/*.c` with
  `meeus/C/include/meeus.h`): unit conversions, polynomials and range reduction, calendar dates and
  Julian Days, the date of Easter, delta T, nutation and obliquity, sidereal time, coordinate
  transforms, the VSOP87D series evaluator, the position of the Sun, equinoxes and solstices, Kepler's
  equation and the equation of time;
- the two Python scripts that turn VSOP87 data files into a C include file and into C test code;
- the sundial: `Sundial.__init__` and `compute_hour_lines` in `sundial/sundial.py`, and `push_point`
  and the geometry of `get_svg` in `sundial/svg.py`.

Doubles are real numbers. The math library (`sin`, `cos`, `tan`, `atan2`, `asin`, `sqrt`) and
`M_PI` are the fields of a value `Trig` that every function using them takes as a parameter; the
lemmas say what they assume of it (a positive pi, sine and cosine in [-1, 1], sine odd and cosine
even, sqrt a non-negative square root). C's `(int)` cast truncates toward zero and C's `/` and `%`
on integers truncate too; both are written out (`Trunc`, `CDiv`, `CMod`). A C function that returns
an `m_err_t` and writes through out-parameters is a function returning `Result<T>`: `Fail(InvalidRange)`
leaves nothing written. Where the C code fills a caller's `struct tm` or `struct eqx_s` field by
field, the model is a class whose method changes those fields. A loop in the source is a method with
a loop, proved equal to a function that states what the loop computes; the lemmas are about that
function.

One module per source file:

| file | module | source |
|---|---|---|
| units.dfy | Units | meeus/C/include/meeus.h |
| util.dfy | Util | meeus/C/lib/util.c |
| datetime.dfy, datetime_roundtrip.dfy | DateTime, DateTimeRoundTrip | meeus/C/lib/datetime.c |
| calendar.dfy | Calendar | meeus/C/lib/calendar.c |
| dynamical.dfy | Dynamical | meeus/C/lib/dynamical.c |
| ecliptic.dfy | Ecliptic | meeus/C/lib/ecliptic.c |
| sidereal.dfy | Sidereal | meeus/C/lib/sidereal.c |
| coordinates.dfy | Coordinates | meeus/C/lib/coordinates.c |
| vsop87.dfy | Vsop87 | meeus/C/lib/vsop87.c |
| sun.dfy | Sun | meeus/C/lib/sun.c |
| equinox.dfy | Equinox | meeus/C/lib/equinox.c |
| kepler.dfy | Kepler | meeus/C/lib/kepler.c |
| equation_time.dfy | EquationTime | meeus/C/lib/equation_time.c |
| py_text.dfy | PyText | Python's `str.split`, `int()` and `%` formatting, as the scripts use them |
| vsop87_include.dfy | Vsop87Include | meeus/C/lib/vsop87/create_vsop87_include.py |
| vsop87_test_gen.dfy | Vsop87TestGen | meeus/C/lib/vsop87/create_vsop87_test.py |
| sundial.dfy | Sundials | sundial/sundial.py |
| svg.dfy | SundialSvg | sundial/svg.py |

## Model

| member | source | states |
|---|---|---|
| Units.ErrCode | meeus/C/include/meeus.h:5-9 | M_NO_ERR is 0 and is the only code that is 0, so every `if (err)` means failure; M_INVALID_RANGE_ERR is 1 |
| Units.PlanetIndex | meeus/C/include/meeus.h:41-51 | MERCURY to NEPTUNE are numbered below 8, and PlanetOfIndex gives back the planet of each number |
| Units.PlanetIndexOnto | meeus/C/include/meeus.h:41-51 | every number from 0 to 7 is the number of one planet |
| Units.RadToDeg | meeus/C/include/meeus.h:16-17 | deg_to_rad undoes rad_to_deg |
| Units.DegToRadInverse | meeus/C/include/meeus.h:16-17 | rad_to_deg undoes deg_to_rad |
| Units.RadToDegOdd | meeus/C/include/meeus.h:16 | rad_to_deg(-x) = -rad_to_deg(x) |
| Units.DegArgIsDegToRad | meeus/C/include/meeus.h:12-17 | the radian argument that sind, cosd and tand pass on is deg_to_rad of the angle |
| Units.SindOddCosdEven | meeus/C/include/meeus.h:12-14 | sind and tand are odd and cosd is even when sin and tan are odd and cos is even |
| Units.TrigAtZero | meeus/C/include/meeus.h:12-14 | sind 0 = tand 0 = 0 and cosd 0 = 1 |
| Units.SindCosdBounded | meeus/C/include/meeus.h:12-13 | sind and cosd lie in [-1, 1] |
| Units.HmsToD | meeus/C/include/meeus.h:19-22 | hms_to_d(h, m, s) = s_to_deg(hms_to_s(h, m, s)) |
| Units.DmsToArcsec | meeus/C/include/meeus.h:23-26 | dms_to_arcsec(d, m, s) = 3600 dms_to_d(d, m, s) |
| Units.ArcsecToDeg | meeus/C/include/meeus.h:27-30 | deg_to_arcsec undoes arcsec_to_deg |
| Units.SToDeg | meeus/C/include/meeus.h:31-34 | deg_to_s undoes s_to_deg |
| Units.ArcsecToS | meeus/C/include/meeus.h:29-38 | s_to_arcsec undoes arcsec_to_s, and arcsec_to_s(a) = deg_to_s(arcsec_to_deg(a)) |
| Units.ConversionsInvert | meeus/C/include/meeus.h:27-38 | s_to_deg, arcsec_to_deg and arcsec_to_s undo deg_to_s, deg_to_arcsec and s_to_arcsec; one degree is 240 seconds of time |
| Util.TruncBounds | meeus/C/lib/util.c:33-34 | the `(int)` cast rounds toward zero: down above zero, up below, and it is odd |
| Util.CDivCMod | meeus/C/lib/calendar.c:18-38 | C's `/` and `%` by a positive divisor: the quotient truncates, the remainder makes up the dividend and takes its sign, and both agree with the Euclidean ones on a non-negative dividend |
| Util.CModZero | meeus/C/lib/datetime.c:38-49 | `year % 4`, `% 100` and `% 400` are zero in C exactly when the divisor divides the year |
| Util.PolyValue | meeus/C/lib/util.c:4-12 | the value of polynom over a whole coefficient list is Σ c[i]·v^i |
| Util.Polynom | meeus/C/lib/util.c:4-12 | the Horner loop from coef[order] down to coef[0] returns Σ coef[i]·v^i over i = 0..order, reading only coef[0..order] |
| Util.PolynomAtZero | meeus/C/lib/util.c:8-11 | polynom at v = 0 is its constant coefficient |
| Util.QuadraticValue | meeus/C/lib/util.c:4-12 | three coefficients give c0 + c1 v + c2 v² |
| Util.Century | meeus/C/lib/util.c:14-18 | jd = 2451545 + 36525 T, so T is 0 exactly at J2000.0 |
| Util.Rerange | meeus/C/lib/util.c:20-28 | for mod > 0, fmod followed by adding mod to a negative result lies in [0, mod) and is the floored modulo |
| Util.RerangeCases | meeus/C/lib/util.c:20-28 | fmod's remainder keeps the sign of v, and adding mod exactly when it is negative gives v less its whole multiples of mod |
| Util.RerangeIdentity | meeus/C/lib/util.c:23-27 | rerange leaves [0, mod) unchanged |
| Util.RerangePeriodic | meeus/C/lib/util.c:20-28 | adding whole multiples of mod does not change rerange |
| Util.RerangeTurns | meeus/C/lib/util.c:20-28 | v - rerange(v, mod) is a whole number of mod |
| Util.RerangeIdempotent | meeus/C/lib/util.c:20-28 | rerange of a reduced value is that value |
| Util.SToHms | meeus/C/lib/util.c:30-36 | for seconds ≥ 0: h ≥ 0, 0 ≤ m < 60, 0 ≤ s < 60, and hms_to_s(h, m, s) gives the seconds back |
| Util.SToHmsSplit | meeus/C/lib/util.c:33-35 | the truncated hours, the minutes of fmod(seconds, 3600) and fmod(seconds, 60) add up to the seconds |
| DateTime.CmpDate | meeus/C/lib/datetime.c:5-27 | dt_cmpdate is 0 exactly for equal dates, negative exactly when the first comes earlier in the order year, month, day, hour, minute, second, and positive exactly when it comes later |
| DateTime.CmpDateAntisymmetric | meeus/C/lib/datetime.c:5-27 | swapping the dates negates the comparison |
| DateTime.EarlierTransitive | meeus/C/lib/datetime.c:5-27 | the order dt_cmpdate decides is transitive |
| DateTime.IsGregorian | meeus/C/lib/datetime.c:29-36 | dt_is_gregorian holds exactly for dates on or after 1852-11-04 00:00:00 |
| DateTime.IsLeap | meeus/C/lib/datetime.c:38-49 | up to 1582 every multiple of 4 is leap; after 1582 a multiple of 4 is leap unless it is a century not divisible by 400 |
| DateTime.FracDay | meeus/C/lib/datetime.c:51-57 | with the time of day inside one day, dt_get_frac_day lies in [mday, mday + 1) |
| DateTime.DateToJd | meeus/C/lib/datetime.c:59-88 | dt_date_to_jd fails with M_INVALID_RANGE_ERR exactly for dates before -4712-01-01 12:00, and otherwise gives the Julian Day of the date |
| DateTime.DateToJdEpoch | meeus/C/lib/datetime.c:62-64 | -4712-01-01 12:00 itself is JD 0 |
| DateTime.DateToJdSputnik | meeus/C/prg/validate_meeus.c:30-33 | 1957-10-04 19:29 is JD 2436116.31 to two decimals |
| DateTime.DateToJd333 | meeus/C/prg/validate_meeus.c:35-38 | 333-01-27 12:00 is JD 1842713.0 |
| DateTime.DateToJdExamples | meeus/C/prg/validate_meeus.c:50-58 | 1910-04-20 is JD 2418781.5 and 1986-02-09 is JD 2446470.5 |
| DateTime.DayOfWeek | meeus/C/lib/datetime.c:90-100 | dt_get_day_of_week fails exactly when the day's 0h is before the first Julian Day, and then writes 1 (jd stays 0); otherwise it writes (int)(JD(0h) + 1.5) % 7 |
| DateTime.DayOfWeekExample | meeus/C/prg/validate_meeus.c:60-64 | 1954-06-30 is day 3 of the week, a Wednesday |
| DateTime.DayOfYear | meeus/C/lib/datetime.c:102-116 | dt_get_day_of_year never fails |
| DateTime.DayOfYearCountsDays | meeus/C/lib/datetime.c:102-116 | on a valid date the day of the year is the sum of the lengths of the earlier months plus the day of the month |
| DateTime.DayOfYearNextMonth | meeus/C/lib/datetime.c:102-116 | the first of a month is the day after the last day of the month before |
| DateTime.DayOfYearExamples | meeus/C/prg/validate_meeus.c:66-74 | 1978-11-14 is day 318 and 1988-04-22 is day 113 |
| DateTime.JdToDateTimeRanges | meeus/C/lib/datetime.c:153-156 | for jd ≥ 0 the hour is in 0..23 and the minute and second in 0..59 |
| DateTime.JdToDateMonthRange | meeus/C/lib/datetime.c:136-146 | for jd ≥ 0 the month written is in 0..11 |
| DateTime.JdToDateSputnik | meeus/C/prg/validate_meeus.c:40-48 | JD 2436116.31 is 1957-10-04 19:26 |
| DateTime.Tm.JdToDate | meeus/C/lib/datetime.c:118-159 | dt_jd_to_date fails for jd < 0 and leaves the struct as it was; otherwise it writes the date, the day of the week (int)(jd + 1.5) % 7 and the day of the year |
| DateTime.Tm.SetDayOfWeek | meeus/C/lib/datetime.c:176-180 | dt_set_day_of_week stores dt_get_day_of_week's result and error |
| DateTimeRoundTrip.DaysOfYearsExact | meeus/C/lib/datetime.c:85 | (int)(365.25 y) for y ≥ 0 is 365 y plus the leap days y / 4 |
| DateTimeRoundTrip.DaysOfMonthsTable | meeus/C/lib/datetime.c:85 | (int)(30.6001 k) for the shifted months k = 4..16 |
| DateTimeRoundTrip.MonthRecovered | meeus/C/lib/datetime.c:139-140 | E = (int)((B - D) / 30.6001) finds the month that dt_date_to_jd counted, and the day of the month comes back |
| DateTimeRoundTrip.YearRecovered | meeus/C/lib/datetime.c:137-138 | C = (int)((B - 122.1) / 365.25) finds the year count that dt_date_to_jd counted |
| DateTimeRoundTrip.GregorianShiftUndone | meeus/C/lib/datetime.c:129-134 | from 1852 on, alpha and A = Z + 1 + alpha - alpha / 4 undo the correction B = 2 - A + A / 4 |
| DateTimeRoundTrip.FracDaySplit | meeus/C/lib/datetime.c:51-57 | dt_get_frac_day is the day of the month plus the second of the day over 86400 |
| DateTimeRoundTrip.JulianDayRoundTrip | meeus/C/lib/datetime.c:59-159 | dt_jd_to_date gives back every valid date that dt_date_to_jd maps to JD ≥ 0, up to the Julian 1582-10-04 and from 1852-11-04 on |
| DateTimeRoundTrip.JdValueRoundTrip | meeus/C/lib/datetime.c:59-159 | the same round trip, on the Julian Day value itself |
| DateTimeRoundTrip.RoundTripGapForward | meeus/C/lib/datetime.c:29-36 | between 1582-10-05 and 1852-11-03 dates are read as Julian: the Julian 1700-01-01 becomes JD 2341982.5 |
| DateTimeRoundTrip.RoundTripGapBackward | meeus/C/lib/datetime.c:129-134 | dt_jd_to_date switches calendars at Z = 2299161, so any instant of that Julian Day 2341982.5 comes back as the Gregorian 1700-01-11 |
| Calendar.Easter | meeus/C/lib/calendar.c:15-46 | cal_get_easter always returns M_NO_ERR; for every year from 0 on, in either calendar, Easter falls between March 22 and March 31 or between April 1 and April 25 |
| Calendar.EasterCounterRange | meeus/C/lib/calendar.c:18-44 | the day counter o (Gregorian, year > 1582) or h (Julian) lies between 114 (March 22) and 148 (April 25) |
| Calendar.GregorianCounterRange | meeus/C/lib/calendar.c:18-33 | the Gregorian counter o = h + l - 7m + 114 lies in 114..148 |
| Calendar.JulianCounterRange | meeus/C/lib/calendar.c:35-43 | the Julian counter h = d + e + 114 lies in 114..148 |
| Calendar.JulianEpactBound | meeus/C/lib/calendar.c:39 | d = (19c + 15) % 30 is never 29 for c in 0..18 |
| Calendar.GregorianStepRanges | meeus/C/lib/calendar.c:19-29 | after 1582, h lies in 0..29 and l in 0..6 |
| Calendar.CounterDayNumber | meeus/C/lib/datetime.c:59-88 | dt_date_to_jd accepts the 0h date of a March or April counter, reads it as Julian up to 1852 and Gregorian from 1853, and (int)(jd + 1.5) is the day count of that calendar |
| Calendar.GregorianSundayArithmetic | meeus/C/lib/calendar.c:18-33 | in the Gregorian calendar the day count of the computed date is a multiple of 7 |
| Calendar.JulianSundayArithmetic | meeus/C/lib/calendar.c:35-43 | in the Julian calendar the day count of the computed date is a multiple of 7 |
| Calendar.GregorianEasterIsSunday | meeus/C/lib/calendar.c:18-33 | from 1853 on, dt_get_day_of_week says the Gregorian Easter date is a Sunday (0) |
| Calendar.JulianEasterIsSunday | meeus/C/lib/calendar.c:35-43 | from year 0 to 1582, dt_get_day_of_week says the Julian Easter date is a Sunday (0) |
| Calendar.JulianComputusCycle | meeus/C/lib/calendar.c:36-38 | the Julian counter reads the year only through year % 4, % 7 and % 19, so it repeats after 532 years |
| Calendar.JulianEasterCycle | meeus/C/lib/calendar.c:35-44 | Julian Easter repeats every 532 years |
| Calendar.GregorianEasterAt | meeus/C/lib/calendar.c:18-33 | the Gregorian month and day follow from the value of every step of the computus |
| Calendar.EasterOf1991 | meeus/C/prg/validate_meeus.c:76-81 | Easter 1991 is March 31 |
| Calendar.EasterOf1992 | meeus/C/prg/validate_meeus.c:76-81 | Easter 1992 is April 19 |
| Calendar.EasterOf1954 | meeus/C/prg/validate_meeus.c:76-81 | Easter 1954 is April 18 |
| Calendar.EasterOf2000 | meeus/C/prg/validate_meeus.c:76-81 | Easter 2000 is April 23 |
| Calendar.EasterOf1818 | meeus/C/prg/validate_meeus.c:76-81 | Easter 1818 is March 22 |
| Calendar.EasterOf1967 | meeus/C/prg/validate_meeus.c:76-81 | Easter 1967 is March 26 |
| Calendar.EasterOf711 | meeus/C/prg/validate_meeus.c:98-100 | Julian Easter 711 is April 12 |
| Dynamical.PieceAt | meeus/C/lib/dynamical.c:19-97 | each of the fifteen polynomials has a non-zero scale for its variable |
| Dynamical.ThresholdsIncrease | meeus/C/lib/dynamical.c:19-97 | the year thresholds -500, 500, 1600, ..., 2050, 2150 increase |
| Dynamical.PieceUnique | meeus/C/lib/dynamical.c:19-97 | every year lies in at most one piece |
| Dynamical.PieceOf | meeus/C/lib/dynamical.c:19-97 | every year lies in some piece |
| Dynamical.ParabolaPiece | meeus/C/lib/dynamical.c:19-22 | before -500 and from 2150 on ΔT is -20 + 32u² with u = (y - 1820)/100 |
| Dynamical.ReducedParabolaPiece | meeus/C/lib/dynamical.c:93-97 | in [2050, 2150) ΔT is that parabola less 0.5628 (2150 - y) |
| Dynamical.DeltaTIsPiece | meeus/C/lib/dynamical.c:19-97 | the if-chain gives the polynomial of the piece that holds the year, at y = year + (tm_mon + 0.5)/12 |
| Dynamical.DeltaTOfYearPiece | meeus/C/lib/dynamical.c:14-97 | exactly one polynomial applies to a year, and ΔT is its value at the middle of the month |
| Dynamical.DeltaTMonthly | meeus/C/lib/dynamical.c:14-16 | ΔT reads jde only through the year and month that dt_jd_to_date finds, so it is constant within a calendar month |
| Dynamical.UtToDtRoundTrip | meeus/C/lib/dynamical.c:100-110 | dy_dt_to_ut(dy_ut_to_dt(jd)) = jd when jd and jd + ΔT(jd)/86400 fall in the same month |
| Dynamical.DtToUtRoundTrip | meeus/C/lib/dynamical.c:100-110 | dy_ut_to_dt(dy_dt_to_ut(jde)) = jde when both instants fall in the same month |
| Ecliptic.NutParams | meeus/C/lib/ecliptic.c:77-104 | nut_get_params fills the five fundamental arguments D, M, M', F, Omega |
| Ecliptic.CubicValue | meeus/C/lib/util.c:4-12 | polynom with four coefficients is the cubic c0 + c1 T + c2 T² + c3 T³ |
| Ecliptic.FundamentalArguments | meeus/C/lib/ecliptic.c:80-103 | each fundamental argument is the cubic of its coefficient list in T |
| Ecliptic.FundamentalArgumentsAtJ2000 | meeus/C/lib/ecliptic.c:80-103 | at T = 0 the arguments are 297.85036, 357.52772, 134.96298, 93.27191 and 125.04452 degrees |
| Ecliptic.NutationSum | meeus/C/lib/ecliptic.c:116-126 | the nested loops add, row by row, (coefs[5] + coefs[6] T) sind(arg) or (coefs[7] + coefs[8] T) cosd(arg), arg = Σ parm[j] coefs[j] |
| Ecliptic.NutInLon | meeus/C/lib/ecliptic.c:107-136 | ecl_nut_in_lon is the series over the 63 rows / 10000 at high accuracy and the four-term formula otherwise |
| Ecliptic.NutInObl | meeus/C/lib/ecliptic.c:139-167 | ecl_nut_in_obl is the cosine series / 10000 at high accuracy and the four-term formula otherwise |
| Ecliptic.LowNutationBound | meeus/C/lib/ecliptic.c:129-135 | the low-accuracy nutation is at most 18.96" in longitude and 9.96" in obliquity |
| Ecliptic.NutSeriesBound | meeus/C/lib/ecliptic.c:117-125 | the running sum never exceeds the sum of the row multipliers' magnitudes |
| Ecliptic.NutationBound | meeus/C/lib/ecliptic.c:107-167 | both nutations are bounded by their coefficient sums at high accuracy and by 18.96" / 9.96" at low accuracy |
| Ecliptic.MeanObl | meeus/C/lib/ecliptic.c:170-189 | a range error exactly when high accuracy and \|T\| > 100; otherwise the cubic 84381.448 - 46.8150 T - 0.00059 T² + 0.001813 T³ (the Laskar value is overwritten) |
| Ecliptic.MeanOblFlag | meeus/C/lib/ecliptic.c:175-187 | when the range check passes, the flag does not change the mean obliquity |
| Ecliptic.MeanOblAtJ2000 | meeus/C/prg/validate_meeus.c:174-178 | at J2000 the mean obliquity is 84381.448" = 23°26'21.448" |
| Ecliptic.TrueObl | meeus/C/lib/ecliptic.c:192-200 | ecl_true_obl_ecliptic fails exactly when the mean obliquity does, with its error |
| Ecliptic.TrueOblNearMean | meeus/C/lib/ecliptic.c:195-199 | the true obliquity is the mean one plus the nutation in obliquity, within 9.96" at low accuracy |
| Sidereal.MeanSidTime0h | meeus/C/lib/sidereal.c:6-17 | Meeus 12.2 reduced to one day: in [0, 86400) seconds |
| Sidereal.MeanSidTimeAnyUt | meeus/C/lib/sidereal.c:19-26 | Meeus 12.4 reduced to one turn: in [0, 360) degrees |
| Sidereal.AnyUtCubicAbsent | meeus/C/lib/sidereal.c:24-25 | the integer division 1 / 38710000 is 0, so the T³ term vanishes |
| Sidereal.AtZeroUtMeans | meeus/C/lib/sidereal.c:32 | jd - (int) jd == 0.5 holds exactly for jd ≥ 0 at 0h UT; negative jd ending in .5 take the other formula |
| Sidereal.MeanGwSidTime | meeus/C/lib/sidereal.c:29-37 | never fails; the 0h formula at 0h UT, the any-instant formula in seconds otherwise; always in [0, 86400) |
| Sidereal.MeanSidTimeExample12a | meeus/C/prg/validate_meeus.c:143-151 | 1987-04-10 0h UT gives 13h10m46.3668s to within 0.0001 s |
| Sidereal.MeanSidTimeExample12b | meeus/C/lib/sidereal.c:19-37 | 1987-04-10 19:21 UT gives 8h34m57.0896s to within 0.0001 s |
| Sidereal.ApparentGwSidTime | meeus/C/lib/sidereal.c:40-58 | fails with a range error exactly when the high-accuracy obliquity at jd_to_jde(jd) does; otherwise the mean time plus delta_psi cosd(epsilon/3600)/15 |
| Sidereal.ApparentNearMean | meeus/C/lib/sidereal.c:54-56 | the apparent time differs from the mean one by at most the nutation coefficient sum / 10000 / 15 seconds |
| Sidereal.CorrectionBound | meeus/C/lib/sidereal.c:55 | the equation of the equinoxes is at most \|delta_psi\| / 15 |
| Coordinates.EclToEquIsNegatedRotation | meeus/C/lib/coordinates.c:20-45 | coo_ecl_to_equ is coo_equ_to_ecl with the obliquity negated, and the other way round |
| Coordinates.HorToEclMirrorsEclToHor | meeus/C/lib/coordinates.c:48-67 | coo_hor_to_ecl(A, h) gives the hour angle of coo_ecl_to_hor(A, -h) and the negated second angle |
| Coordinates.HourAngleOf | meeus/C/lib/coordinates.c:81-87 | rerange(s_to_deg(sid_t) - L - alpha, 360) lies in [0, 360) |
| Coordinates.LocalHourAngle | meeus/C/lib/coordinates.c:73-90 | the mean branch never fails; the apparent branch fails exactly when the apparent sidereal time does; the angle is in [0, 360) |
| Coordinates.HourAnglePeriodic | meeus/C/lib/coordinates.c:81-87 | whole turns of L or alpha leave the hour angle unchanged |
| Coordinates.HourAngleDaily | meeus/C/lib/coordinates.c:81-87 | a full sidereal day is a full turn of hour angle |
| Vsop87.SeriesInTable | meeus/C/lib/vsop87.c:19-33 | term_start is never reset: consecutive series follow each other and every triplet read lies inside the table |
| Vsop87.SeriesEndCoordinate | meeus/C/lib/vsop87.c:21-33 | the last series of a coordinate ends where the next coordinate's first series begins |
| Vsop87.TermSumBound | meeus/C/lib/vsop87.c:26-29 | a series never exceeds the sum of its amplitudes \|A\|, whatever tau |
| Vsop87.CoordSumStep | meeus/C/lib/vsop87.c:30-32 | one pass of the middle loop adds tmp_c tau^k to coord[c] and multiplies power_tau by tau |
| Vsop87.NoSeriesIsZero | meeus/C/lib/vsop87.c:22-24 | a coordinate without series is 0 |
| Vsop87.Millennia | meeus/C/lib/vsop87.c:16 | tau counts Julian millennia from J2000 |
| Vsop87.SumTerms | meeus/C/lib/vsop87.c:25-29 | the innermost loop sums A cos(B + C tau) over the triplets of one series |
| Vsop87.DynCoordinates | meeus/C/lib/vsop87.c:11-35 | vso_vsop87d_dyn_coordinates writes into coord[0..3] the three sums Σ_k tau^k Σ A cos(B + C tau) of the planet's table, and nothing else |
| Vsop87.Fk5 | meeus/C/lib/vsop87.c:45-60 | the FK5 longitude lies in [0, 360); the latitude is B + 0.03916" (cosd L' - sind L') with L' = L - 1.397 T - 0.00031 T²; R is untouched |
| Vsop87.Coordinates | meeus/C/lib/vsop87.c:40-61 | vso_vsop87d_coordinates leaves the FK5 longitude and latitude in degrees in coord[0] and coord[1], and the radius vector in coord[2] |
| Sun.SunParam | meeus/C/lib/sun.c:39-66 | O - nu = L0 - M, and R (1 + e cosd nu) = 1.000001018 (1 - e²) |
| Sun.EccentricityBounds | meeus/C/lib/sun.c:52-54 | within 10000 years of J2000 the eccentricity stays in [0.0112, 0.0210] |
| Sun.RadiusInRange | meeus/C/lib/sun.c:65 | within that range the radius vector is defined and between a (1 - e) and a (1 + e) |
| Sun.RadiusBounds | meeus/C/lib/sun.c:65 | for 0 < e < 1 and \|cos\| ≤ 1 the denominator is positive and the radius lies between perihelion and aphelion |
| Sun.AddAberrationTable | meeus/C/lib/sun.c:80-104 | each of the four loops adds Σ a tau^k sind(b + c tau) to deltaLambda |
| Sun.AberrationCorrection | meeus/C/lib/sun.c:69-106 | -20.4898 / R at low accuracy, -0.005775518 R deltaLambda at high accuracy |
| Sun.AberrationSumBound | meeus/C/lib/sun.c:80-104 | within a millennium of J2000 a table adds at most the sum of its amplitudes |
| Sun.TableAmplitudes | meeus/C/lib/sun.c:6-37 | the amplitudes of the four tables add up to 123.057, 7.626, 0.334 and 0.01 |
| Sun.DeltaLambdaBound | meeus/C/lib/sun.c:73-104 | within a millennium of J2000 deltaLambda stays within 131.027 of 3548.193 |
| Sun.AberrationNegative | meeus/C/lib/sun.c:69-106 | for R > 0 the correction is negative, and at high accuracy within 0.005775518 · 131.027 R of -20.4927 R |
| Sun.MeanEclipticCoord | meeus/C/lib/sun.c:108-123 | sun_mean_ecliptic_coord returns the Earth's FK5 position turned by 180°, corrected by Meeus 25.9 |
| Sun.MeanEclipticOpposesEarth | meeus/C/lib/sun.c:113-121 | R is the Earth's radius vector and λ + 0.09033" is rerange(Earth FK5 longitude + 180, 360) |
| Sun.MeanEclipticLatitude | meeus/C/lib/sun.c:115-122 | β is minus the Earth's dynamical latitude with the FK5 latitude correction applied twice |
| Sun.ApparentEclipticCoord | meeus/C/lib/sun.c:125-137 | sun_apparent_ecliptic_coord adds the nutation in longitude and the aberration at R to λ |
| Sun.ApparentEclipticShift | meeus/C/lib/sun.c:130-136 | only λ moves; for R > 0 within a millennium, it lies behind λ + Δψ by at most 0.005775518 (3548.193 + 131.027) R seconds of arc |
| Sun.EclipticPointToEqu | meeus/C/lib/sun.c:152-155 | the low-accuracy right ascension lies in [0, 360) |
| Sun.EclipticPointIsZeroLatitude | meeus/C/lib/sun.c:152-155 | the low-accuracy formulas are coo_ecl_to_equ at latitude 0 with α reduced to [0, 360) |
| Sun.MeanGeocentric | meeus/C/lib/sun.c:139-163 | fails with a range error exactly when \|T\| > 100, whatever the accuracy asked for |
| Sun.MeanGeocentricCoord | meeus/C/lib/sun.c:139-163 | sun_mean_geocentric_coord computes MeanGeocentric |
| Sun.ApparentGeocentric | meeus/C/lib/sun.c:165-197 | fails exactly when \|T\| > 100; otherwise α lies in [0, 360) |
| Sun.ApparentGeocentricCoord | meeus/C/lib/sun.c:165-197 | sun_apparent_geocentric_coord computes ApparentGeocentric |
| Sun.LowMeanOnEcliptic | meeus/C/lib/sun.c:150-156 | the low-accuracy mean position is coo_ecl_to_equ(O, 0) with the mean obliquity |
| Sun.LowApparentOnEcliptic | meeus/C/lib/sun.c:177-190 | the low-accuracy apparent position is coo_ecl_to_equ(O - 0.00569 - 0.00478 sind Ω, 0) with ε + 0.00256 cosd Ω |
| Sun.LowGeocentric | meeus/C/lib/sun.c:150-190 | both low-accuracy positions put the Sun on the ecliptic, at the true or the corrected longitude |
| Sun.HighAccuracyGeocentric | meeus/C/lib/sun.c:158-196 | at high accuracy both positions convert the VSOP87 ecliptic coordinates with the mean obliquity; they differ only through the apparent longitude |
| Equinox.MeanCoefs | meeus/C/lib/equinox.c:45-86 | eight quartics of five coefficients each, picked by instant and by year < 1000 |
| Equinox.MeanInstantsOf2000 | meeus/C/lib/equinox.c:69-85 | in 2000 the mean instants are the constant terms 2451623.80984, 2451716.56767, 2451810.21715, 2451900.05952 |
| Equinox.TableSwitch | meeus/C/lib/equinox.c:49-69 | year 999 takes Y = 0.999 and table 27.a; year 1000 takes Y = -1 and table 27.b |
| Equinox.CorrectEquinox | meeus/C/lib/equinox.c:96-109 | eqx_correct_equinox returns jde0 + 0.00001 S / deltaLambda |
| Equinox.EqxSumBound | meeus/C/lib/equinox.c:104-107 | S never exceeds the sum of the amplitudes |
| Equinox.EqxTableAmplitude | meeus/C/lib/equinox.c:13-38 | the amplitudes of table 27.c add up to 1978 |
| Equinox.EqxDeltaLambdaBound | meeus/C/lib/equinox.c:100-101 | deltaLambda ≥ 0.9659 |
| Equinox.CorrectionSmall | meeus/C/lib/equinox.c:96-109 | the low-accuracy correction is defined and moves the instant by less than 0.021 day |
| Equinox.IterateEquinox | meeus/C/lib/equinox.c:120-136 | the do-while loop, run for at most fuel rounds, reaches the instant of the iteration and reports whether its exit test was met |
| Equinox.IterateExit | meeus/C/lib/equinox.c:129-133 | on exit, the last correction was at most half a second and already added, from an instant no earlier than the start |
| Equinox.NegativeStepExits | meeus/C/lib/equinox.c:133 | the exit test is signed: a first correction below zero ends the loop at once, moving the instant back |
| Equinox.IterateFuel | meeus/C/lib/equinox.c:129-133 | once the loop has exited, more fuel changes nothing |
| Equinox.Eqx.GetMeanSolEqx | meeus/C/lib/equinox.c:45-86 | writes the four mean instants of the year and leaves the year alone |
| Equinox.Eqx.GetSolEqx | meeus/C/lib/equinox.c:144-161 | writes the corrected or iterated instant k into field k and keeps the year |
| Equinox.Eqx.CorrectAll | meeus/C/lib/equinox.c:149-154 | corrects each field from its own mean instant |
| Equinox.Eqx.IterateAll | meeus/C/lib/equinox.c:155-160 | iterates each field from its mean instant with k = 0, 1, 2, 3 |
| Equinox.LowAlwaysDefined | meeus/C/lib/equinox.c:108 | for every year the low-accuracy quotient has a non-zero denominator |
| Kepler.RoundsOfLoopBound | meeus/C/lib/kepler.c:32 | j ≤ 3.32 · 12 holds exactly for j < 40 |
| Kepler.CopySign | meeus/C/lib/kepler.c:34 | copysign(D, x) has magnitude D and the sign of x |
| Kepler.StepRule | meeus/C/lib/kepler.c:33-35 | each round moves E0 by exactly D, up when Mp ≥ M1 and down otherwise |
| Kepler.IterateInside | meeus/C/lib/kepler.c:30-36 | after k rounds \|E0 - pi/2\| ≤ pi/2 - 2D |
| Kepler.IterateBrackets | meeus/C/lib/kepler.c:30-36 | when E - e sin E grows on [0, pi] and Es in [0, pi] solves Mp = Es - e sin Es, after k rounds \|E0 - Es\| ≤ 2D |
| Kepler.IterateStepSize | meeus/C/lib/kepler.c:31-35 | after k rounds D · 2^k = pi/4 |
| Kepler.FinalStep | meeus/C/lib/kepler.c:31-35 | after the 40 rounds 2D = pi / 2^41 |
| Kepler.BisectLoop | meeus/C/lib/kepler.c:30-36 | the loop runs the 40 rounds of the search from pi/2 with first step pi/4 |
| Kepler.GetEccentricAnomaly | meeus/C/lib/kepler.c:21-38 | kep_get_eccentric_anomaly folds, searches and unfolds as EccentricAnomaly states, whose result EccentricAnomalySolves puts within 180/2^41 degrees of the root of Kepler's equation |
| Kepler.FinalE0Solves | meeus/C/lib/kepler.c:11-36 | the final E0 is within pi / 2^41 of the root in [0, pi] of Kepler's equation for the folded anomaly Mp |
| Kepler.EccentricAnomalySolves | meeus/C/lib/kepler.c:11-38 | the result in degrees is within 180 / 2^41 of rad_to_deg(Es · F), Es the root for the folded anomaly and F the fold sign |
| Kepler.FinalE0Range | meeus/C/lib/kepler.c:30-36 | the final E0 lies strictly between 0 and pi |
| Kepler.EccentricAnomalyRange | meeus/C/lib/kepler.c:21-38 | the result lies in (-180, 180) and is negative exactly when rerange(M, 360) > 180 |
| Kepler.EccentricAnomalyPeriodic | meeus/C/lib/kepler.c:23 | whole turns of M leave the result unchanged |
| Kepler.EccentricAnomalyMirror | meeus/C/lib/kepler.c:26-29 | for a reduced anomaly r > 180 the result is minus that of 360 - r |
| EquationTime.MeanLongitudeL0AtJ2000 | meeus/C/lib/equation_time.c:9-12 | at J2000 L0 is 280.4664567 |
| EquationTime.ObliquityDefinedWithPosition | meeus/C/lib/equation_time.c:15-20 | the true obliquity fails exactly when the apparent position does, so the ignored error of line 20 never occurs |
| EquationTime.EquationAt | meeus/C/lib/equation_time.c:21-22 | the reduced equation lies in [0, 360) |
| EquationTime.EquationAtTurns | meeus/C/lib/equation_time.c:21-22 | the reduction removes a whole number of turns from L0 - 0.00597183 - α + Δψ cos ε |
| EquationTime.EquationOfTime | meeus/C/lib/equation_time.c:6-24 | fails with a range error exactly when \|T\| > 100; otherwise the result lies in [0, 360) |
| EquationTime.EquationAtPeriodic | meeus/C/lib/equation_time.c:21-22 | a right ascension larger by whole turns gives the same result |
| PyText.TokenLength | meeus/C/lib/vsop87/create_vsop87_include.py:13 | the first token of a line is a maximal run of non-space characters |
| PyText.SplitTokens | meeus/C/lib/vsop87/create_vsop87_include.py:13 | every token of line.split() is non-empty and free of whitespace |
| PyText.SplitBlank | meeus/C/lib/vsop87/create_vsop87_test.py:13-15 | a line of whitespace splits into the empty list |
| PyText.LeadingSpace | meeus/C/lib/vsop87/create_vsop87_test.py:19 | strip() removes exactly the leading whitespace |
| PyText.TrailingSpace | meeus/C/lib/vsop87/create_vsop87_test.py:19 | strip() removes exactly the trailing whitespace |
| PyText.Strip | meeus/C/lib/vsop87/create_vsop87_test.py:19 | line.strip() neither starts nor ends with whitespace |
| PyText.PyIndex | meeus/C/lib/vsop87/create_vsop87_include.py:14-17 | Python list indexing: defined exactly for -n ≤ i < n, counting negative indices from the end |
| PyText.Token | meeus/C/lib/vsop87/create_vsop87_include.py:14-17 | an index out of range raises IndexError |
| PyText.LastThree | meeus/C/lib/vsop87/create_vsop87_include.py:19 | v[-3:] is the suffix of length min(3, \|v\|) |
| PyText.ParseInt | meeus/C/lib/vsop87/create_vsop87_include.py:15-17 | int() of a malformed token raises ValueError |
| PyText.NatToString | meeus/C/lib/vsop87/create_vsop87_include.py:32 | "%d" of a natural number is a non-empty string of digits |
| PyText.NatToStringValue | meeus/C/lib/vsop87/create_vsop87_include.py:32 | the digits "%d" writes have the value of the number |
| PyText.ParseIntOfIntToString | meeus/C/lib/vsop87/create_vsop87_include.py:15-17 | int() reads back what "%d" writes, for every integer |
| Vsop87Include.Classify | meeus/C/lib/vsop87/create_vsop87_include.py:13-19 | an empty line raises IndexError; a "VSOP87" line is a header for coordinate int(v[5]) - 1 (Python-indexed) with int(v[8]) terms; any other line is a term with triplet v[-3:] |
| Vsop87Include.Lines | meeus/C/lib/vsop87/create_vsop87_include.py:12-13 | one classified line per line of the file, headers naming one of three coordinates |
| Vsop87Include.Apply | meeus/C/lib/vsop87/create_vsop87_include.py:14-19 | one line keeps the parse consistent and raises exactly when it is broken |
| Vsop87Include.ParseFrom | meeus/C/lib/vsop87/create_vsop87_include.py:12-19 | the loop keeps the parse consistent |
| Vsop87Include.ParseFromRaises | meeus/C/lib/vsop87/create_vsop87_include.py:12-19 | the loop raises exactly when some line is broken, with the first such line's exception |
| Vsop87Include.FirstBroken | meeus/C/lib/vsop87/create_vsop87_include.py:12-19 | the index of the first broken line |
| Vsop87Include.TripletsOfLength | meeus/C/lib/vsop87/create_vsop87_include.py:18-19 | one triplet per term line |
| Vsop87Include.ApplyTriplets | meeus/C/lib/vsop87/create_vsop87_include.py:14-19 | a term appends its own triplet and a header none |
| Vsop87Include.TripletsInFileOrder | meeus/C/lib/vsop87/create_vsop87_include.py:12-19 | a file that parses keeps every term line as one triplet, in file order |
| Vsop87Include.TermLinesTail | meeus/C/lib/vsop87/create_vsop87_include.py:12-19 | a run of term lines minus its first line is a run |
| Vsop87Include.TermRun | meeus/C/lib/vsop87/create_vsop87_include.py:18-19 | a run of n term lines appends their triplets and changes nothing else |
| Vsop87Include.TermCountOfRun | meeus/C/lib/vsop87/create_vsop87_include.py:18-19 | a run of n term lines holds n term lines |
| Vsop87Include.AppendCount | meeus/C/lib/vsop87/create_vsop87_include.py:16-17 | recording a count raises the total by that count |
| Vsop87Include.HeaderBalance | meeus/C/lib/vsop87/create_vsop87_include.py:14-17 | a header adds its count to the total, keeps the triplets and keeps the counts non-negative |
| Vsop87Include.BlocksBalance | meeus/C/lib/vsop87/create_vsop87_include.py:12-19 | a file of header-plus-n-terms blocks always parses, with as many triplets as announced terms |
| Vsop87Include.BalancedTable | meeus/C/lib/vsop87.c:21-33 | counts that match the triplets make a table the evaluator reads within bounds |
| Vsop87Include.WellFormedFileGivesTable | meeus/C/lib/vsop87/create_vsop87_include.py:12-40 | a well-formed file gives a table the evaluator reads within bounds: its 3 · \|triplets\| doubles are exactly what it reads |
| Vsop87Include.CoefRow | meeus/C/lib/vsop87/create_vsop87_include.py:37-39 | a row raises exactly when some token is not a float (ValueError) or the triplet is short (TypeError) |
| Vsop87Include.CoefRows | meeus/C/lib/vsop87/create_vsop87_include.py:36-39 | the rows succeed exactly when every row does |
| Vsop87Include.Upper | meeus/C/lib/vsop87/create_vsop87_include.py:5 | upper() keeps the length |
| Vsop87Include.ReadLine | meeus/C/lib/vsop87/create_vsop87_include.py:13-19 | one round of the loop applies the classified line |
| Vsop87Include.ParseLines | meeus/C/lib/vsop87/create_vsop87_include.py:12-19 | the loop computes ParseFrom over the lines of the file |
| Vsop87Include.WriteCounts | meeus/C/lib/vsop87/create_vsop87_include.py:31-32 | the "%d, " of each count, in order |
| Vsop87Include.WriteTermsRows | meeus/C/lib/vsop87/create_vsop87_include.py:29-33 | one row per coordinate |
| Vsop87Include.CoefRowsStayRaised | meeus/C/lib/vsop87/create_vsop87_include.py:36-39 | once a row fails, every longer prefix fails with the same exception |
| Vsop87Include.WriteCoefRows | meeus/C/lib/vsop87/create_vsop87_include.py:36-39 | the coefficient rows, or the exception of the first row that fails |
| Vsop87Include.GetVsop87Include | meeus/C/lib/vsop87/create_vsop87_include.py:4-42 | get_vsop87_include returns Include of the lines of raw/<ROOT>.<bod> |
| Vsop87Include.BodysFollowPlanetOrder | meeus/C/lib/vsop87/create_vsop87_include.py:45 | entry i of bodys names planet i of planet_e |
| Vsop87Include.FileNameSuffix | meeus/C/lib/vsop87/create_vsop87_include.py:5 | the file name ends with the first three letters of the body |
| Vsop87Include.FileNamesDistinct | meeus/C/lib/vsop87/create_vsop87_include.py:5 | the eight raw file names are distinct |
| Vsop87Include.TablesStayRaised | meeus/C/lib/vsop87/create_vsop87_include.py:58-59 | once a body fails, every longer prefix fails with the same exception |
| Vsop87Include.WriteTables | meeus/C/lib/vsop87/create_vsop87_include.py:58-59 | the loop appends the initializer of each body, or stops at the first exception |
| Vsop87Include.WriteArray | meeus/C/lib/vsop87/create_vsop87_include.py:61-67 | the array of the table addresses, one per body |
| Vsop87Include.GenerateHeader | meeus/C/lib/vsop87/create_vsop87_include.py:45-69 | the printed text is the header for vsop87d, or the first exception |
| Vsop87TestGen.DropTwo | meeus/C/lib/vsop87/create_vsop87_test.py:18 | v[2][2:] drops two characters, or gives "" for a shorter token |
| Vsop87TestGen.Classify | meeus/C/lib/vsop87/create_vsop87_test.py:13-33 | a line is blank, a "VSOP87D" header (short when it has fewer than three tokens), an "l" line with coordinates exactly when it has eight tokens, or other |
| Vsop87TestGen.Lines | meeus/C/lib/vsop87/create_vsop87_test.py:12-13 | one classified line per line |
| Vsop87TestGen.Next | meeus/C/lib/vsop87/create_vsop87_test.py:13-34 | a round raises IndexError exactly on a short header or on a short "l" line while the flag is armed |
| Vsop87TestGen.RunRaisesIndexError | meeus/C/lib/vsop87/create_vsop87_test.py:12-34 | the loop can only raise IndexError |
| Vsop87TestGen.Emitted | meeus/C/lib/vsop87/create_vsop87_test.py:16-34 | a line emits at most one comment or check |
| Vsop87TestGen.RenderAppend | meeus/C/lib/vsop87/create_vsop87_test.py:19-33 | the text of two event sequences is the concatenation of their texts |
| Vsop87TestGen.NextRenders | meeus/C/lib/vsop87/create_vsop87_test.py:16-34 | one line appends the text of the event it emits |
| Vsop87TestGen.RunRendersEvents | meeus/C/lib/vsop87/create_vsop87_test.py:12-35 | the text is exactly the rendering of the events, in order |
| Vsop87TestGen.CommentCountAppend | meeus/C/lib/vsop87/create_vsop87_test.py:19 | comments of two event sequences add up |
| Vsop87TestGen.CommentsMatchHeaders | meeus/C/lib/vsop87/create_vsop87_test.py:16-21 | one comment per header line |
| Vsop87TestGen.EventsAlternate | meeus/C/lib/vsop87/create_vsop87_test.py:16-34 | each check comes right after the comment of its header, with that header's body and date |
| Vsop87TestGen.NoCheckFirst | meeus/C/lib/vsop87/create_vsop87_test.py:10-23 | from an unarmed start the first event is a comment |
| Vsop87TestGen.NoAdjacentChecks | meeus/C/lib/vsop87/create_vsop87_test.py:20-34 | no two checks are adjacent |
| Vsop87TestGen.CheckFollowsComment | meeus/C/lib/vsop87/create_vsop87_test.py:17-33 | every check follows the comment of its header, with the same body and date |
| Vsop87TestGen.NothingBeforeHeader | meeus/C/lib/vsop87/create_vsop87_test.py:22-23 | before any header, lines change nothing and emit nothing |
| Vsop87TestGen.ReadLine | meeus/C/lib/vsop87/create_vsop87_test.py:13-34 | one round of the loop computes Next on the classified line |
| Vsop87TestGen.GetVsop87dTest | meeus/C/lib/vsop87/create_vsop87_test.py:4-35 | get_vsop87d_test returns TestText of the lines of raw/vsop87.chk |
| Vsop87TestGen.Program | meeus/C/lib/vsop87/create_vsop87_test.py:38-56 | the program raises exactly when the test text does; otherwise it is the head, the test text and the tail |
| Vsop87TestGen.GenerateTest | meeus/C/lib/vsop87/create_vsop87_test.py:38-58 | the printed text is Program of the lines of raw/vsop87.chk |
| Sundials.DeclinationsIncreasing | sundial/sundial.py:12 | the seven declinations increase strictly |
| Sundials.Center | sundial/sundial.py:29-41 | (0, 0) when P = 0 (the ZeroDivisionError branch); otherwise the point whose coordinates times P are a cos phi sin D and -a (sin phi sin z + cos phi cos z cos D) |
| Sundials.Project | sundial/sundial.py:63-77 | dark exactly when Q < 0 and a division by zero exactly when Q = 0; otherwise the point (a Nx / Q, a Ny / Q), kept exactly when its modulus is below 900 a² |
| Sundials.LineStaysNone | sundial/sundial.py:55-77 | once a division by zero has raised, the remaining declinations change nothing |
| Sundials.LineUpToRaises | sundial/sundial.py:55-77 | an hour line raises exactly when one of its declinations has Q = 0 |
| Sundials.LineUpToSound | sundial/sundial.py:76-77 | every entry of an hour line is a lit declination with its point |
| Sundials.LineUpToComplete | sundial/sundial.py:76-77 | every lit declination has its entry |
| Sundials.LineUpToSorted | sundial/sundial.py:55 | the entries of an hour line come in increasing order of declination |
| Sundials.RaisedStays | sundial/sundial.py:52-78 | once raised, later hours change nothing |
| Sundials.HourLinesOrdered | sundial/sundial.py:52-78 | line i belongs to H = i - 12 at hour angle 15 H + fmod(l, 15); all n lines are there exactly when nothing raised |
| Sundials.TwentyFourHourLines | sundial/sundial.py:52 | 24 hour lines, for H = -12 .. 11, unless a division by zero raised |
| Sundials.StoredPointsInside | sundial/sundial.py:63-77 | every stored point had Q > 0 and lies within 30 stylus lengths of the origin |
| Sundials.Sundial.constructor | sundial/sundial.py:23-42 | stores the parameters, P and the center, and no hour lines |
| Sundials.Sundial.Locate | sundial/sundial.py:63-77 | the body of the inner loop computes Project |
| Sundials.Sundial.HourLineAt | sundial/sundial.py:54-77 | the inner loop builds the dict of one hour line, or raises |
| Sundials.Sundial.ComputeHourLines | sundial/sundial.py:44-78 | stores the 24 hour lines (or those before the division by zero) and leaves every other field alone |
| SundialSvg.Flip | sundial/svg.py:43-47 | revert_y keeps x and negates y |
| SundialSvg.DistFlip | sundial/svg.py:61 | mirroring keeps the distance to the origin |
| SundialSvg.CopySign | sundial/svg.py:17 | copysign(m, s) has magnitude \|m\| and the sign of s |
| SundialSvg.Scale | sundial/svg.py:22-27 | the divisor 1 + dir_coef² is at least 1 |
| SundialSvg.PushPoint | sundial/svg.py:11-37 | (0, copysign(r, y)) when the two x coordinates agree; the exit of line 25 exactly when delta < 0 |
| SundialSvg.PushPointOnCircle | sundial/svg.py:11-37 | the pushed point lies on the circle of radius r about the origin |
| SundialSvg.PushPointCollinear | sundial/svg.py:20-37 | off the vertical, the pushed point lies on the line through center and point |
| SundialSvg.PushPointDefined | sundial/svg.py:22-25 | when the center lies inside the circle, delta ≥ 0 and push_point never exits |
| SundialSvg.PushPointSide | sundial/svg.py:29-37 | with the center inside the circle, the pushed point lies on the same side of the center as point |
| SundialSvg.Pop | sundial/svg.py:64 | dict.pop of a present key removes one entry |
| SundialSvg.OobKeysSnoc | sundial/svg.py:60-62 | _oob collects, in dict order, the declinations further than max_radius |
| SundialSvg.KeepUnlessKeys | sundial/svg.py:63-64 | after the pops, a key is present exactly when it was and was not popped |
| SundialSvg.KeepUnlessDistinct | sundial/svg.py:63-64 | the pops keep the keys distinct |
| SundialSvg.PopKeepUnless | sundial/svg.py:63-64 | one more pop removes one more key |
| SundialSvg.OobKeysAreKeys | sundial/svg.py:60-62 | every collected key is a key of the dict |
| SundialSvg.OobKeysDistinct | sundial/svg.py:60-62 | the collected keys are distinct, so every pop finds its key |
| SundialSvg.KeepUnlessOob | sundial/svg.py:59-64 | popping the collected keys keeps exactly the entries within max_radius, in order |
| SundialSvg.KeepUnlessNothing | sundial/svg.py:63-64 | popping nothing changes nothing |
| SundialSvg.InsideMembers | sundial/svg.py:59-64 | an entry survives exactly when it was there and lies within max_radius |
| SundialSvg.InsideSubsequence | sundial/svg.py:59-64 | the surviving entries keep their order |
| SundialSvg.InsideAll | sundial/svg.py:59-64 | a line already within the radius is unchanged |
| SundialSvg.InsideDistinct | sundial/svg.py:59-64 | pruning keeps the keys distinct |
| SundialSvg.CollectOob | sundial/svg.py:59-62 | the first inner loop collects OobKeys |
| SundialSvg.PopAll | sundial/svg.py:63-64 | the second inner loop pops each collected key |
| SundialSvg.PruneLine | sundial/svg.py:58-64 | pruning one hour line keeps exactly its entries within max_radius |
| SundialSvg.LinePoints | sundial/svg.py:70-71 | the mirrored points of one line, in dict order |
| SundialSvg.PointsMembers | sundial/svg.py:68-71 | points holds exactly the mirrored points of every hour line |
| SundialSvg.CollectPoints | sundial/svg.py:68-71 | the loops build Points |
| SundialSvg.BoxOf | sundial/svg.py:72-73 | min and max over zip(*points) enclose every point and are reached by some point |
| SundialSvg.Widen | sundial/svg.py:74-76 | widening encloses the box and the square [-r, r]², each side being the old one or ±r |
| SundialSvg.FurthestIndex | sundial/svg.py:94-100 | the index the loop settles on lies among those read |
| SundialSvg.FurthestIsFirstMaximal | sundial/svg.py:94-100 | the furthest entry is the first of maximal distance: every entry before it is strictly nearer, none after it is further |
| SundialSvg.FurthestPoint | sundial/svg.py:92-100 | None for an empty line, otherwise the mirrored furthest point |
| SundialSvg.HourMarks | sundial/svg.py:90-101 | lines_h is MarksUpTo over all hour lines |
| SundialSvg.MarksSound | sundial/svg.py:90-101 | every mark is the furthest point of a non-empty hour line, with its index, in increasing hour order |
| SundialSvg.MarksComplete | sundial/svg.py:90-101 | every non-empty hour line yields its mark |
| SundialSvg.PushMarksEach | sundial/svg.py:104-113 | pushing succeeds exactly when every push_point does, and each mark keeps its hour |
| SundialSvg.PushMarksDefined | sundial/svg.py:104-113 | with the center inside the circle, pushing never exits |
| SundialSvg.PushMarksOnCircle | sundial/svg.py:104-113 | every pushed mark lies on the circle |
| SundialSvg.PushAll | sundial/svg.py:104-113 | the loop computes PushMarks |
| SundialSvg.PushMarksStops | sundial/svg.py:104-113 | an exit on a prefix is an exit of the whole loop |
| SundialSvg.Labels | sundial/svg.py:118-126 | one label per mark, offset by -0.8 font_size and copysign(1.3 font_size, y) |
| SundialSvg.PlaceLabels | sundial/svg.py:118-147 | the loop builds the labels and grows the box as LabelsBox says |
| SundialSvg.LabelsInBox | sundial/svg.py:127-147 | the grown box encloses the old one, and each label anchor lies inside it |
| SundialSvg.Lookup | sundial/svg.py:156-159 | defined exactly when the declination is a key, giving its point |
| SundialSvg.OccurrencesMembers | sundial/svg.py:155-163 | the points visited are exactly the mirrored points of declination d, over the hour lines in order |
| SundialSvg.Segments | sundial/svg.py:153-163 | n occurrences give n - 1 segments |
| SundialSvg.Vertices | sundial/svg.py:153-163 | n segments have n + 1 vertices |
| SundialSvg.SegmentsChain | sundial/svg.py:153-163 | the segments join the occurrences in order, each starting where the previous one ends |
| SundialSvg.SegmentsSnoc | sundial/svg.py:161-163 | one more occurrence adds the segment from the previous one |
| SundialSvg.DeclinationSegments | sundial/svg.py:153-163 | the loop builds Segments of the occurrences |
| SundialSvg.ConnectedOnCircle | sundial/svg.py:167-192 | the two added segments start and end on the circle and join the chain |
| SundialSvg.WithinModulus | sundial/svg.py:61 | dist ≤ r gives x² + y² ≤ r² |
| SundialSvg.ConnectedDefined | sundial/svg.py:167-192 | after pruning, the connectors never exit |
| SundialSvg.DeclLinesStop | sundial/svg.py:152-193 | an exit ends the loop over declinations |
| SundialSvg.DeclinationEntry | sundial/svg.py:153-193 | the body of the loop over declinations for one declination |
| SundialSvg.DeclinationLines | sundial/svg.py:151-193 | lines_d over the seven declinations |
| SundialSvg.DeclLinesPlain | sundial/svg.py:151-193 | without a radius every declination gets its plain segments, in declination order |
| SundialSvg.DeclLinesConnected | sundial/svg.py:167-193 | with a radius, every entry of lines_d belongs to one of the declinations, which has segments, holds those segments connected to the circle, and the entries come in increasing declination order |
| SundialSvg.GatheredOrdered | sundial/svg.py:151-193 | entries of at most one line each, labelled with increasing declinations, concatenate into lines with increasing declinations from the first k |
| SundialSvg.DeclsOnCircle | sundial/svg.py:167-193 | with a radius and a valid sqrt, every declination line has at least three segments, both outer ends on the circle |
| SundialSvg.DeclLinesDefined | sundial/svg.py:167-193 | after pruning, the declination loop never exits |
| SundialSvg.FrameOf | sundial/svg.py:196-206 | the frame keeps the centre of the box, scales its sides by 1.1 and encloses it |
| SundialSvg.Pruned | sundial/svg.py:57-64 | one pruned line per hour line |
| SundialSvg.PrunedWithin | sundial/svg.py:57-64 | after pruning every point lies within max_radius and keys stay distinct |
| SundialSvg.FrameHolds | sundial/svg.py:196-202 | the scaled frame encloses the box |
| SundialSvg.EnclosedPoints | sundial/svg.py:127-147 | points in a box stay in any box that encloses it |
| SundialSvg.EnclosedAnchors | sundial/svg.py:127-147 | label anchors in a box stay in any box that encloses it |
| SundialSvg.LabelsAnchored | sundial/svg.py:118-147 | every label anchor lies inside the grown box |
| SundialSvg.AssembleFrames | sundial/svg.py:68-206 | the final frame holds every point and label anchor, and with a radius the square [-r, r]² |
| SundialSvg.DrawingFrames | sundial/svg.py:40-233 | for every drawing get_svg renders, the frame holds every point and label anchor, and with a radius the square [-r, r]² |
| SundialSvg.DrawingOnCircle | sundial/svg.py:57-193 | with a radius, every point lies within it, every hour mark lies on the circle, and every declination line has ≥ 3 segments ending on the circle |
| SundialSvg.NeverTooSmall | sundial/svg.py:22-25 | with the center inside the circle, get_svg never reaches the exit of line 25 |
| SundialSvg.NoPointsExactly | sundial/svg.py:68-73 | the min of line 72 has no points exactly when every hour line is empty |
| SundialSvg.TemporaryBox | sundial/svg.py:72-84 | the temporary box and font_size = height · 1.1 / 8 / 5 |
| SundialSvg.FinalFrame | sundial/svg.py:196-206 | the final frame computation |
| SundialSvg.Draw | sundial/svg.py:66-233 | get_svg after the pruning: points, box, marks, labels, declination lines and frame in source order |
| SundialSvg.ComputedLinesDistinct | sundial/sundial.py:52-78 | the hour lines compute_hour_lines stores have distinct declination keys |
| SundialSvg.Description.constructor | sundial/svg.py:40 | the sundial description get_svg reads: its hour lines and center |
| SundialSvg.Description.Prune | sundial/svg.py:57-64 | replaces every hour line by its entries within max_radius, keeping keys distinct |
| SundialSvg.Description.GetSvg | sundial/svg.py:40-233 | None without hour lines; the hour lines are pruned in place when a radius is given; the result is SvgOf of the description |

## Code as written

The model follows the code where it differs from what its names or comments suggest:

- `dt_is_gregorian` switches to the Gregorian calendar on 1852-11-04 (`tm_year` -48, `tm_mon` 10, `tm_mday` 4), not on 1582-10-15 (meeus/C/lib/datetime.c:29-36). `dt_jd_to_date` switches at Z = 2299161, so the round trip fails between 1582-10-05 and 1852-11-03 (`DateTimeRoundTrip.RoundTripGapForward`, `RoundTripGapBackward`).
- `ecl_mean_obl_ecliptic` computes the Laskar polynomial at high accuracy and then overwrites it with the cubic. Only the range check depends on the flag (meeus/C/lib/ecliptic.c:175-187).
- `1 / 38710000` in the any-instant sidereal time is an integer division, so it is 0 and the T³ term vanishes (meeus/C/lib/sidereal.c:25).
- The equinox do-while loop tests the signed correction, so a negative step ends it at once. It has no iteration cap (meeus/C/lib/equinox.c:127-133).
- `sun_mean_ecliptic_coord` applies the FK5 correction of Meeus 25.9 to a position that `vso_vsop87d_coordinates` has already corrected, so the correction is applied twice (meeus/C/lib/sun.c:113-122 after meeus/C/lib/vsop87.c:54-60).
- Both geocentric Sun functions take the mean obliquity at high accuracy, whatever accuracy is asked for. They also convert the apparent longitude with the mean obliquity, not the true one (meeus/C/lib/sun.c:146, 172, 194).
- The horizontal transforms are defined as `coo_ecl_to_hor` and `coo_hor_to_ecl` (meeus/C/lib/coordinates.c:48-67), while the header declares `coo_equ_to_hor` and `coo_hor_to_equ` (meeus/C/include/meeus.h:92-95). The model uses the names of the definitions.
- `svg.py` reads `sundial.declinations` and `sundial.declinations_dict` at module level and string keys `str(declination)`. The `sundial.py` shown has the declinations as a class attribute and float keys. The model keys the hour lines by declination value, as `compute_hour_lines` stores them.

## Left out

- Input, output and the process: `printf`, file reading (`read` is a parameter from a path to its lines), `print` and its trailing newline, `sys.exit` (modelled as the `RadiusTooSmall` result), argparse, JSON loading, and the Jinja templates (the model stops at the `Drawing` value that would be rendered).
- Concrete values of sin, cos, tan, atan2, asin and sqrt, and IEEE rounding: the math library is the parameter `Trig`. Literals that need it are not proved: the VSOP87 reference coordinates, the solar coordinates, the 1962 solstice, Kepler's 5.554589° and the equation of time.
- `vsop87.h`: the generated coefficient tables are the parameter `tables`. The model proves what a table needs so that the evaluator reads within bounds.
- `dt_get_current_jd` (it reads the clock), `fround`, `meeus/C/lib/refraction.c`, and the Pesach/Tishri/Jewish-year functions declared in meeus.h (no source for them is part of this model).
- meeus/C/prg/validate_meeus.c, validate_vsop87d.c, biorythm.c, sun_coord.c and meeus/C/lib/test.c are not part of this model. Their expected values appear as literal lemmas. The Gregorian Easter test at validate_meeus.c:86 joins its checks with `&&`, so it would pass on a wrong month or a wrong day alone; the lemmas check both.
- `Sundial.__str__`, `Sundial.get_svg` of sundial.py, sundial/txt.py and sundial/create_sundial.py: text and template rendering.
- The pass-through fields `phi`, `D`, `z`, `a`, `l`, `unit` and `show_coord` of `sundial_map`, the declination names used as keys of `lines_d`, and the arrow shape. The model keeps the declination value instead of its name.
- C `int` width: the casts of a double to `int` in datetime.c (lines 85, 98, 113, 125, 132, 137-140, 153 and 157), `jd - (int) jd` at sidereal.c:32 and the casts at util.c:33-34 are undefined in C outside the 32-bit range, and the `struct tm` fields are `int` too. Util.Trunc, Util.CDiv and Util.CMod are unbounded: the model is faithful where every such value is below 2^31 in magnitude (years within about five million of the epoch, Julian days below 2^31) and does not model overflow beyond it.
- Util.CDiv: modelled for positive divisors only, which is the only kind the code uses.
- The Easter literal for 1993 (April 11) is not proved, because evaluating that year is too costly for the verifier; the other Gregorian literals are.
- Calendar.GregorianEasterIsSunday: stated from 1853 on only. Before 1852-11-04, `dt_get_day_of_week` reads a date as Julian, so the Gregorian Easter of 1583-1852 is not a Sunday by that function.
- Dynamical.DeltaTOfYearPiece: ΔT, and what uses it (Sidereal.ApparentGwSidTime, Coordinates.LocalHourAngle at apparent time), requires jd ≥ 0. For negative input `dt_jd_to_date` fails and leaves the date unset, and ΔT then reads an uninitialised `struct tm`.
- Dynamical.UtToDtRoundTrip: proved when both instants fall in the same calendar month; across a month boundary ΔT changes and the sum is not inverted exactly.
- Sun.SunParam: requires a non-zero denominator 1 + e cos ν, where IEEE arithmetic would give an infinity; Sun.RadiusInRange shows it is positive within ten thousand years of J2000.
- Sun.AberrationCorrection: the low-accuracy quotient -20.4898 / R requires R ≠ 0, where IEEE arithmetic would give an infinity.
- Equinox.IterateEquinox: the loop has no cap in the source. The model runs it for at most `fuel` rounds and reports whether its exit test was met (Equinox.IterateFuel: once met, more fuel changes nothing). It reads the Sun's longitude through the parameter `lon`, which `GetSolEqx` binds to the apparent ecliptic longitude.
- Kepler.IterateBrackets, Kepler.FinalE0Solves, Kepler.EccentricAnomalySolves: that E - e sin E increases on [0, pi] (true for 0 ≤ e < 1) and that Kepler's equation has a root there are hypotheses, because sin is the parameter `Trig`; the bound is in exact arithmetic, without IEEE rounding.
- Kepler.CopySign: reals have no negative zero, so `copysign(D, -0.0)`, which is -D in C, is D in the model.
- Vsop87.TermSumBound: the bound is on each series, not on the coordinates, whose size depends on the table data.
- Vsop87Include.Upper: `str.upper` on ASCII letters only. `int()` accepts an optional sign and ASCII digits, without underscores, surrounding blanks or other Unicode digits. `float()` and `%.11f` are the parameter `fixed11`.
- Vsop87Include.GenerateHeader: only the `vsop87d` version, the only one the script generates.
- Sundials.Center: ZeroDivisionError when P = 0 gives (0, 0), as the `except` branch does. A division by zero in `compute_hour_lines` (Q = 0) is the `raised` result.
- SundialSvg.PushPointCollinear: stated only off the vertical. When center and point share an x, push_point returns (0, ±r) whatever that x is, so the point lies on the line only when x = 0.
- SundialSvg.PushPointSide: stated only with the center inside the circle, the only case where both roots are known to bracket the center.
- SundialSvg.PushPointOnCircle: needs `sqrt` to be a square root for non-negative delta (`SqrtValid`), a property of the math library.
- SundialSvg.Draw: computes the hour labels before the declination segments, as the source does. Neither depends on the other.
