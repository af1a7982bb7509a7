// Mean and apparent sidereal time at Greenwich (meeus/C/lib/sidereal.c).
// The mean time is a polynomial in T reduced to one day (formula 12.2 of Meeus at 0h UT, 12.4 at any
// instant); the apparent time adds the equation of the equinoxes, built from the nutation in longitude
// and the true obliquity at the dynamical time of the instant.

module Sidereal {
  import opened Units
  import opened Util
  import opened Dynamical
  import opened Ecliptic

  /** Meeus 12.2 in seconds of time; the constant term is hms_to_s(6, 41, 50.54841). */
  const ZeroUtCoefs: seq<real> := [HmsToS(6.0, 41.0, 50.54841), 8640184.812866, 0.093104, -0.000062]

  /** The cubic coefficient of Meeus 12.4 is written 1 / 38710000, an int division, so it is 0. */
  const AnyUtCubic: real := CDiv(1, 38710000) as real

  /** sid_get_mean_gw_sid_time_0ut: valid at 0h UT only, in seconds of time. */
  function MeanSidTime0h(jd: real): (s: real)
    ensures 0.0 <= s < 86400.0
  {
    Rerange(PolyValue(ZeroUtCoefs, Century(jd)), 86400.0)
  }

  /** The polynomial of Meeus 12.4 in degrees, before the reduction to [0, 360). */
  function AnyUtPolynomial(jd: real): real
  {
    var T := Century(jd);
    280.46061837 + 360.98564736629 * (jd - 2451545.0) + 0.000387933 * T * T - AnyUtCubic * T * T * T
  }

  /** sid_get_mean_gw_sid_time_anyut: valid at any instant, in degrees. */
  function MeanSidTimeAnyUt(jd: real): (d: real)
    ensures 0.0 <= d < 360.0
  {
    Rerange(AnyUtPolynomial(jd), 360.0)
  }

  /** The T^3 term of Meeus 12.4 is absent: the any-instant polynomial is quadratic in T. */
  lemma AnyUtCubicAbsent(jd: real)
    ensures var T := Century(jd);
      AnyUtPolynomial(jd) == 280.46061837 + 360.98564736629 * (jd - 2451545.0) + 0.000387933 * T * T
  {
    CDivOf(1, 38710000, 0, 1);
  }

  /** The test of sid_get_mean_gw_sid_time that selects the 0h formula. */
  predicate AtZeroUt(jd: real)
  {
    jd - Trunc(jd) as real == 0.5
  }

  /**
   * The 0h formula is selected exactly at 0h UT of a non-negative Julian Day: a negative jd ending in .5
   * has jd - (int) jd == -0.5, so it gets the any-instant formula.
   */
  lemma AtZeroUtMeans(jd: real)
    ensures AtZeroUt(jd) <==> jd >= 0.0 && (jd + 0.5).Floor as real == jd + 0.5
  {
    TruncBounds(jd);
    if jd >= 0.0 {
      FloorOfTrunc(jd, Trunc(jd));
    }
  }

  lemma FloorOfTrunc(jd: real, n: int)
    requires n as real <= jd < n as real + 1.0
    ensures (jd + 0.5).Floor as real == jd + 0.5 <==> jd == n as real + 0.5
  {
    if jd < n as real + 0.5 {
      assert (jd + 0.5).Floor == n;
    } else {
      assert (jd + 0.5).Floor == n + 1;
    }
  }

  /** sid_get_mean_gw_sid_time: the mean sidereal time in seconds of time; it never fails. */
  function MeanGwSidTime(jd: real): (r: Result<real>)
    ensures r.Ok?
    ensures 0.0 <= r.value < 86400.0
    ensures AtZeroUt(jd) ==> r.value == MeanSidTime0h(jd)
    ensures !AtZeroUt(jd) ==> SToDeg(r.value) == MeanSidTimeAnyUt(jd)
  {
    if AtZeroUt(jd) then Ok(MeanSidTime0h(jd)) else Ok(DegToS(MeanSidTimeAnyUt(jd)))
  }

  /** Meeus example 12.a: 1987-04-10 0h UT (JD 2446895.5) gives 13h10m46.3668s. */
  lemma MeanSidTimeExample12a()
    ensures MeanGwSidTime(2446895.5).value == MeanSidTime0h(2446895.5)
    ensures 47446.36675 <= MeanSidTime0h(2446895.5) < 47446.36685
    ensures HmsToS(13.0, 10.0, 46.3668) == 47446.3668
  {
    TruncBounds(2446895.5);
    assert Trunc(2446895.5) == 2446895;
    var v := PolyValue(ZeroUtCoefs, Century(2446895.5));
    CubicValue(ZeroUtCoefs, Century(2446895.5));
    assert -1075753.64 < v < -1075753.63;
    assert (v / 86400.0).Floor == -13;
  }

  /** Meeus example 12.b: 1987-04-10 19:21:00 UT (JD 2446896.30625) gives 8h34m57.0896s. */
  lemma MeanSidTimeExample12b()
    ensures 30897.08955 <= MeanGwSidTime(2446896.30625).value < 30897.08965
  {
    TruncBounds(2446896.30625);
    assert Trunc(2446896.30625) == 2446896;
    AnyUtCubicAbsent(2446896.30625);
    var v := AnyUtPolynomial(2446896.30625);
    assert -1677832.0 < v < -1677831.0;
    assert (v / 360.0).Floor == -4661;
  }

  /** The equation of the equinoxes in seconds of time: delta_psi * cosd(epsilon / 3600) / 15. */
  function EquinoxCorrection(t: Trig, deltaPsi: real, epsilon: real): real
  {
    deltaPsi * Cosd(t, epsilon / 3600.0) / 15.0
  }

  /**
   * sid_get_apparent_gw_sid_time: the mean time plus the equation of the equinoxes, taken at the
   * dynamical time jd_to_jde(jd); the sum is not reduced to one day again. It fails exactly when the
   * high-accuracy true obliquity does, and then writes nothing.
   */
  function ApparentGwSidTime(t: Trig, jd: real): (r: Result<real>)
    requires jd >= 0.0
    ensures r.Fail? <==> Abs(Century(UtToDt(jd))) > 100.0
    ensures r.Fail? ==> r.error == InvalidRange
    ensures r.Ok? ==> var jde := UtToDt(jd);
      r.value == MeanGwSidTime(jd).value
        + EquinoxCorrection(t, Nutation(t, jde, true, InLongitude), TrueObl(t, jde, true).value)
  {
    var jde := UtToDt(jd);
    var deltaPsi := Nutation(t, jde, true, InLongitude);
    match MeanGwSidTime(jd)
    case Fail(e) => Fail(e)
    case Ok(meanT) =>
      match TrueObl(t, jde, true)
      case Fail(e) => Fail(e)
      case Ok(epsilon) => Ok(meanT + EquinoxCorrection(t, deltaPsi, epsilon))
  }

  /** The equation of the equinoxes is bounded by the coefficient sum of the nutation series. */
  lemma ApparentNearMean(t: Trig, jd: real)
    requires ValidTrig(t) && jd >= 0.0 && ApparentGwSidTime(t, jd).Ok?
    ensures Abs(ApparentGwSidTime(t, jd).value - MeanGwSidTime(jd).value)
      <= SeriesBound(Century(UtToDt(jd)), NutTab, InLongitude, |NutTab|) / 10000.0 / 15.0
  {
    var jde := UtToDt(jd);
    NutationBound(t, jde, true, InLongitude);
    CorrectionBound(t, Nutation(t, jde, true, InLongitude), TrueObl(t, jde, true).value,
      SeriesBound(Century(jde), NutTab, InLongitude, |NutTab|) / 10000.0);
  }

  /** |delta_psi * cosd(epsilon / 3600) / 15| <= |delta_psi| / 15. */
  lemma CorrectionBound(t: Trig, psi: real, epsilon: real, b: real)
    requires BoundedTrig(t) && Abs(psi) <= b
    ensures Abs(EquinoxCorrection(t, psi, epsilon)) <= b / 15.0
  {
    var c := Cosd(t, epsilon / 3600.0);
    SindCosdBounded(t, epsilon / 3600.0);
    TermBound(0.0, 0.0, psi, c);
    var p := psi * c;
    assert Abs(p) <= b;
    assert EquinoxCorrection(t, psi, epsilon) == p / 15.0;
  }
}
