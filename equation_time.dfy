// The equation of time (meeus/C/lib/equation_time.c, Meeus chapter 28): the mean longitude of the
// Sun minus its apparent right ascension, corrected by the nutation in longitude projected on the
// equator, reduced to [0, 360) degrees.

module EquationTime {
  import opened Units
  import opened Util
  import opened Ecliptic
  import opened Vsop87
  import opened Sun

  /** The mean longitude L0 of the Sun as a quintic in tau, millennia since J2000 (Meeus 28.2). */
  const MeanLongitudeL0Coefs: seq<real> :=
    [280.4664567, 360007.6982779, 0.03032028, 1.0 / 49931.0, -1.0 / 15300.0, -1.0 / 2000000.0]

  /** tau = T / 10. */
  function Tau(jde: real): real
  {
    Century(jde) / 10.0
  }

  function MeanLongitudeL0(jde: real): real
  {
    PolyValue(MeanLongitudeL0Coefs, Tau(jde))
  }

  /** At J2000 tau is 0 and L0 is its constant term. */
  lemma MeanLongitudeL0AtJ2000()
    ensures MeanLongitudeL0(2451545.0) == 280.4664567
  {
    assert Tau(2451545.0) == 0.0;
    PolynomAtZero(MeanLongitudeL0Coefs);
  }

  /** The true obliquity, converted from seconds of arc to degrees. */
  function ObliquityDegrees(t: Trig, jde: real): real
    requires TrueObl(t, jde, true).Ok?
  {
    TrueObl(t, jde, true).value / 3600.0
  }

  /** The nutation in longitude, in degrees, projected on the equator: deltaPsi / 3600 cosd(epsilon). */
  function NutationInRightAscension(t: Trig, jde: real): real
    requires TrueObl(t, jde, true).Ok?
  {
    Nutation(t, jde, true, InLongitude) / 3600.0 * Cosd(t, ObliquityDegrees(t, jde))
  }

  /** L0 - 0.00597183 - alpha + deltaPsi cos(epsilon), before the reduction to [0, 360). */
  function UnreducedEquation(t: Trig, jde: real, alpha: real): real
    requires TrueObl(t, jde, true).Ok?
  {
    MeanLongitudeL0(jde) - 0.00597183 - alpha + NutationInRightAscension(t, jde)
  }

  /**
   * The true obliquity fails under the same |T| > 100 test as the apparent position, so the error
   * that eqt_equation_of_time ignores can never occur once the position has been found.
   */
  lemma ObliquityDefinedWithPosition(t: Trig, jde: real, tables: seq<Components>)
    requires t.pi > 0.0 && ValidTables(tables)
    ensures ApparentGeocentric(t, jde, tables, true).Ok? <==> TrueObl(t, jde, true).Ok?
  {
  }

  /** rerange(L0 - 0.00597183 - alpha + deltaPsi cos(epsilon), 360) for a right ascension alpha. */
  function EquationAt(t: Trig, jde: real, alpha: real): (e: real)
    requires TrueObl(t, jde, true).Ok?
    ensures 0.0 <= e < 360.0
  {
    Rerange(UnreducedEquation(t, jde, alpha), 360.0)
  }

  /** The reduction to [0, 360) removes a whole number of turns from the unreduced equation. */
  lemma EquationAtTurns(t: Trig, jde: real, alpha: real)
    requires TrueObl(t, jde, true).Ok?
    ensures var u := UnreducedEquation(t, jde, alpha);
      (u - EquationAt(t, jde, alpha)) / 360.0 == (u / 360.0).Floor as real
  {
    RerangeTurns(UnreducedEquation(t, jde, alpha), 360.0);
  }

  /**
   * eqt_equation_of_time, in degrees: an InvalidRange error from sun_apparent_geocentric_coord
   * (high accuracy) is passed on with nothing written; otherwise the reduced equation at the apparent
   * right ascension of the Sun.
   */
  function EquationOfTime(t: Trig, jde: real, tables: seq<Components>): (r: Result<real>)
    requires t.pi > 0.0 && ValidTables(tables)
    ensures r.Fail? <==> Abs(Century(jde)) > 100.0
    ensures r.Fail? ==> r.error == InvalidRange
    ensures r.Ok? ==> 0.0 <= r.value < 360.0
  {
    match ApparentGeocentric(t, jde, tables, true)
    case Fail(e) => Fail(e)
    case Ok(a) => Ok(EquationAt(t, jde, a.first))
  }

  /** A right ascension larger by whole turns gives the same equation of time. */
  lemma EquationAtPeriodic(t: Trig, jde: real, alpha: real, k: int)
    requires TrueObl(t, jde, true).Ok?
    ensures EquationAt(t, jde, alpha + k as real * 360.0) == EquationAt(t, jde, alpha)
  {
    ShiftedReduction(MeanLongitudeL0(jde), alpha, NutationInRightAscension(t, jde), k);
  }

  lemma ShiftedReduction(l0: real, alpha: real, n: real, k: int)
    ensures Rerange(l0 - 0.00597183 - (alpha + k as real * 360.0) + n, 360.0)
      == Rerange(l0 - 0.00597183 - alpha + n, 360.0)
  {
    var u := l0 - 0.00597183 - alpha + n;
    assert l0 - 0.00597183 - (alpha + k as real * 360.0) + n == u + (-k) as real * 360.0;
    RerangePeriodic(u, 360.0, -k);
  }
}
