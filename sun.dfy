// The position of the Sun (meeus/C/lib/sun.c): the low-accuracy orbital elements of Meeus chapter 25,
// the aberration correction, the ecliptic coordinates built from the VSOP87 position of the Earth, and
// the geocentric right ascension and declination in both accuracies.

module Sun {
  import opened Units
  import opened Util
  import opened Ecliptic
  import opened Coordinates
  import opened Vsop87

  // ---------------------------------------------------------------------
  // sun_get_param
  // ---------------------------------------------------------------------

  /** Geometric mean longitude L0, mean anomaly M and eccentricity e of the Earth orbit, in T. */
  const MeanLongitudeCoefs: seq<real> := [280.46646, 36000.76983, 0.0003032]
  const MeanAnomalyCoefs: seq<real> := [357.52911, 35999.05029, -0.0001537]
  const EccentricityCoefs: seq<real> := [0.016708634, -0.000042037, -0.0000001267]
  /** The coefficient of sind(M) in the equation of the center. */
  const CenterCoefs: seq<real> := [1.914602, -0.004817, -0.000014]

  /** The radius vector is 1.000001018 (1 - e^2) / (1 + e cos nu). */
  const SemiMajorAxis: real := 1.000001018

  function MeanLongitude(T: real): real { PolyValue(MeanLongitudeCoefs, T) }

  function MeanAnomaly(T: real): real { PolyValue(MeanAnomalyCoefs, T) }

  function Eccentricity(T: real): real { PolyValue(EccentricityCoefs, T) }

  /** The equation of the center C. */
  function Center(t: Trig, T: real): real
  {
    var M := MeanAnomaly(T);
    PolyValue(CenterCoefs, T) * Sind(t, M) + (0.019993 - 0.000101 * T) * Sind(t, 2.0 * M)
      + 0.000289 * Sind(t, 3.0 * M)
  }

  /** The true longitude O = L0 + C, the only element the low-accuracy coordinates use. */
  function TrueLongitude(t: Trig, T: real): real
  {
    MeanLongitude(T) + Center(t, T)
  }

  /** The true anomaly nu = M + C. */
  function TrueAnomaly(t: Trig, T: real): real
  {
    MeanAnomaly(T) + Center(t, T)
  }

  /** The denominator 1 + e cos(nu) of the radius vector, for c = cos(nu). */
  function RadiusDenominator(e: real, c: real): real
  {
    1.0 + e * c
  }

  /** The numerator 1.000001018 (1 - e^2) of the radius vector. */
  function RadiusNumerator(e: real): real
  {
    SemiMajorAxis * (1.0 - e * e)
  }

  /** cos(nu), the cosine of the true anomaly. */
  function CosTrueAnomaly(t: Trig, T: real): real
  {
    Cosd(t, TrueAnomaly(t, T))
  }

  /** The three values sun_get_param writes. */
  datatype SolarParams = SolarParams(O: real, nu: real, R: real)

  /**
   * sun_get_param: the true longitude, the true anomaly and the radius vector at jd. The radius is a
   * quotient, so the model needs its denominator to be non-zero (IEEE arithmetic would give an infinity);
   * RadiusInRange shows it is positive within the range of the polynomials.
   */
  function SunParam(t: Trig, jd: real): (p: SolarParams)
    requires RadiusDenominator(Eccentricity(Century(jd)), CosTrueAnomaly(t, Century(jd))) != 0.0
    ensures var T := Century(jd); var e := Eccentricity(T);
      p.O - p.nu == MeanLongitude(T) - MeanAnomaly(T)
      && p.R * RadiusDenominator(e, CosTrueAnomaly(t, T)) == RadiusNumerator(e)
  {
    var T := Century(jd);
    DivMul(RadiusNumerator(Eccentricity(T)), RadiusDenominator(Eccentricity(T), CosTrueAnomaly(t, T)));
    SolarParams(TrueLongitude(t, T), TrueAnomaly(t, T),
      RadiusNumerator(Eccentricity(T)) / RadiusDenominator(Eccentricity(T), CosTrueAnomaly(t, T)))
  }

  /** Within ten thousand years of J2000 the eccentricity stays between 0.0112 and 0.0210. */
  lemma EccentricityBounds(T: real)
    requires Abs(T) <= 100.0
    ensures 0.0112 <= Eccentricity(T) <= 0.0210
  {
    QuadraticValue(EccentricityCoefs, T);
    SquareBound(T, 100.0);
  }

  lemma SquareBound(x: real, m: real)
    requires Abs(x) <= m
    ensures 0.0 <= x * x <= m * m
  {
    var a := Abs(x);
    assert x * x == a * a;
    ProductNonneg(m - a, m + a);
    ProductNonneg(a, a);
  }

  /**
   * Within the range of the polynomials the denominator of the radius vector is positive, and the radius
   * vector lies between perihelion a (1 - e) and aphelion a (1 + e).
   */
  lemma RadiusInRange(t: Trig, jd: real)
    requires BoundedTrig(t) && Abs(Century(jd)) <= 100.0
    ensures RadiusDenominator(Eccentricity(Century(jd)), CosTrueAnomaly(t, Century(jd))) > 0.0
    ensures var e := Eccentricity(Century(jd));
      SemiMajorAxis * (1.0 - e) <= SunParam(t, jd).R <= SemiMajorAxis * (1.0 + e)
  {
    var T := Century(jd);
    SindCosdBounded(t, TrueAnomaly(t, T));
    EccentricityBounds(T);
    RadiusBounds(Eccentricity(T), CosTrueAnomaly(t, T));
  }

  /** 1 - e <= 1 + e c <= 1 + e for e >= 0 and |c| <= 1. */
  lemma DenominatorBounds(e: real, c: real)
    requires e >= 0.0 && -1.0 <= c <= 1.0
    ensures 1.0 - e <= RadiusDenominator(e, c) <= 1.0 + e
  {
    ProductNonneg(e, 1.0 + c);
    ProductNonneg(e, 1.0 - c);
  }

  /** For 0 < e < 1 and |c| <= 1 the denominator is positive and a (1 - e) <= R <= a (1 + e). */
  lemma RadiusBounds(e: real, c: real)
    requires 0.0 < e < 1.0 && -1.0 <= c <= 1.0
    ensures RadiusDenominator(e, c) > 0.0
    ensures SemiMajorAxis * (1.0 - e) <= RadiusNumerator(e) / RadiusDenominator(e, c) <= SemiMajorAxis * (1.0 + e)
  {
    var d := RadiusDenominator(e, c);
    var n := RadiusNumerator(e);
    DenominatorBounds(e, c);
    NumeratorFactors(e);
    DivMul(n, d);
    var R := n / d;
    assert R * d == n;
    LowerRadius(SemiMajorAxis, e, d, R);
    UpperRadius(SemiMajorAxis, e, d, R);
  }

  lemma NumeratorFactors(e: real)
    ensures RadiusNumerator(e) == SemiMajorAxis * (1.0 - e) * (1.0 + e)
  {
  }

  lemma LowerRadius(a: real, e: real, d: real, R: real)
    requires a > 0.0 && 0.0 < e < 1.0 && 1.0 - e <= d <= 1.0 + e && R * d == a * (1.0 - e) * (1.0 + e)
    ensures a * (1.0 - e) <= R
  {
    var b := a * (1.0 - e);
    ProductPos(a, 1.0 - e);
    if R < b {
      ProductPos(b - R, d);
      ProductNonneg(b, 1.0 + e - d);
      assert false;
    }
  }

  lemma UpperRadius(a: real, e: real, d: real, R: real)
    requires a > 0.0 && 0.0 < e < 1.0 && 1.0 - e <= d <= 1.0 + e && R * d == a * (1.0 - e) * (1.0 + e)
    ensures R <= a * (1.0 + e)
  {
    var b := a * (1.0 + e);
    ProductPos(a, 1.0 + e);
    if R > b {
      ProductPos(R - b, d);
      ProductNonneg(b, d - (1.0 - e));
      assert false;
    }
  }

  // ---------------------------------------------------------------------
  // sun_get_aberration_correction
  // ---------------------------------------------------------------------

  /** One row {a, b, c} of the aberration tables: the term a tau^k sind(b + c tau). */
  datatype AberRow = AberRow(a: real, b: real, c: real)

  /** The periodic terms of Meeus 25.11, multiplied by tau^0, tau^1, tau^2 and tau^3 in turn. */
  const AberTable0: seq<AberRow> := [
    AberRow(118.568, 87.5287, 359993.7286), AberRow(2.476, 85.0561, 719987.4571),
    AberRow(1.376, 27.8502, 4452671.1152), AberRow(0.119, 73.1375, 450368.8564),
    AberRow(0.114, 337.2264, 329644.6718), AberRow(0.086, 222.54, 659289.3436),
    AberRow(0.078, 162.8136, 9224659.7915), AberRow(0.054, 82.5823, 1079981.1857),
    AberRow(0.052, 171.5189, 225184.4282), AberRow(0.034, 30.3214, 4092677.3866),
    AberRow(0.033, 119.8105, 337181.4711), AberRow(0.023, 247.5418, 299295.6151),
    AberRow(0.023, 325.1526, 315559.556), AberRow(0.021, 155.1241, 675553.2846)]
  const AberTable1: seq<AberRow> := [
    AberRow(7.311, 333.4515, 359993.7286), AberRow(0.305, 330.9814, 719987.4571),
    AberRow(0.01, 328.5170, 1079981.1857)]
  const AberTable2: seq<AberRow> := [
    AberRow(0.309, 241.4518, 359993.7286), AberRow(0.021, 205.0482, 719987.4571),
    AberRow(0.004, 297.861, 4452671.1152)]
  const AberTable3: seq<AberRow> := [AberRow(0.01, 154.7066, 359993.7286)]

  /** The constant term of the variation deltaLambda, and the factors of Meeus 25.10 and 25.11. */
  const DeltaLambda0: real := 3548.193
  const LowAberration: real := -20.4898
  const HighAberrationFactor: real := -0.005775518

  function AberrationTerm(t: Trig, row: AberRow, k: nat, tau: real): real
  {
    row.a * Pow(tau, k) * Sind(t, row.b + row.c * tau)
  }

  /** The sum of the terms of the first n rows of tab. */
  function AberrationSum(t: Trig, tab: seq<AberRow>, k: nat, tau: real, n: int): real
    requires 0 <= n <= |tab|
  {
    if n == 0 then 0.0 else AberrationSum(t, tab, k, tau, n - 1) + AberrationTerm(t, tab[n - 1], k, tau)
  }

  /** deltaLambda: 3548.193 plus the four tables. */
  function DeltaLambda(t: Trig, tau: real): real
  {
    DeltaLambda0 + AberrationSum(t, AberTable0, 0, tau, |AberTable0|)
      + AberrationSum(t, AberTable1, 1, tau, |AberTable1|)
      + AberrationSum(t, AberTable2, 2, tau, |AberTable2|)
      + AberrationSum(t, AberTable3, 3, tau, |AberTable3|)
  }

  /**
   * The aberration correction in seconds of arc: -20.4898 / R at low accuracy (Meeus 25.10), and
   * -0.005775518 R deltaLambda with tau in millennia at high accuracy (Meeus 25.11). The low-accuracy
   * quotient needs R != 0.
   */
  function Aberration(t: Trig, jde: real, R: real, high: bool): real
    requires !high ==> R != 0.0
  {
    if !high then LowAberration / R else HighAberrationFactor * R * DeltaLambda(t, Millennia(jde))
  }

  /** One of the four loops of sun_get_aberration_correction: deltaLambda += a tau^k sind(b + c tau). */
  method AddAberrationTable(t: Trig, tab: seq<AberRow>, k: nat, tau: real, deltaLambda: real)
    returns (sum: real)
    ensures sum == deltaLambda + AberrationSum(t, tab, k, tau, |tab|)
  {
    sum := deltaLambda;
    var i := 0;
    while i < |tab|
      invariant 0 <= i <= |tab|
      invariant sum == deltaLambda + AberrationSum(t, tab, k, tau, i)
    {
      sum := sum + AberrationTerm(t, tab[i], k, tau);
      i := i + 1;
    }
  }

  /** sun_get_aberration_correction. */
  method AberrationCorrection(t: Trig, jde: real, R: real, high: bool) returns (r: real)
    requires !high ==> R != 0.0
    ensures r == Aberration(t, jde, R, high)
  {
    var tau := Millennia(jde);
    var deltaLambda := DeltaLambda0;
    if !high {
      return LowAberration / R;
    }
    deltaLambda := AddAberrationTable(t, AberTable0, 0, tau, deltaLambda);
    deltaLambda := AddAberrationTable(t, AberTable1, 1, tau, deltaLambda);
    deltaLambda := AddAberrationTable(t, AberTable2, 2, tau, deltaLambda);
    deltaLambda := AddAberrationTable(t, AberTable3, 3, tau, deltaLambda);
    return HighAberrationFactor * R * deltaLambda;
  }

  /** The sum of the amplitudes |a| of the first n rows. */
  function RowAmplitudes(tab: seq<AberRow>, n: int): (m: real)
    requires 0 <= n <= |tab|
    ensures m >= 0.0
  {
    if n == 0 then 0.0 else RowAmplitudes(tab, n - 1) + Abs(tab[n - 1].a)
  }

  /** Within a thousand years of J2000 a term is at most its amplitude. */
  lemma AberrationTermBound(t: Trig, row: AberRow, k: nat, tau: real)
    requires BoundedTrig(t) && Abs(tau) <= 1.0
    ensures Abs(AberrationTerm(t, row, k, tau)) <= Abs(row.a)
  {
    SindCosdBounded(t, row.b + row.c * tau);
    TermWithinAmplitude(t, row, k, tau);
  }

  lemma TermWithinAmplitude(t: Trig, row: AberRow, k: nat, tau: real)
    requires Abs(tau) <= 1.0 && -1.0 <= Sind(t, row.b + row.c * tau) <= 1.0
    ensures Abs(AberrationTerm(t, row, k, tau)) <= Abs(row.a)
  {
    var p, s := Pow(tau, k), Sind(t, row.b + row.c * tau);
    PowAtMostOne(tau, k);
    var x := AberrationTerm(t, row, k, tau);
    assert x == row.a * p * s;
    ScaledProductBound(row.a, p, s);
  }

  /** |a p s| <= |a| for |p| <= 1 and |s| <= 1. */
  lemma ScaledProductBound(a: real, p: real, s: real)
    requires Abs(p) <= 1.0 && -1.0 <= s <= 1.0
    ensures Abs(a * p * s) <= Abs(a)
  {
    AbsMul(a, p);
    AbsMul(a * p, s);
    ProductNonneg(Abs(a), 1.0 - Abs(p));
    ProductNonneg(Abs(a * p), 1.0 - Abs(s));
  }

  lemma {:induction false} AberrationSumBound(t: Trig, tab: seq<AberRow>, k: nat, tau: real, n: int)
    requires BoundedTrig(t) && Abs(tau) <= 1.0 && 0 <= n <= |tab|
    ensures Abs(AberrationSum(t, tab, k, tau, n)) <= RowAmplitudes(tab, n)
  {
    if n > 0 {
      AberrationSumBound(t, tab, k, tau, n - 1);
      AberrationTermBound(t, tab[n - 1], k, tau);
      AbsAdd(AberrationSum(t, tab, k, tau, n - 1), AberrationTerm(t, tab[n - 1], k, tau));
    }
  }

  /** The amplitudes of the four tables add up to 123.057, 7.626, 0.334 and 0.01 seconds of arc. */
  lemma TableAmplitudes()
    ensures RowAmplitudes(AberTable0, |AberTable0|) == 123.057
    ensures RowAmplitudes(AberTable1, |AberTable1|) == 7.626
    ensures RowAmplitudes(AberTable2, |AberTable2|) == 0.334
    ensures RowAmplitudes(AberTable3, |AberTable3|) == 0.01
  {
    assert RowAmplitudes(AberTable0, 3) == 122.42;
    assert RowAmplitudes(AberTable0, 6) == 122.739;
    assert RowAmplitudes(AberTable0, 9) == 122.923;
    assert RowAmplitudes(AberTable0, 12) == 123.013;
    assert RowAmplitudes(AberTable1, 1) == 7.311;
    assert RowAmplitudes(AberTable2, 1) == 0.309;
  }

  /** Within a thousand years of J2000 deltaLambda stays within 131.027 of 3548.193. */
  lemma DeltaLambdaBound(t: Trig, tau: real)
    requires BoundedTrig(t) && Abs(tau) <= 1.0
    ensures Abs(DeltaLambda(t, tau) - DeltaLambda0) <= 131.027
  {
    TableAmplitudes();
    AberrationSumBound(t, AberTable0, 0, tau, |AberTable0|);
    AberrationSumBound(t, AberTable1, 1, tau, |AberTable1|);
    AberrationSumBound(t, AberTable2, 2, tau, |AberTable2|);
    AberrationSumBound(t, AberTable3, 3, tau, |AberTable3|);
  }

  /**
   * For a positive distance the correction is negative: the Sun is seen behind its geometric position.
   * Within a thousand years of J2000 the high-accuracy value stays within 0.005775518 * 131.027 R of
   * -0.005775518 * 3548.193 R = -20.4927 R, next to the low-accuracy -20.4898 / R at R = 1.
   */
  lemma AberrationNegative(t: Trig, jde: real, R: real, high: bool)
    requires BoundedTrig(t) && R > 0.0 && (high ==> Abs(Millennia(jde)) <= 1.0)
    ensures Aberration(t, jde, R, high) < 0.0
    ensures high ==>
      Abs(Aberration(t, jde, R, high) - HighAberrationFactor * DeltaLambda0 * R) <= -HighAberrationFactor * 131.027 * R
  {
    if high {
      DeltaLambdaBound(t, Millennia(jde));
      HighAberrationBounds(R, DeltaLambda(t, Millennia(jde)));
    }
  }

  lemma HighAberrationBounds(R: real, d: real)
    requires R > 0.0 && Abs(d - DeltaLambda0) <= 131.027
    ensures HighAberrationFactor * R * d < 0.0
    ensures Abs(HighAberrationFactor * R * d - HighAberrationFactor * DeltaLambda0 * R)
      <= -HighAberrationFactor * 131.027 * R
  {
    var f := HighAberrationFactor * R;
    var x := HighAberrationFactor * R * d - HighAberrationFactor * DeltaLambda0 * R;
    ProductPos(-f, d);
    ScaledBound(d - DeltaLambda0, 131.027, f);
    assert x == (d - DeltaLambda0) * f;
    assert Abs(f) == -f;
  }

  // ---------------------------------------------------------------------
  // sun_mean_ecliptic_coord, sun_apparent_ecliptic_coord
  // ---------------------------------------------------------------------

  /** The FK5 shift of Meeus 25.9 in longitude, in degrees. */
  const Fk5LongitudeShift: real := 0.09033 / 3600.0

  /** The FK5 correction of Meeus 25.9 in latitude, in degrees, at the auxiliary longitude lp. */
  function Fk5LatitudeShift(t: Trig, lp: real): real
  {
    0.03916 * (Cosd(t, lp) - Sind(t, lp)) / 3600.0
  }

  /** The auxiliary longitude lambda' = lambda - 1.397 T - 0.00031 T^2 of Meeus 25.9. */
  function AuxLongitude(lambda: real, T: real): real
  {
    lambda - 1.397 * T - 0.00031 * T * T
  }

  /**
   * sun_mean_ecliptic_coord: the geocentric longitude and latitude of the Sun, the heliocentric FK5
   * position of the Earth turned by 180 degrees, then corrected by Meeus 25.9 once more.
   */
  function MeanEcliptic(t: Trig, jde: real, tables: seq<Components>): Spherical
    requires t.pi > 0.0 && ValidTables(tables)
  {
    var earth := Fk5Spherical(t, jde, tables, Earth);
    var lambda0 := Rerange(earth.L + 180.0, 360.0);
    var lp := AuxLongitude(lambda0, Century(jde));
    Spherical(lambda0 - Fk5LongitudeShift, -earth.B + Fk5LatitudeShift(t, lp), earth.R)
  }

  /** sun_mean_ecliptic_coord, with the Earth's coordinates in a local three-element array. */
  method MeanEclipticCoord(t: Trig, jde: real, tables: seq<Components>) returns (lambda: real, beta: real, R: real)
    requires t.pi > 0.0 && ValidTables(tables)
    ensures Spherical(lambda, beta, R) == MeanEcliptic(t, jde, tables)
  {
    var coord := new real[3];
    Vsop87.Coordinates(t, jde, tables, Earth, coord);
    lambda := Rerange(coord[0] + 180.0, 360.0);
    beta := -coord[1];
    R := coord[2];
    var T := Century(jde);
    var lambdaprime := AuxLongitude(lambda, T);
    lambda := lambda - Fk5LongitudeShift;
    beta := beta + Fk5LatitudeShift(t, lambdaprime);
  }

  /**
   * The Sun is where the Earth is not: its distance is the Earth's VSOP87 radius vector, and its
   * longitude, back in [0, 360), is the Earth's FK5 longitude plus 180 degrees, less the FK5 shift
   * of 0.09033", which the Earth's longitude already carries once.
   */
  lemma MeanEclipticOpposesEarth(t: Trig, jde: real, tables: seq<Components>)
    requires t.pi > 0.0 && ValidTables(tables)
    ensures MeanEcliptic(t, jde, tables).R == DynCoordinate(t, tables[PlanetIndex(Earth)], 2, Millennia(jde))
    ensures var s := MeanEcliptic(t, jde, tables);
      -Fk5LongitudeShift <= s.L < 360.0 - Fk5LongitudeShift
      && s.L + Fk5LongitudeShift == Rerange(Fk5Spherical(t, jde, tables, Earth).L + 180.0, 360.0)
  {
  }

  /**
   * Meeus 25.9 is applied twice: once to the Earth inside vso_vsop87d_coordinates and once more here,
   * so the latitude is the negated dynamical latitude of the Earth with two corrections, each at most
   * 2 * 0.03916" in size.
   */
  lemma MeanEclipticLatitude(t: Trig, jde: real, tables: seq<Components>)
    requires ValidTrig(t) && ValidTables(tables)
    ensures var T := Century(jde);
      var dyn := DynSpherical(t, jde, tables, Earth);
      var s := MeanEcliptic(t, jde, tables);
      var lp1 := AuxLongitude(RadToDeg(t, dyn.L), T);
      var lp2 := AuxLongitude(Rerange(Fk5Spherical(t, jde, tables, Earth).L + 180.0, 360.0), T);
      s.B == -RadToDeg(t, dyn.B) - Fk5LatitudeShift(t, lp1) + Fk5LatitudeShift(t, lp2)
      && Abs(s.B + RadToDeg(t, dyn.B)) <= 4.0 * 0.03916 / 3600.0
  {
    var T := Century(jde);
    var dyn := DynSpherical(t, jde, tables, Earth);
    var lp1 := AuxLongitude(RadToDeg(t, dyn.L), T);
    var lp2 := AuxLongitude(Rerange(Fk5Spherical(t, jde, tables, Earth).L + 180.0, 360.0), T);
    SindCosdBounded(t, lp1);
    SindCosdBounded(t, lp2);
    assert ArcsecToDeg(0.03916 * (Cosd(t, lp1) - Sind(t, lp1))) == Fk5LatitudeShift(t, lp1);
  }

  /**
   * sun_apparent_ecliptic_coord: the mean coordinates with the longitude corrected by the
   * high-accuracy nutation in longitude and the high-accuracy aberration at the Sun's distance.
   */
  function ApparentEcliptic(t: Trig, jde: real, tables: seq<Components>): Spherical
    requires t.pi > 0.0 && ValidTables(tables)
  {
    var s := MeanEcliptic(t, jde, tables);
    var correction := Nutation(t, jde, true, InLongitude) + Aberration(t, jde, s.R, true);
    Spherical(s.L + correction / 3600.0, s.B, s.R)
  }

  method ApparentEclipticCoord(t: Trig, jde: real, tables: seq<Components>)
    returns (lambda: real, beta: real, R: real)
    requires t.pi > 0.0 && ValidTables(tables)
    ensures Spherical(lambda, beta, R) == ApparentEcliptic(t, jde, tables)
  {
    lambda, beta, R := MeanEclipticCoord(t, jde, tables);
    var correction := NutInLon(t, jde, true);
    var aberration := AberrationCorrection(t, jde, R, true);
    correction := correction + aberration;
    lambda := lambda + correction / 3600.0;
  }

  /**
   * Only the longitude moves from mean to apparent. For a positive distance within a thousand years
   * of J2000 the aberration part is negative, so the apparent longitude lies behind the mean
   * longitude plus the nutation, by at most 0.005775518 (3548.193 + 131.027) R seconds of arc.
   */
  lemma ApparentEclipticShift(t: Trig, jde: real, tables: seq<Components>)
    requires ValidTrig(t) && ValidTables(tables)
    ensures var m := MeanEcliptic(t, jde, tables);
      var s := ApparentEcliptic(t, jde, tables);
      s.B == m.B && s.R == m.R
    ensures var m := MeanEcliptic(t, jde, tables);
      var s := ApparentEcliptic(t, jde, tables);
      var d := s.L - m.L - ArcsecToDeg(Nutation(t, jde, true, InLongitude));
      m.R > 0.0 && Abs(Millennia(jde)) <= 1.0 ==>
        d < 0.0 && -d <= -HighAberrationFactor * (DeltaLambda0 + 131.027) * m.R / 3600.0
  {
    var m := MeanEcliptic(t, jde, tables);
    if m.R > 0.0 && Abs(Millennia(jde)) <= 1.0 {
      AberrationNegative(t, jde, m.R, true);
      var a := Aberration(t, jde, m.R, true);
      assert Abs(a - HighAberrationFactor * DeltaLambda0 * m.R) <= -HighAberrationFactor * 131.027 * m.R;
    }
  }

  // ---------------------------------------------------------------------
  // sun_mean_geocentric_coord, sun_apparent_geocentric_coord
  // ---------------------------------------------------------------------

  /** The atan2 and asin arguments for a body on the ecliptic: cos eps sin lambda and sin eps sin lambda. */
  function PointLonArg(t: Trig, lambda: real, epsilon: real): real
  {
    Cosd(t, epsilon) * Sind(t, lambda)
  }

  function PointLatArg(t: Trig, lambda: real, epsilon: real): real
  {
    Sind(t, epsilon) * Sind(t, lambda)
  }

  /**
   * The low-accuracy right ascension, reduced to [0, 360), and declination of a body on the ecliptic
   * at longitude lambda, for obliquity epsilon.
   */
  function EclipticPointToEqu(t: Trig, lambda: real, epsilon: real): (a: Angles)
    requires t.pi > 0.0
    ensures 0.0 <= a.first < 360.0
  {
    Angles(Rerange(RadToDeg(t, Atan2(t, PointLonArg(t, lambda, epsilon), Cosd(t, lambda))), 360.0),
      RadToDeg(t, Asin(t, PointLatArg(t, lambda, epsilon))))
  }

  /** That formula is coo_ecl_to_equ at latitude 0, with the right ascension reduced to [0, 360). */
  lemma EclipticPointIsZeroLatitude(t: Trig, lambda: real, epsilon: real)
    requires ValidTrig(t)
    ensures var a := EclToEqu(t, lambda, 0.0, epsilon);
      EclipticPointToEqu(t, lambda, epsilon) == Angles(Rerange(a.first, 360.0), a.second)
  {
    TrigAtZero(t);
    assert EclLonArg(t, lambda, 0.0, epsilon) == PointLonArg(t, lambda, epsilon);
    assert EclLatArg(t, lambda, 0.0, epsilon) == PointLatArg(t, lambda, epsilon);
  }

  /**
   * sun_mean_geocentric_coord: the range error of the high-accuracy mean obliquity is passed on
   * whatever the accuracy asked for. At low accuracy the true longitude of sun_get_param is put on the
   * ecliptic; at high accuracy the VSOP87 mean ecliptic coordinates are converted by coo_ecl_to_equ,
   * whose right ascension is not reduced.
   */
  function MeanGeocentric(t: Trig, jde: real, tables: seq<Components>, high: bool): (r: Result<Angles>)
    requires t.pi > 0.0 && ValidTables(tables)
    ensures r.Fail? <==> Abs(Century(jde)) > 100.0
    ensures r.Fail? ==> r.error == InvalidRange
  {
    match MeanObl(jde, true)
    case Fail(e) => Fail(e)
    case Ok(obl) =>
      var epsilon := ArcsecToDeg(obl);
      if !high then Ok(EclipticPointToEqu(t, TrueLongitude(t, Century(jde)), epsilon))
      else
        var s := MeanEcliptic(t, jde, tables);
        Ok(EclToEqu(t, s.L, s.B, epsilon))
  }

  method MeanGeocentricCoord(t: Trig, jde: real, tables: seq<Components>, high: bool) returns (r: Result<Angles>)
    requires t.pi > 0.0 && ValidTables(tables)
    ensures r == MeanGeocentric(t, jde, tables, high)
  {
    var epsilon: real;
    match MeanObl(jde, true)
    case Fail(e) => return Fail(e);
    case Ok(obl) => epsilon := obl;
    epsilon := ArcsecToDeg(epsilon);
    if !high {
      var O := TrueLongitude(t, Century(jde));
      return Ok(EclipticPointToEqu(t, O, epsilon));
    }
    var lambda, beta, R := MeanEclipticCoord(t, jde, tables);
    return Ok(EclToEqu(t, lambda, beta, epsilon));
  }

  /** The nutation argument Omega = 125.04 - 1934.136 T of the low-accuracy apparent position. */
  function LowOmega(T: real): real
  {
    125.04 - 1934.136 * T
  }

  /** The low-accuracy apparent longitude O - 0.00569 - 0.00478 sind(Omega). */
  function LowApparentLongitude(t: Trig, T: real): real
  {
    TrueLongitude(t, T) - 0.00569 - 0.00478 * Sind(t, LowOmega(T))
  }

  /**
   * sun_apparent_geocentric_coord: at low accuracy the true longitude corrected by
   * -0.00569 - 0.00478 sind(Omega) and the mean obliquity by 0.00256 cosd(Omega) (Meeus 25.8); at high
   * accuracy the apparent ecliptic coordinates converted with the mean obliquity, the right ascension
   * reduced to [0, 360).
   */
  function ApparentGeocentric(t: Trig, jde: real, tables: seq<Components>, high: bool): (r: Result<Angles>)
    requires t.pi > 0.0 && ValidTables(tables)
    ensures r.Fail? <==> Abs(Century(jde)) > 100.0
    ensures r.Fail? ==> r.error == InvalidRange
    ensures r.Ok? ==> 0.0 <= r.value.first < 360.0
  {
    match MeanObl(jde, true)
    case Fail(e) => Fail(e)
    case Ok(obl) =>
      var epsilon := ArcsecToDeg(obl);
      if !high then
        var T := Century(jde);
        Ok(EclipticPointToEqu(t, LowApparentLongitude(t, T), epsilon + 0.00256 * Cosd(t, LowOmega(T))))
      else
        var s := ApparentEcliptic(t, jde, tables);
        var a := EclToEqu(t, s.L, s.B, epsilon);
        Ok(Angles(Rerange(a.first, 360.0), a.second))
  }

  method ApparentGeocentricCoord(t: Trig, jde: real, tables: seq<Components>, high: bool)
    returns (r: Result<Angles>)
    requires t.pi > 0.0 && ValidTables(tables)
    ensures r == ApparentGeocentric(t, jde, tables, high)
  {
    var epsilon: real;
    match MeanObl(jde, true)
    case Fail(e) => return Fail(e);
    case Ok(obl) => epsilon := obl;
    epsilon := ArcsecToDeg(epsilon);
    if !high {
      var T := Century(jde);
      var omega := LowOmega(T);
      var lambda := TrueLongitude(t, T) - 0.00569 - 0.00478 * Sind(t, omega);
      epsilon := epsilon + 0.00256 * Cosd(t, omega);
      return Ok(EclipticPointToEqu(t, lambda, epsilon));
    }
    var lambda, beta, R := ApparentEclipticCoord(t, jde, tables);
    var a := EclToEqu(t, lambda, beta, epsilon);
    return Ok(Angles(Rerange(a.first, 360.0), a.second));
  }

  /**
   * The low-accuracy path puts the Sun on the ecliptic: its mean position is coo_ecl_to_equ of (O, 0)
   * with the mean obliquity, the right ascension reduced to [0, 360).
   */
  lemma LowMeanOnEcliptic(t: Trig, jde: real, tables: seq<Components>)
    requires ValidTrig(t) && ValidTables(tables) && Abs(Century(jde)) <= 100.0
    ensures var T := Century(jde);
      var a := EclToEqu(t, TrueLongitude(t, T), 0.0, ArcsecToDeg(Cubic(MeanOblCoefs, T)));
      MeanGeocentric(t, jde, tables, false) == Ok(Angles(Rerange(a.first, 360.0), a.second))
  {
    var T := Century(jde);
    LowGeocentric(t, jde, tables);
    EclipticPointIsZeroLatitude(t, TrueLongitude(t, T), ArcsecToDeg(Cubic(MeanOblCoefs, T)));
  }

  /**
   * Its apparent position is that of the corrected longitude at latitude 0 with the corrected
   * obliquity.
   */
  lemma LowApparentOnEcliptic(t: Trig, jde: real, tables: seq<Components>)
    requires ValidTrig(t) && ValidTables(tables) && Abs(Century(jde)) <= 100.0
    ensures var T := Century(jde);
      var epsilon := ArcsecToDeg(Cubic(MeanOblCoefs, T)) + 0.00256 * Cosd(t, LowOmega(T));
      var a := EclToEqu(t, LowApparentLongitude(t, T), 0.0, epsilon);
      ApparentGeocentric(t, jde, tables, false) == Ok(Angles(Rerange(a.first, 360.0), a.second))
  {
    var T := Century(jde);
    LowGeocentric(t, jde, tables);
    EclipticPointIsZeroLatitude(t, LowApparentLongitude(t, T),
      ArcsecToDeg(Cubic(MeanOblCoefs, T)) + 0.00256 * Cosd(t, LowOmega(T)));
  }

  lemma LowGeocentric(t: Trig, jde: real, tables: seq<Components>)
    requires t.pi > 0.0 && ValidTables(tables) && Abs(Century(jde)) <= 100.0
    ensures var T := Century(jde);
      var epsilon := ArcsecToDeg(Cubic(MeanOblCoefs, T));
      MeanGeocentric(t, jde, tables, false) == Ok(EclipticPointToEqu(t, TrueLongitude(t, T), epsilon))
      && ApparentGeocentric(t, jde, tables, false)
        == Ok(EclipticPointToEqu(t, LowApparentLongitude(t, T), epsilon + 0.00256 * Cosd(t, LowOmega(T))))
  {
  }

  /** With high accuracy the two positions differ only through the apparent ecliptic longitude. */
  lemma HighAccuracyGeocentric(t: Trig, jde: real, tables: seq<Components>)
    requires t.pi > 0.0 && ValidTables(tables) && Abs(Century(jde)) <= 100.0
    ensures var m := MeanEcliptic(t, jde, tables);
      var s := ApparentEcliptic(t, jde, tables);
      var epsilon := ArcsecToDeg(Cubic(MeanOblCoefs, Century(jde)));
      MeanGeocentric(t, jde, tables, true) == Ok(EclToEqu(t, m.L, m.B, epsilon))
      && ApparentGeocentric(t, jde, tables, true).value.second == EclToEqu(t, s.L, m.B, epsilon).second
  {
  }
}
