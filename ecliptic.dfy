/**
 * meeus/C/lib/ecliptic.c: nutation in longitude and in obliquity (Meeus,
 * chapter 22) and the mean and true obliquity of the ecliptic, all in
 * seconds of arc.
 */
module Ecliptic {
  import opened Units
  import opened Util

  // ---------------------------------------------------------------------
  // nut_tab and nut_get_params
  // ---------------------------------------------------------------------

  /**
   * A row of table 22.A: the multiples of D, M, M', F and Omega in the
   * argument, then the coefficients of sin (psiK + psiT T, in 0.0001")
   * and of cos (epsK + epsT T).
   */
  datatype NutRow = NutRow(d: real, m: real, m1: real, f: real, om: real,
                           psiK: real, psiT: real, epsK: real, epsT: real)

  /** coefs[j] for the five argument columns. */
  function ArgCoef(r: NutRow, j: int): real
    requires 0 <= j < 5
  {
    if j == 0 then r.d else if j == 1 then r.m else if j == 2 then r.m1 else if j == 3 then r.f else r.om
  }

  /** nut_tab: the 63 periodic terms. */
  const NutTab: seq<NutRow> := [
    NutRow(0.0, 0.0, 0.0, 0.0, 1.0, -171996.0, -174.2, 92025.0, 8.9),
    NutRow(-2.0, 0.0, 0.0, 2.0, 2.0, -13187.0, -1.6, 5736.0, -3.1),
    NutRow(0.0, 0.0, 0.0, 2.0, 2.0, -2274.0, -0.2, 977.0, -0.5),
    NutRow(0.0, 0.0, 0.0, 0.0, 2.0, 2062.0, 0.2, -895.0, 0.5),
    NutRow(0.0, 1.0, 0.0, 0.0, 0.0, 1426.0, -3.4, 54.0, -0.1),
    NutRow(0.0, 0.0, 1.0, 0.0, 0.0, 712.0, 0.1, -7.0, 0.0),
    NutRow(-2.0, 1.0, 0.0, 2.0, 2.0, -517.0, 1.2, 224.0, -0.6),
    NutRow(0.0, 0.0, 0.0, 2.0, 1.0, -386.0, -0.4, 200.0, 0.0),
    NutRow(0.0, 0.0, 1.0, 2.0, 2.0, -301.0, 0.0, 129.0, -0.1),
    NutRow(-2.0, -1.0, 0.0, 2.0, 2.0, 217.0, -0.5, -95.0, 0.3),
    NutRow(-2.0, 0.0, 1.0, 0.0, 0.0, -158.0, 0.0, 0.0, 0.0),
    NutRow(-2.0, 0.0, 0.0, 2.0, 1.0, 129.0, 0.1, -70.0, 0.0),
    NutRow(0.0, 0.0, -1.0, 2.0, 2.0, 123.0, 0.0, -53.0, 0.0),
    NutRow(2.0, 0.0, 0.0, 0.0, 0.0, 63.0, 0.0, 0.0, 0.0),
    NutRow(0.0, 0.0, 1.0, 0.0, 1.0, 63.0, 0.1, -33.0, 0.0),
    NutRow(2.0, 0.0, -1.0, 2.0, 2.0, -59.0, 0.0, 26.0, 0.0),
    NutRow(0.0, 0.0, -1.0, 0.0, 1.0, -58.0, -0.1, 32.0, 0.0),
    NutRow(0.0, 0.0, 1.0, 2.0, 1.0, -51.0, 0.0, 27.0, 0.0),
    NutRow(-2.0, 0.0, 2.0, 0.0, 0.0, 48.0, 0.0, 0.0, 0.0),
    NutRow(0.0, 0.0, -2.0, 2.0, 1.0, 46.0, 0.0, -24.0, 0.0),
    NutRow(2.0, 0.0, 0.0, 2.0, 2.0, -38.0, 0.0, 16.0, 0.0),
    NutRow(0.0, 0.0, 2.0, 2.0, 2.0, -31.0, 0.0, 13.0, 0.0),
    NutRow(0.0, 0.0, 2.0, 0.0, 0.0, 29.0, 0.0, 0.0, 0.0),
    NutRow(-2.0, 0.0, 1.0, 2.0, 2.0, 29.0, 0.0, -12.0, 0.0),
    NutRow(0.0, 0.0, 0.0, 2.0, 0.0, 26.0, 0.0, 0.0, 0.0),
    NutRow(-2.0, 0.0, 0.0, 2.0, 0.0, -22.0, 0.0, 0.0, 0.0),
    NutRow(0.0, 0.0, -1.0, 2.0, 1.0, 21.0, 0.0, -10.0, 0.0),
    NutRow(0.0, 2.0, 0.0, 0.0, 0.0, 17.0, -0.1, 0.0, 0.0),
    NutRow(2.0, 0.0, -1.0, 0.0, 1.0, 16.0, 0.0, -8.0, 0.0),
    NutRow(-2.0, 2.0, 0.0, 2.0, 2.0, -16.0, 0.1, 7.0, 0.0),
    NutRow(0.0, 1.0, 0.0, 0.0, 1.0, -15.0, 0.0, 9.0, 0.0),
    NutRow(-2.0, 0.0, 1.0, 0.0, 1.0, -13.0, 0.0, 7.0, 0.0),
    NutRow(0.0, -1.0, 0.0, 0.0, 1.0, -12.0, 0.0, 6.0, 0.0),
    NutRow(0.0, 0.0, 2.0, -2.0, 0.0, 11.0, 0.0, 0.0, 0.0),
    NutRow(2.0, 0.0, -1.0, 2.0, 1.0, -10.0, 0.0, 5.0, 0.0),
    NutRow(2.0, 0.0, 1.0, 2.0, 2.0, -8.0, 0.0, 3.0, 0.0),
    NutRow(0.0, 1.0, 0.0, 2.0, 2.0, 7.0, 0.0, -3.0, 0.0),
    NutRow(-2.0, 1.0, 1.0, 0.0, 0.0, -7.0, 0.0, 0.0, 0.0),
    NutRow(0.0, -1.0, 0.0, 2.0, 2.0, -7.0, 0.0, 3.0, 0.0),
    NutRow(2.0, 0.0, 0.0, 2.0, 1.0, -7.0, 0.0, 3.0, 0.0),
    NutRow(2.0, 0.0, 1.0, 0.0, 0.0, 6.0, 0.0, 0.0, 0.0),
    NutRow(-2.0, 0.0, 2.0, 2.0, 2.0, 6.0, 0.0, -3.0, 0.0),
    NutRow(-2.0, 0.0, 1.0, 2.0, 1.0, 6.0, 0.0, -3.0, 0.0),
    NutRow(2.0, 0.0, -2.0, 0.0, 1.0, -6.0, 0.0, 3.0, 0.0),
    NutRow(2.0, 0.0, 0.0, 0.0, 1.0, -6.0, 0.0, 3.0, 0.0),
    NutRow(0.0, -1.0, 1.0, 0.0, 0.0, 5.0, 0.0, 0.0, 0.0),
    NutRow(-2.0, -1.0, 0.0, 2.0, 1.0, -5.0, 0.0, 3.0, 0.0),
    NutRow(-2.0, 0.0, 0.0, 0.0, 1.0, -5.0, 0.0, 3.0, 0.0),
    NutRow(0.0, 0.0, 2.0, 2.0, 1.0, -5.0, 0.0, 3.0, 0.0),
    NutRow(-2.0, 0.0, 2.0, 0.0, 1.0, 4.0, 0.0, 0.0, 0.0),
    NutRow(-2.0, 1.0, 0.0, 2.0, 1.0, 4.0, 0.0, 0.0, 0.0),
    NutRow(0.0, 0.0, 1.0, -2.0, 0.0, 4.0, 0.0, 0.0, 0.0),
    NutRow(-1.0, 0.0, 1.0, 0.0, 0.0, -4.0, 0.0, 0.0, 0.0),
    NutRow(-2.0, 1.0, 0.0, 0.0, 0.0, -4.0, 0.0, 0.0, 0.0),
    NutRow(1.0, 0.0, 0.0, 0.0, 0.0, -4.0, 0.0, 0.0, 0.0),
    NutRow(0.0, 0.0, 1.0, 2.0, 0.0, 3.0, 0.0, 0.0, 0.0),
    NutRow(0.0, 0.0, -2.0, 2.0, 2.0, -3.0, 0.0, 0.0, 0.0),
    NutRow(-1.0, -1.0, 1.0, 0.0, 0.0, -3.0, 0.0, 0.0, 0.0),
    NutRow(0.0, 1.0, 1.0, 0.0, 0.0, -3.0, 0.0, 0.0, 0.0),
    NutRow(0.0, -1.0, 1.0, 2.0, 2.0, -3.0, 0.0, 0.0, 0.0),
    NutRow(2.0, -1.0, -1.0, 2.0, 2.0, -3.0, 0.0, 0.0, 0.0),
    NutRow(0.0, 0.0, 3.0, 2.0, 2.0, -3.0, 0.0, 0.0, 0.0),
    NutRow(2.0, -1.0, 0.0, 2.0, 2.0, -3.0, 0.0, 0.0, 0.0)
  ]

  /** The cubic polynomials in T of D, M, M', F and Omega, in degrees. */
  const ElongationCoefs: seq<real> := [297.85036, 445267.11148, -0.0019142, 1.0 / 189474.0]
  const SunAnomalyCoefs: seq<real> := [357.52772, 35999.05034, -0.0001603, -1.0 / 300000.0]
  const MoonAnomalyCoefs: seq<real> := [134.96298, 477198.867398, 0.0086972, 1.0 / 56250.0]
  const LatitudeCoefs: seq<real> := [93.27191, 483202.017538, -0.0036825, 1.0 / 327270.0]
  const NodeCoefs: seq<real> := [125.04452, -1934.136261, 0.0020708, 1.0 / 450000.0]

  /** nut_get_params: parm[0..4] = D, M, M', F, Omega at T. */
  function NutParams(T: real): (parm: seq<real>)
    ensures |parm| == 5
  {
    [PolyValue(ElongationCoefs, T), PolyValue(SunAnomalyCoefs, T), PolyValue(MoonAnomalyCoefs, T),
     PolyValue(LatitudeCoefs, T), PolyValue(NodeCoefs, T)]
  }

  /** c0 + c1 T + c2 T^2 + c3 T^3. */
  function Cubic(c: seq<real>, T: real): real
    requires |c| == 4
  {
    c[0] + c[1] * T + c[2] * T * T + c[3] * T * T * T
  }

  /** A Horner polynomial with four coefficients is the cubic in expanded form. */
  lemma CubicValue(c: seq<real>, T: real)
    requires |c| == 4
    ensures PolyValue(c, T) == Cubic(c, T)
  {
    var c1 := c[1..];
    var c2 := c1[1..];
    var c3 := c2[1..];
    assert c3[1..] == [];
    assert PolyValue(c3, T) == c[3];
    assert PolyValue(c2, T) == c[2] + T * c[3];
    assert PolyValue(c1, T) == c[1] + T * (c[2] + T * c[3]);
  }

  /** Each fundamental argument is a cubic polynomial in T. */
  lemma FundamentalArguments(T: real)
    ensures NutParams(T) == [Cubic(ElongationCoefs, T), Cubic(SunAnomalyCoefs, T), Cubic(MoonAnomalyCoefs, T),
                             Cubic(LatitudeCoefs, T), Cubic(NodeCoefs, T)]
  {
    CubicValue(ElongationCoefs, T);
    CubicValue(SunAnomalyCoefs, T);
    CubicValue(MoonAnomalyCoefs, T);
    CubicValue(LatitudeCoefs, T);
    CubicValue(NodeCoefs, T);
  }

  /** At J2000 (T = 0) each fundamental argument is its constant term. */
  lemma FundamentalArgumentsAtJ2000()
    ensures NutParams(0.0) == [297.85036, 357.52772, 134.96298, 93.27191, 125.04452]
  {
    FundamentalArguments(0.0);
  }

  // ---------------------------------------------------------------------
  // ecl_nut_in_lon, ecl_nut_in_obl
  // ---------------------------------------------------------------------

  /** Which of the two nutation functions: sin and psi, or cos and eps. */
  datatype NutKind = InLongitude | InObliquity

  /** Sum of parm[j] * coefs[j] for j < n: the argument of one row. */
  function RowArg(parm: seq<real>, r: NutRow, n: int): real
    requires |parm| == 5 && 0 <= n <= 5
  {
    if n == 0 then 0.0 else RowArg(parm, r, n - 1) + parm[n - 1] * ArgCoef(r, n - 1)
  }

  /** The coefficient mult of a row: coefs[5] + coefs[6] T or coefs[7] + coefs[8] T. */
  function RowMult(r: NutRow, T: real, kind: NutKind): real
  {
    match kind
    case InLongitude => r.psiK + r.psiT * T
    case InObliquity => r.epsK + r.epsT * T
  }

  /** sind for the longitude, cosd for the obliquity. */
  function RowWave(t: Trig, kind: NutKind, arg: real): real
  {
    match kind
    case InLongitude => Sind(t, arg)
    case InObliquity => Cosd(t, arg)
  }

  /** The running sum nut after the first n rows of a table. */
  function NutSeries(t: Trig, T: real, parm: seq<real>, tab: seq<NutRow>, kind: NutKind, n: int): real
    requires |parm| == 5 && 0 <= n <= |tab|
  {
    if n == 0 then 0.0
    else
      var r := tab[n - 1];
      NutSeries(t, T, parm, tab, kind, n - 1) + RowMult(r, T, kind) * RowWave(t, kind, RowArg(parm, r, 5))
  }

  /** The four-term low-accuracy formulas, in Omega = parm[4] and the mean longitudes L and L'. */
  function LowNutation(t: Trig, T: real, omega: real, kind: NutKind): real
  {
    var L := 280.4665 + 36000.7698 * T;
    var Lprime := 218.3165 + 481267.8813 * T;
    match kind
    case InLongitude =>
      -17.20 * Sind(t, omega) - 1.32 * Sind(t, 2.0 * L) - 0.23 * Sind(t, 2.0 * Lprime) + 0.21 * Sind(t, 2.0 * omega)
    case InObliquity =>
      9.20 * Cosd(t, omega) + 0.57 * Cosd(t, 2.0 * L) + 0.10 * Cosd(t, 2.0 * Lprime) - 0.09 * Cosd(t, 2.0 * omega)
  }

  /** The nutation, in seconds of arc, that ecl_nut_in_lon / ecl_nut_in_obl return for jde. */
  function Nutation(t: Trig, jde: real, high: bool, kind: NutKind): real
  {
    var T := Century(jde);
    var parm := NutParams(T);
    if high then NutSeries(t, T, parm, NutTab, kind, |NutTab|) / 10000.0 else LowNutation(t, T, parm[4], kind)
  }

  /** The nested loops of the high-accuracy branch: for each row, the argument, then nut += mult * wave. */
  method NutationSum(t: Trig, T: real, parm: seq<real>, tab: seq<NutRow>, kind: NutKind) returns (nut: real)
    requires |parm| == 5
    ensures nut == NutSeries(t, T, parm, tab, kind, |tab|)
  {
    nut := 0.0;
    var i := 0;
    while i < |tab|
      invariant 0 <= i <= |tab|
      invariant nut == NutSeries(t, T, parm, tab, kind, i)
    {
      var coefs := tab[i];
      var arg := 0.0;
      var j := 0;
      while j < |parm|
        invariant 0 <= j <= |parm|
        invariant arg == RowArg(parm, coefs, j)
      {
        arg := arg + parm[j] * ArgCoef(coefs, j);
        j := j + 1;
      }
      var mult := RowMult(coefs, T, kind);
      nut := nut + mult * RowWave(t, kind, arg);
      i := i + 1;
    }
  }

  /** ecl_nut_in_lon: the nutation in longitude in seconds of arc. */
  method NutInLon(t: Trig, jde: real, high: bool) returns (nut: real)
    ensures nut == Nutation(t, jde, high, InLongitude)
  {
    var T := Century(jde);
    var parm := NutParams(T);
    if high {
      nut := NutationSum(t, T, parm, NutTab, InLongitude);
      return nut / 10000.0;
    }
    var L := 280.4665 + 36000.7698 * T;
    var Lprime := 218.3165 + 481267.8813 * T;
    return -17.20 * Sind(t, parm[4]) - 1.32 * Sind(t, 2.0 * L) - 0.23 * Sind(t, 2.0 * Lprime)
      + 0.21 * Sind(t, 2.0 * parm[4]);
  }

  /** ecl_nut_in_obl: the nutation in obliquity in seconds of arc. */
  method NutInObl(t: Trig, jde: real, high: bool) returns (nut: real)
    ensures nut == Nutation(t, jde, high, InObliquity)
  {
    var T := Century(jde);
    var parm := NutParams(T);
    if high {
      nut := NutationSum(t, T, parm, NutTab, InObliquity);
      return nut / 10000.0;
    }
    var L := 280.4665 + 36000.7698 * T;
    var Lprime := 218.3165 + 481267.8813 * T;
    return 9.20 * Cosd(t, parm[4]) + 0.57 * Cosd(t, 2.0 * L) + 0.10 * Cosd(t, 2.0 * Lprime)
      - 0.09 * Cosd(t, 2.0 * parm[4]);
  }

  /** The low-accuracy nutation is at most 18.96" in longitude and 9.96" in obliquity. */
  lemma LowNutationBound(t: Trig, T: real, omega: real, kind: NutKind)
    requires BoundedTrig(t)
    ensures kind == InLongitude ==> Abs(LowNutation(t, T, omega, kind)) <= 18.96
    ensures kind == InObliquity ==> Abs(LowNutation(t, T, omega, kind)) <= 9.96
  {
    var L := 280.4665 + 36000.7698 * T;
    var Lprime := 218.3165 + 481267.8813 * T;
    SindCosdBounded(t, omega);
    SindCosdBounded(t, 2.0 * L);
    SindCosdBounded(t, 2.0 * Lprime);
    SindCosdBounded(t, 2.0 * omega);
  }

  /** The sum of |mult| over the first n rows: what |sin| <= 1 and |cos| <= 1 allow the series to reach. */
  function SeriesBound(T: real, tab: seq<NutRow>, kind: NutKind, n: int): real
    requires 0 <= n <= |tab|
  {
    if n == 0 then 0.0 else SeriesBound(T, tab, kind, n - 1) + Abs(RowMult(tab[n - 1], T, kind))
  }

  lemma {:induction false} NutSeriesBound(t: Trig, T: real, parm: seq<real>, tab: seq<NutRow>, kind: NutKind, n: int)
    requires BoundedTrig(t) && |parm| == 5 && 0 <= n <= |tab|
    ensures Abs(NutSeries(t, T, parm, tab, kind, n)) <= SeriesBound(T, tab, kind, n)
  {
    if n > 0 {
      NutSeriesBound(t, T, parm, tab, kind, n - 1);
      var r := tab[n - 1];
      var a, w := RowMult(r, T, kind), RowWave(t, kind, RowArg(parm, r, 5));
      var s0, b0 := NutSeries(t, T, parm, tab, kind, n - 1), SeriesBound(T, tab, kind, n - 1);
      assert NutSeries(t, T, parm, tab, kind, n) == s0 + a * w;
      assert SeriesBound(T, tab, kind, n) == b0 + Abs(a);
      RowWaveBounded(t, kind, RowArg(parm, r, 5));
      TermBound(s0, b0, a, w);
    }
  }

  lemma RowWaveBounded(t: Trig, kind: NutKind, arg: real)
    requires BoundedTrig(t)
    ensures -1.0 <= RowWave(t, kind, arg) <= 1.0
  {
    SindCosdBounded(t, arg);
  }

  /** Both nutations are bounded by their coefficient sums, whatever the kind of evaluation. */
  lemma NutationBound(t: Trig, jde: real, high: bool, kind: NutKind)
    requires BoundedTrig(t)
    ensures high ==> Abs(Nutation(t, jde, high, kind)) <= SeriesBound(Century(jde), NutTab, kind, |NutTab|) / 10000.0
    ensures !high && kind == InLongitude ==> Abs(Nutation(t, jde, high, kind)) <= 18.96
    ensures !high && kind == InObliquity ==> Abs(Nutation(t, jde, high, kind)) <= 9.96
  {
    var T := Century(jde);
    var parm := NutParams(T);
    if high {
      NutSeriesBound(t, T, parm, NutTab, kind, |NutTab|);
    } else {
      LowNutationBound(t, T, parm[4], kind);
    }
  }

  // ---------------------------------------------------------------------
  // ecl_mean_obl_ecliptic, ecl_true_obl_ecliptic
  // ---------------------------------------------------------------------

  /**
   * The Laskar polynomial in T / 100. The high-accuracy branch evaluates it
   * into *obl, and the cubic below then overwrites it, so it never reaches
   * the caller.
   */
  const LaskarCoefs: seq<real> := [84381.448, -4680.93, -1.55, 1999.25, -51.38, -249.67, -39.05, 7.12, 27.87, 5.79, 2.45]

  /** The cubic that ecl_mean_obl_ecliptic writes last, in seconds of arc. */
  const MeanOblCoefs: seq<real> := [84381.448, -46.8150, -0.00059, 0.001813]

  /**
   * ecl_mean_obl_ecliptic: in high accuracy, |T| > 100 centuries is a range
   * error; otherwise, for either flag, the cubic
   * 84381.448 - 46.8150 T - 0.00059 T^2 + 0.001813 T^3.
   */
  function MeanObl(jde: real, high: bool): (r: Result<real>)
    ensures var T := Century(jde);
      (r.Fail? <==> high && Abs(T) > 100.0)
      && (r.Fail? ==> r.error == InvalidRange)
      && (r.Ok? ==> r.value == Cubic(MeanOblCoefs, T))
  {
    var T := Century(jde);
    if high && Abs(T) > 100.0 then Fail(InvalidRange)
    else
      CubicValue(MeanOblCoefs, T);
      Ok(PolyValue(MeanOblCoefs, T))
  }

  /** The accuracy flag only decides whether the range is checked. */
  lemma MeanOblFlag(jde: real)
    requires MeanObl(jde, true).Ok?
    ensures MeanObl(jde, true) == MeanObl(jde, false)
  {
  }

  /** At J2000 the mean obliquity is 84381.448" = 23 deg 26' 21.448". */
  lemma MeanOblAtJ2000(high: bool)
    ensures MeanObl(2451545.0, high) == Ok(84381.448)
    ensures ArcsecToDeg(84381.448) == DmsToD(23.0, 26.0, 21.448)
  {
    assert Century(2451545.0) == 0.0;
  }

  /** ecl_true_obl_ecliptic: the mean obliquity plus the nutation in obliquity, or the mean's error. */
  function TrueObl(t: Trig, jde: real, high: bool): (r: Result<real>)
    ensures r.Fail? <==> MeanObl(jde, high).Fail?
    ensures r.Fail? ==> r.error == MeanObl(jde, high).error
  {
    match MeanObl(jde, high)
    case Fail(e) => Fail(e)
    case Ok(m) => Ok(m + Nutation(t, jde, high, InObliquity))
  }

  /** The true obliquity differs from the mean one by the nutation in obliquity, at most 9.96" at low accuracy. */
  lemma TrueOblNearMean(t: Trig, jde: real, high: bool)
    requires ValidTrig(t) && MeanObl(jde, high).Ok?
    ensures TrueObl(t, jde, high).value - MeanObl(jde, high).value == Nutation(t, jde, high, InObliquity)
    ensures !high ==> Abs(TrueObl(t, jde, high).value - MeanObl(jde, high).value) <= 9.96
  {
    NutationBound(t, jde, high, InObliquity);
  }
}
