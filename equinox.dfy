// Equinoxes and solstices (meeus/C/lib/equinox.c, Meeus chapter 27): the mean instants of table
// 27.a/27.b, the low-accuracy periodic correction of table 27.c, and the high-accuracy iteration on
// the apparent longitude of the Sun.

module Equinox {
  import opened Units
  import opened Util
  import opened Vsop87
  import opened Sun

  // ---------------------------------------------------------------------
  // eqx_get_mean_sol_eqx
  // ---------------------------------------------------------------------

  /** Meeus table 27.a, for the years -1000 to 1000, with Y = year / 1000. */
  const MarEqxBefore1000: seq<real> := [1721139.29189, 365242.13740, 0.06134, 0.00111, -0.00071]
  const JunSolBefore1000: seq<real> := [1721233.25301, 365241.72562, -0.05323, 0.00907, 0.00025]
  const SepEqxBefore1000: seq<real> := [1721325.70455, 365242.49558, -0.11677, -0.00297, 0.00074]
  const DecSolBefore1000: seq<real> := [1721414.39987, 365252.88257, -0.00769, -0.00933, -0.00006]

  /** Meeus table 27.b, for the years 1000 to 3000, with Y = (year - 2000) / 1000. */
  const MarEqxFrom1000: seq<real> := [2451623.80984, 365242.37404, 0.05169, -0.00411, -0.00057]
  const JunSolFrom1000: seq<real> := [2451716.56767, 365241.62603, 0.00325, 0.00888, -0.0003]
  const SepEqxFrom1000: seq<real> := [2451810.21715, 365242.01767, -0.11575, 0.00337, 0.00078]
  const DecSolFrom1000: seq<real> := [2451900.05952, 365242.74049, -0.06223, -0.00823, 0.00032]

  /** The argument Y of the quartics: year / 1000 before the year 1000, (year - 2000) / 1000 after. */
  function MillenniumArg(year: int): real
  {
    if year < 1000 then year as real / 1000.0 else (year as real - 2000.0) / 1000.0
  }

  /** The quartic for instant k: 0 the March equinox, 1 the June solstice, 2 September, 3 December. */
  function MeanCoefs(year: int, k: int): (c: seq<real>)
    requires 0 <= k < 4
    ensures |c| == 5
  {
    if year < 1000 then [MarEqxBefore1000, JunSolBefore1000, SepEqxBefore1000, DecSolBefore1000][k]
    else [MarEqxFrom1000, JunSolFrom1000, SepEqxFrom1000, DecSolFrom1000][k]
  }

  /** The mean instant k of the year, as a Julian Ephemeris Day. */
  function MeanInstant(year: int, k: int): real
    requires 0 <= k < 4
  {
    PolyValue(MeanCoefs(year, k), MillenniumArg(year))
  }

  /** In the year 2000 the argument is 0, so each mean instant is the constant term of its quartic. */
  lemma MeanInstantsOf2000()
    ensures MeanInstant(2000, 0) == 2451623.80984
    ensures MeanInstant(2000, 1) == 2451716.56767
    ensures MeanInstant(2000, 2) == 2451810.21715
    ensures MeanInstant(2000, 3) == 2451900.05952
  {
    assert MillenniumArg(2000) == 0.0;
    PolynomAtZero(MarEqxFrom1000);
    PolynomAtZero(JunSolFrom1000);
    PolynomAtZero(SepEqxFrom1000);
    PolynomAtZero(DecSolFrom1000);
  }

  /** The year 1000 already takes table 27.b: its argument is -1, not 1. */
  lemma TableSwitch()
    ensures MillenniumArg(999) == 0.999 && MeanCoefs(999, 0) == MarEqxBefore1000
    ensures MillenniumArg(1000) == -1.0 && MeanCoefs(1000, 0) == MarEqxFrom1000
  {
  }

  // ---------------------------------------------------------------------
  // eqx_correct_equinox
  // ---------------------------------------------------------------------

  /** One row {A, B, C} of Meeus table 27.c: the term A cosd(B + C T). */
  datatype EqxRow = EqxRow(a: real, b: real, c: real)

  const EqxTable: seq<EqxRow> := [
    EqxRow(485.0, 324.96, 1934.136), EqxRow(203.0, 337.23, 32964.467), EqxRow(199.0, 342.08, 20.186),
    EqxRow(182.0, 27.85, 445267.112), EqxRow(156.0, 73.14, 45036.886), EqxRow(136.0, 171.52, 22518.443),
    EqxRow(77.0, 222.54, 65928.934), EqxRow(74.0, 296.72, 3034.906), EqxRow(70.0, 243.58, 9037.513),
    EqxRow(58.0, 119.81, 33718.147), EqxRow(52.0, 297.17, 150.678), EqxRow(50.0, 21.02, 2281.226),
    EqxRow(45.0, 247.54, 29929.562), EqxRow(44.0, 325.15, 31555.956), EqxRow(29.0, 60.93, 4443.417),
    EqxRow(18.0, 155.12, 67555.328), EqxRow(17.0, 288.79, 4562.452), EqxRow(16.0, 198.04, 62894.029),
    EqxRow(14.0, 199.76, 31436.921), EqxRow(12.0, 95.39, 14577.848), EqxRow(12.0, 287.11, 31931.756),
    EqxRow(12.0, 320.81, 34777.259), EqxRow(9.0, 227.73, 1222.114), EqxRow(8.0, 15.45, 16859.074)]

  /** The argument B + C T of a term, in degrees. */
  function EqxArg(row: EqxRow, T: real): real
  {
    row.b + row.c * T
  }

  function EqxTerm(t: Trig, row: EqxRow, T: real): real
  {
    row.a * Cosd(t, EqxArg(row, T))
  }

  /** S over the first n rows of tab. */
  function EqxSum(t: Trig, tab: seq<EqxRow>, T: real, n: int): real
    requires 0 <= n <= |tab|
  {
    if n == 0 then 0.0 else EqxSum(t, tab, T, n - 1) + EqxTerm(t, tab[n - 1], T)
  }

  /** W = 35999.373 T - 2.47 and the factor 1 + 0.0334 cosd(W) + 0.0007 cosd(2 W). */
  function EqxW(T: real): real
  {
    35999.373 * T - 2.47
  }

  function EqxDeltaLambda(t: Trig, T: real): real
  {
    1.0 + 0.0334 * Cosd(t, EqxW(T)) + 0.0007 * Cosd(t, 2.0 * EqxW(T))
  }

  /** The low-accuracy instant jde0 + 0.00001 S / deltaLambda; the model needs deltaLambda != 0. */
  function CorrectedInstant(t: Trig, jde0: real): real
    requires EqxDeltaLambda(t, Century(jde0)) != 0.0
  {
    var T := Century(jde0);
    jde0 + 0.00001 * EqxSum(t, EqxTable, T, |EqxTable|) / EqxDeltaLambda(t, T)
  }

  /** eqx_correct_equinox. */
  method CorrectEquinox(t: Trig, jde0: real) returns (jde: real)
    requires EqxDeltaLambda(t, Century(jde0)) != 0.0
    ensures jde == CorrectedInstant(t, jde0)
  {
    var T := Century(jde0);
    var W := EqxW(T);
    var deltaLambda := 1.0 + 0.0334 * Cosd(t, W) + 0.0007 * Cosd(t, 2.0 * W);
    var S := 0.0;
    var i := 0;
    while i < |EqxTable|
      invariant 0 <= i <= |EqxTable|
      invariant S == EqxSum(t, EqxTable, T, i)
    {
      S := S + EqxTerm(t, EqxTable[i], T);
      i := i + 1;
    }
    return jde0 + 0.00001 * S / deltaLambda;
  }

  /** The sum of the amplitudes |A| of the first n rows. */
  function EqxAmplitudes(tab: seq<EqxRow>, n: int): (m: real)
    requires 0 <= n <= |tab|
    ensures m >= 0.0
  {
    if n == 0 then 0.0 else EqxAmplitudes(tab, n - 1) + Abs(tab[n - 1].a)
  }

  lemma {:induction false} EqxSumBound(t: Trig, tab: seq<EqxRow>, T: real, n: int)
    requires BoundedTrig(t) && 0 <= n <= |tab|
    ensures Abs(EqxSum(t, tab, T, n)) <= EqxAmplitudes(tab, n)
  {
    if n > 0 {
      EqxSumBound(t, tab, T, n - 1);
      EqxTermBound(t, tab[n - 1], T);
      AbsAdd(EqxSum(t, tab, T, n - 1), EqxTerm(t, tab[n - 1], T));
    }
  }

  /** A term is at most its amplitude. */
  lemma EqxTermBound(t: Trig, row: EqxRow, T: real)
    requires BoundedTrig(t)
    ensures Abs(EqxTerm(t, row, T)) <= Abs(row.a)
  {
    SindCosdBounded(t, EqxArg(row, T));
    EqxTermWithinAmplitude(t, row, T);
  }

  lemma EqxTermWithinAmplitude(t: Trig, row: EqxRow, T: real)
    requires -1.0 <= Cosd(t, EqxArg(row, T)) <= 1.0
    ensures Abs(EqxTerm(t, row, T)) <= Abs(row.a)
  {
    var w := Cosd(t, EqxArg(row, T));
    var x := EqxTerm(t, row, T);
    assert x == row.a * w;
    AbsMul(row.a, w);
    ProductNonneg(Abs(row.a), 1.0 - Abs(w));
  }

  /** The amplitudes of table 27.c add up to 1978. */
  lemma EqxTableAmplitude()
    ensures EqxAmplitudes(EqxTable, |EqxTable|) == 1978.0
  {
    var tab := EqxTable;
    assert EqxAmplitudes(tab, 2) == 688.0;
    assert EqxAmplitudes(tab, 4) == 1069.0;
    assert EqxAmplitudes(tab, 6) == 1361.0;
    assert EqxAmplitudes(tab, 8) == 1512.0;
    assert EqxAmplitudes(tab, 10) == 1640.0;
    assert EqxAmplitudes(tab, 12) == 1742.0;
    assert EqxAmplitudes(tab, 14) == 1831.0;
    assert EqxAmplitudes(tab, 16) == 1878.0;
    assert EqxAmplitudes(tab, 18) == 1911.0;
    assert EqxAmplitudes(tab, 20) == 1937.0;
    assert EqxAmplitudes(tab, 22) == 1961.0;
  }

  /** deltaLambda >= 1 - 0.0334 - 0.0007 = 0.9659 > 0. */
  lemma EqxDeltaLambdaBound(t: Trig, T: real)
    requires BoundedTrig(t)
    ensures EqxDeltaLambda(t, T) >= 0.9659
  {
    SindCosdBounded(t, EqxW(T));
    SindCosdBounded(t, 2.0 * EqxW(T));
  }

  /** The low-accuracy correction moves the mean instant by less than 0.021 day (about 30 minutes). */
  lemma CorrectionSmall(t: Trig, jde0: real)
    requires BoundedTrig(t)
    ensures EqxDeltaLambda(t, Century(jde0)) > 0.0
    ensures Abs(CorrectedInstant(t, jde0) - jde0) < 0.021
  {
    var T := Century(jde0);
    EqxDeltaLambdaBound(t, T);
    EqxSumBound(t, EqxTable, T, |EqxTable|);
    EqxTableAmplitude();
    QuotientSmall(EqxSum(t, EqxTable, T, |EqxTable|), EqxDeltaLambda(t, T));
  }

  lemma QuotientSmall(s: real, d: real)
    requires Abs(s) <= 1978.0 && d >= 0.9659
    ensures Abs(0.00001 * s / d) < 0.021
  {
    var q := 0.00001 * s / d;
    DivMul(0.00001 * s, d);
    AbsMul(q, d);
    if Abs(q) >= 0.021 {
      ProductNonneg(Abs(q) - 0.021, d);
      ProductNonneg(0.021, d - 0.9659);
      assert false;
    }
  }

  // ---------------------------------------------------------------------
  // eqx_iterate_equinox
  // ---------------------------------------------------------------------

  /** The loop runs while the correction exceeds half a second: 1.0 / DT_SECS_PER_DAY / 2 days. */
  const HalfSecond: real := 1.0 / 86400.0 / 2.0

  /** The apparent longitude of the Sun as a function of the instant, which the iteration samples. */
  function SunLongitude(t: Trig, tables: seq<Components>): real -> real
    requires t.pi > 0.0 && ValidTables(tables)
  {
    jde => ApparentEcliptic(t, jde, tables).L
  }

  /** The argument k * 90 - lambda of the correction, in degrees, for a longitude function lon. */
  function StepArg(lon: real -> real, jde: real, k: int): real
  {
    (k * 90) as real - lon(jde)
  }

  /** One round's correction, 58 sind(k * 90 - lambda) days. */
  function Step(t: Trig, lon: real -> real, jde: real, k: int): real
  {
    58.0 * Sind(t, StepArg(lon, jde, k))
  }

  /**
   * The do-while loop of eqx_iterate_equinox, run for at most fuel rounds: the instant reached and
   * whether the loop's own exit test (a correction <= 1/172800 day, with its sign) was met.
   */
  function Iterate(t: Trig, lon: real -> real, jde: real, k: int, fuel: nat): (real, bool)
    decreases fuel
  {
    if fuel == 0 then (jde, false)
    else
      var c := Step(t, lon, jde, k);
      if c > HalfSecond then Iterate(t, lon, jde + c, k, fuel - 1) else (jde + c, true)
  }

  /**
   * eqx_iterate_equinox, stopped after fuel rounds if the exit test is never met. Each round reads the
   * apparent longitude of the Sun at the current instant from lon, which eqx_get_sol_eqx binds to
   * SunLongitude.
   */
  method IterateEquinox(t: Trig, lon: real -> real, jde0: real, k: int, fuel: nat)
    returns (jde: real, done: bool)
    ensures (jde, done) == Iterate(t, lon, jde0, k, fuel)
  {
    jde := jde0;
    done := false;
    var n: nat := fuel;
    while n > 0 && !done
      invariant n <= fuel
      invariant Iterate(t, lon, jde0, k, fuel) == if done then (jde, true) else Iterate(t, lon, jde, k, n)
      decreases n
    {
      var lambda := lon(jde);
      var correction := 58.0 * Sind(t, (k * 90) as real - lambda);
      assert correction == Step(t, lon, jde, k);
      jde := jde + correction;
      done := correction <= HalfSecond;
      n := n - 1;
    }
  }

  /**
   * When the loop exits, its last round started from an instant no earlier than jde0, its correction
   * was at most 1/172800 day and it has already been added: every earlier round moved forward.
   */
  lemma {:induction false} IterateExit(t: Trig, lon: real -> real, jde: real, k: int, fuel: nat)
    requires Iterate(t, lon, jde, k, fuel).1
    ensures exists prev :: (prev >= jde && Step(t, lon, prev, k) <= HalfSecond
      && Iterate(t, lon, jde, k, fuel).0 == prev + Step(t, lon, prev, k))
    decreases fuel
  {
    var c := Step(t, lon, jde, k);
    if c > HalfSecond {
      IterateExit(t, lon, jde + c, k, fuel - 1);
      var prev :| prev >= jde + c && Step(t, lon, prev, k) <= HalfSecond
        && Iterate(t, lon, jde + c, k, fuel - 1).0 == prev + Step(t, lon, prev, k);
      assert prev >= jde;
    } else {
      assert Step(t, lon, jde, k) <= HalfSecond;
    }
  }

  /**
   * The exit test is signed: a first correction that is negative, however large (down to -58 days),
   * ends the loop at once.
   */
  lemma NegativeStepExits(t: Trig, lon: real -> real, jde: real, k: int, fuel: nat)
    requires fuel > 0 && Step(t, lon, jde, k) < 0.0
    ensures Iterate(t, lon, jde, k, fuel) == (jde + Step(t, lon, jde, k), true)
    ensures Iterate(t, lon, jde, k, fuel).0 < jde
  {
  }

  /** The fuel bound is not observable once the loop has exited: more rounds change nothing. */
  lemma {:induction false} IterateFuel(t: Trig, lon: real -> real, jde: real, k: int, fuel: nat, more: nat)
    requires Iterate(t, lon, jde, k, fuel).1 && more >= fuel
    ensures Iterate(t, lon, jde, k, more) == Iterate(t, lon, jde, k, fuel)
    decreases fuel
  {
    var c := Step(t, lon, jde, k);
    if c > HalfSecond {
      IterateFuel(t, lon, jde + c, k, fuel - 1, more - 1);
    }
  }

  // ---------------------------------------------------------------------
  // eqx_get_sol_eqx
  // ---------------------------------------------------------------------

  /** The instant k of the year: the corrected mean instant, or the result of the iteration. */
  function Instant(t: Trig, tables: seq<Components>, year: int, k: int, high: bool, fuel: nat): real
    requires 0 <= k < 4 && t.pi > 0.0 && ValidTables(tables)
    requires !high ==> EqxDeltaLambda(t, Century(MeanInstant(year, k))) != 0.0
  {
    if high then Iterate(t, SunLongitude(t, tables), MeanInstant(year, k), k, fuel).0
    else CorrectedInstant(t, MeanInstant(year, k))
  }

  /** Whether the iteration for instant k exits within fuel rounds; always at low accuracy. */
  predicate Converged(t: Trig, tables: seq<Components>, year: int, k: int, high: bool, fuel: nat)
    requires 0 <= k < 4 && t.pi > 0.0 && ValidTables(tables)
  {
    !high || Iterate(t, SunLongitude(t, tables), MeanInstant(year, k), k, fuel).1
  }

  /** The model requires the low-accuracy quotient to be defined for the four mean instants. */
  predicate LowDefined(t: Trig, year: int)
  {
    forall k :: 0 <= k < 4 ==> EqxDeltaLambda(t, Century(MeanInstant(year, k))) != 0.0
  }

  /** struct eqx_s: the year, and the four instants eqx_get_sol_eqx writes. */
  class Eqx {
    var year: int
    var marEqx: real
    var junSol: real
    var sepEqx: real
    var decSol: real

    /** eqx_get_mean_sol_eqx: the four mean instants of year; the year is left alone. */
    method GetMeanSolEqx()
      modifies this`marEqx, this`junSol, this`sepEqx, this`decSol
      ensures marEqx == MeanInstant(year, 0) && junSol == MeanInstant(year, 1)
      ensures sepEqx == MeanInstant(year, 2) && decSol == MeanInstant(year, 3)
    {
      var Y := MillenniumArg(year);
      marEqx := PolyValue(MeanCoefs(year, 0), Y);
      junSol := PolyValue(MeanCoefs(year, 1), Y);
      sepEqx := PolyValue(MeanCoefs(year, 2), Y);
      decSol := PolyValue(MeanCoefs(year, 3), Y);
    }

    /**
     * eqx_get_sol_eqx: k = 0, 1, 2, 3 go to the March, June, September and December fields. At high
     * accuracy each iteration is bounded by fuel rounds, and converged says whether all four exited.
     */
    method GetSolEqx(t: Trig, tables: seq<Components>, high: bool, fuel: nat) returns (converged: bool)
      requires t.pi > 0.0 && ValidTables(tables) && (!high ==> LowDefined(t, year))
      modifies this`marEqx, this`junSol, this`sepEqx, this`decSol
      ensures year == old(year)
      ensures marEqx == Instant(t, tables, year, 0, high, fuel) && junSol == Instant(t, tables, year, 1, high, fuel)
      ensures sepEqx == Instant(t, tables, year, 2, high, fuel) && decSol == Instant(t, tables, year, 3, high, fuel)
      ensures converged <==> (Converged(t, tables, year, 0, high, fuel) && Converged(t, tables, year, 1, high, fuel)
        && Converged(t, tables, year, 2, high, fuel) && Converged(t, tables, year, 3, high, fuel))
    {
      GetMeanSolEqx();
      if !high {
        CorrectAll(t);
        return true;
      }
      converged := IterateAll(t, SunLongitude(t, tables), fuel);
    }

    /** The low-accuracy branch: each field is corrected from its mean instant. */
    method CorrectAll(t: Trig)
      requires EqxDeltaLambda(t, Century(marEqx)) != 0.0 && EqxDeltaLambda(t, Century(junSol)) != 0.0
      requires EqxDeltaLambda(t, Century(sepEqx)) != 0.0 && EqxDeltaLambda(t, Century(decSol)) != 0.0
      modifies this`marEqx, this`junSol, this`sepEqx, this`decSol
      ensures marEqx == CorrectedInstant(t, old(marEqx)) && junSol == CorrectedInstant(t, old(junSol))
      ensures sepEqx == CorrectedInstant(t, old(sepEqx)) && decSol == CorrectedInstant(t, old(decSol))
    {
      marEqx := CorrectEquinox(t, marEqx);
      junSol := CorrectEquinox(t, junSol);
      sepEqx := CorrectEquinox(t, sepEqx);
      decSol := CorrectEquinox(t, decSol);
    }

    /** The high-accuracy branch: each field is iterated from its mean instant with its own k. */
    method IterateAll(t: Trig, lon: real -> real, fuel: nat) returns (converged: bool)
      modifies this`marEqx, this`junSol, this`sepEqx, this`decSol
      ensures marEqx == Iterate(t, lon, old(marEqx), 0, fuel).0 && junSol == Iterate(t, lon, old(junSol), 1, fuel).0
      ensures sepEqx == Iterate(t, lon, old(sepEqx), 2, fuel).0 && decSol == Iterate(t, lon, old(decSol), 3, fuel).0
      ensures converged <==> (Iterate(t, lon, old(marEqx), 0, fuel).1 && Iterate(t, lon, old(junSol), 1, fuel).1
        && Iterate(t, lon, old(sepEqx), 2, fuel).1 && Iterate(t, lon, old(decSol), 3, fuel).1)
    {
      var d0, d1, d2, d3;
      marEqx, d0 := IterateEquinox(t, lon, marEqx, 0, fuel);
      junSol, d1 := IterateEquinox(t, lon, junSol, 1, fuel);
      sepEqx, d2 := IterateEquinox(t, lon, sepEqx, 2, fuel);
      decSol, d3 := IterateEquinox(t, lon, decSol, 3, fuel);
      converged := d0 && d1 && d2 && d3;
    }
  }

  /** With a valid math library the low-accuracy quotients are always defined. */
  lemma LowAlwaysDefined(t: Trig, year: int)
    requires ValidTrig(t)
    ensures LowDefined(t, year)
  {
    forall k | 0 <= k < 4
      ensures EqxDeltaLambda(t, Century(MeanInstant(year, k))) != 0.0
    {
      EqxDeltaLambdaBound(t, Century(MeanInstant(year, k)));
    }
  }
}
