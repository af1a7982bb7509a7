/**
 * meeus/C/lib/dynamical.c: ΔT = TD - UT in seconds, by the piecewise
 * polynomials of Espenak and Meeus, and the conversions between dynamical
 * time and universal time that it gives.
 *
 * ΔT reads the date of jde that dt_jd_to_date finds, and dt_jd_to_date
 * leaves its struct unwritten for jde < 0, so every function here asks
 * for jde >= 0.
 */
module Dynamical {
  import opened Util
  import opened DateTime

  /** The fractional year of month mon (0..11): y = year + (mon + 1 - 0.5) / 12. */
  function MidMonth(year: int, mon: int): real
  {
    year as real + (mon as real + 1.0 - 0.5) / 12.0
  }

  /** The long-term parabola -20 + 32 u^2 with u = (y - 1820) / 100. */
  function Parabola(y: real): real
  {
    var u := (y - 1820.0) / 100.0;
    -20.0 + 32.0 * u * u
  }

  /** The coefficients of each polynomial, lowest degree first, named after the year its piece ends. */
  const Before500: seq<real> := [10583.6, -1014.41, 33.78311, -5.952053, -0.1798452, 0.022174192, 0.0090316521]
  const Before1600: seq<real> := [1574.2, -556.01, 71.23472, 0.319781, -0.8503463, -0.005050998, 0.0083572073]
  const Before1700: seq<real> := [120.0, -0.9808, -0.01532, 1.0 / 7129.0]
  const Before1800: seq<real> := [8.83, 0.1603, -0.0059285, 0.00013336, -1.0 / 1174000.0]
  const Before1860: seq<real> := [13.72, -0.332447, 0.0068612, 0.0041116, -0.00037436, 0.0000121272, -0.0000001699, 0.000000000875]
  const Before1900: seq<real> := [7.62, 0.5737, -0.251754, 0.01680668, -0.0004473624, 1.0 / 233174.0]
  const Before1920: seq<real> := [-2.79, 1.494119, -0.0598939, 0.0061966, -0.000197]
  const Before1941: seq<real> := [21.2, 0.84493, -0.0761, 0.0020936]
  const Before1961: seq<real> := [29.07, 0.407, -1.0 / 233.0, 1.0 / 2547.0]
  const Before1986: seq<real> := [45.45, 1.067, -1.0 / 260.0, -1.0 / 718.0]
  const Before2005: seq<real> := [63.86, 0.3345, 0.060374, 0.0017275, 0.000651814, 0.00002373599]
  const Before2050: seq<real> := [62.92, 0.32217, 0.005589]

  /** dy_get_deltaT_seconds for the year (not years since 1900) and the tm_mon of a date. */
  function DeltaTOfMonth(year: int, mon: int): real
  {
    var y := MidMonth(year, mon);
    if year < -500 then Parabola(y)
    else if year < 500 then PolyValue(Before500, y / 100.0)
    else if year < 1600 then PolyValue(Before1600, (y - 1000.0) / 100.0)
    else if year < 1700 then PolyValue(Before1700, y - 1600.0)
    else if year < 1800 then PolyValue(Before1800, y - 1700.0)
    else if year < 1860 then PolyValue(Before1860, y - 1800.0)
    else if year < 1900 then PolyValue(Before1900, y - 1860.0)
    else if year < 1920 then PolyValue(Before1920, y - 1900.0)
    else if year < 1941 then PolyValue(Before1941, y - 1920.0)
    else if year < 1961 then PolyValue(Before1961, y - 1950.0)
    else if year < 1986 then PolyValue(Before1986, y - 1975.0)
    else if year < 2005 then PolyValue(Before2005, y - 2000.0)
    else if year < 2050 then PolyValue(Before2050, y - 2000.0)
    else if year < 2150 then Parabola(y) - 0.5628 * (2150.0 - y)
    else Parabola(y)
  }

  /** dy_get_deltaT_seconds(jde): ΔT in seconds at the date of jde. */
  function DeltaT(jde: real): real
    requires jde >= 0.0
  {
    var d := JdToDateFields(jde);
    DeltaTOfMonth(d.year + 1900, d.mon)
  }

  /** dy_dt_to_ut: jde - ΔT(jde) / 86400. */
  function DtToUt(jde: real): real
    requires jde >= 0.0
  {
    jde - DeltaT(jde) / SecsPerDay as real
  }

  /** dy_ut_to_dt: jd + ΔT(jd) / 86400. */
  function UtToDt(jd: real): real
    requires jd >= 0.0
  {
    jd + DeltaT(jd) / SecsPerDay as real
  }

  // ---------------------------------------------------------------------
  // The pieces as a table
  // ---------------------------------------------------------------------

  /** The first year of every piece but the first, in increasing order. */
  const Thresholds: seq<int> := [-500, 500, 1600, 1700, 1800, 1860, 1900, 1920, 1941, 1961, 1986, 2005, 2050, 2150]

  /** Piece i holds the years from Thresholds[i - 1] up to, not including, Thresholds[i]. */
  predicate InPiece(year: int, i: int)
  {
    0 <= i <= |Thresholds|
    && (i == 0 || Thresholds[i - 1] <= year)
    && (i == |Thresholds| || year < Thresholds[i])
  }

  /** A polynomial in u = (y - origin) / scale, lowest degree first. */
  datatype Piece = Piece(origin: real, scale: real, coefs: seq<real>)

  function PieceValue(p: Piece, y: real): real
    requires p.scale != 0.0
  {
    PolyValue(p.coefs, (y - p.origin) / p.scale)
  }

  /**
   * The fifteen polynomials in the order of the years they cover: piece i
   * is meant for the years of InPiece(_, i). Both ends are the parabola;
   * the piece before 2150 is the parabola less 0.5628 (2150 - y), written in u.
   */
  function PieceAt(i: int): (p: Piece)
    requires 0 <= i <= |Thresholds|
    ensures p.scale != 0.0
  {
    match i
    case 0 => Piece(1820.0, 100.0, ParabolaCoefs)
    case 1 => Piece(0.0, 100.0, Before500)
    case 2 => Piece(1000.0, 100.0, Before1600)
    case 3 => Piece(1600.0, 1.0, Before1700)
    case 4 => Piece(1700.0, 1.0, Before1800)
    case 5 => Piece(1800.0, 1.0, Before1860)
    case 6 => Piece(1860.0, 1.0, Before1900)
    case 7 => Piece(1900.0, 1.0, Before1920)
    case 8 => Piece(1920.0, 1.0, Before1941)
    case 9 => Piece(1950.0, 1.0, Before1961)
    case 10 => Piece(1975.0, 1.0, Before1986)
    case 11 => Piece(2000.0, 1.0, Before2005)
    case 12 => Piece(2000.0, 1.0, Before2050)
    case 13 => Piece(1820.0, 100.0, [-205.724, 56.28, 32.0])
    case _ => Piece(1820.0, 100.0, ParabolaCoefs)
  }

  /** -20 + 0 u + 32 u^2. */
  const ParabolaCoefs: seq<real> := [-20.0, 0.0, 32.0]

  /** The thresholds increase. */
  lemma ThresholdsIncrease(i: int, j: int)
    requires 0 <= i <= j < |Thresholds|
    ensures Thresholds[i] <= Thresholds[j]
    decreases j - i
  {
    if i < j {
      ThresholdsIncrease(i + 1, j);
      ThresholdStep(i);
    }
  }

  lemma ThresholdStep(k: int)
    requires 0 <= k < |Thresholds| - 1
    ensures Thresholds[k] < Thresholds[k + 1]
  {
  }

  /** Every year lies in exactly one piece. */
  lemma PieceUnique(year: int, i: int, j: int)
    requires InPiece(year, i) && InPiece(year, j)
    ensures i == j
  {
    if i != j {
      var lo, hi := if i < j then i else j, if i < j then j else i;
      ThresholdsIncrease(lo, hi - 1);
    }
  }

  /** The piece of a year, found by scanning the thresholds from index k on. */
  function PieceFrom(year: int, k: int): (i: int)
    requires 0 <= k <= |Thresholds|
    requires k == 0 || Thresholds[k - 1] <= year
    ensures k <= i && InPiece(year, i)
    decreases |Thresholds| - k
  {
    if k == |Thresholds| || year < Thresholds[k] then k else PieceFrom(year, k + 1)
  }

  /** The piece that holds a year. */
  function PieceOf(year: int): (i: int)
    ensures InPiece(year, i)
  {
    PieceFrom(year, 0)
  }

  /** The parabola as the polynomial -20 + 0 u + 32 u^2. */
  lemma ParabolaPiece(y: real)
    ensures PieceValue(PieceAt(0), y) == Parabola(y)
    ensures PieceValue(PieceAt(14), y) == Parabola(y)
  {
    var u := (y - 1820.0) / 100.0;
    var c := ParabolaCoefs;
    assert c[1..] == [0.0, 32.0] && c[1..][1..] == [32.0] && c[1..][1..][1..] == [];
    assert PolyValue(c, u) == -20.0 + u * (0.0 + u * (32.0 + u * 0.0));
  }

  /** The parabola less 0.5628 (2150 - y), as a polynomial in u. */
  lemma ReducedParabolaPiece(y: real)
    ensures PieceValue(PieceAt(13), y) == Parabola(y) - 0.5628 * (2150.0 - y)
  {
    var u := (y - 1820.0) / 100.0;
    var c := [-205.724, 56.28, 32.0];
    assert c[1..] == [56.28, 32.0] && c[1..][1..] == [32.0] && c[1..][1..][1..] == [];
    assert PolyValue(c, u) == -205.724 + u * (56.28 + u * (32.0 + u * 0.0));
    assert y == 1820.0 + 100.0 * u;
  }

  /**
   * The if-chain of dy_get_deltaT_seconds selects the piece that holds the
   * year: ΔT is that piece's polynomial at the middle of the month.
   */
  lemma DeltaTIsPiece(year: int, mon: int, i: int)
    requires InPiece(year, i)
    ensures DeltaTOfMonth(year, mon) == PieceValue(PieceAt(i), MidMonth(year, mon))
  {
    var y := MidMonth(year, mon);
    if i == 0 {
      ParabolaPiece(y);
    } else if i == 13 {
      ReducedParabolaPiece(y);
    } else if i == 14 {
      ParabolaPiece(y);
    } else {
      PolynomialPiece(year, mon, i);
    }
  }

  /** Pieces 1 to 12 are the polynomials of the chain, term by term. */
  lemma PolynomialPiece(year: int, mon: int, i: int)
    requires InPiece(year, i) && 0 < i < 13
    ensures DeltaTOfMonth(year, mon) == PieceValue(PieceAt(i), MidMonth(year, mon))
  {
    if i < 5 {
      PolynomialPieceUpTo1800(year, mon, i);
    } else if i < 9 {
      PolynomialPieceUpTo1941(year, mon, i);
    } else {
      PolynomialPieceUpTo2050(year, mon, i);
    }
  }

  lemma PolynomialPieceUpTo1800(year: int, mon: int, i: int)
    requires InPiece(year, i) && 1 <= i <= 4
    ensures DeltaTOfMonth(year, mon) == PieceValue(PieceAt(i), MidMonth(year, mon))
  {
    var y := MidMonth(year, mon);
    var p := PieceAt(i);
    if i == 1 {
      assert -500 <= year < 500 && (y - p.origin) / p.scale == y / 100.0;
    } else if i == 2 {
      assert 500 <= year < 1600 && (y - p.origin) / p.scale == (y - 1000.0) / 100.0;
    } else if i == 3 {
      assert 1600 <= year < 1700 && (y - p.origin) / p.scale == y - 1600.0;
    } else {
      assert 1700 <= year < 1800 && (y - p.origin) / p.scale == y - 1700.0;
    }
  }

  lemma PolynomialPieceUpTo1941(year: int, mon: int, i: int)
    requires InPiece(year, i) && 5 <= i <= 8
    ensures DeltaTOfMonth(year, mon) == PieceValue(PieceAt(i), MidMonth(year, mon))
  {
    var y := MidMonth(year, mon);
    var p := PieceAt(i);
    if i == 5 {
      assert 1800 <= year < 1860 && (y - p.origin) / p.scale == y - 1800.0;
    } else if i == 6 {
      assert 1860 <= year < 1900 && (y - p.origin) / p.scale == y - 1860.0;
    } else if i == 7 {
      assert 1900 <= year < 1920 && (y - p.origin) / p.scale == y - 1900.0;
    } else {
      assert 1920 <= year < 1941 && (y - p.origin) / p.scale == y - 1920.0;
    }
  }

  lemma PolynomialPieceUpTo2050(year: int, mon: int, i: int)
    requires InPiece(year, i) && 9 <= i <= 12
    ensures DeltaTOfMonth(year, mon) == PieceValue(PieceAt(i), MidMonth(year, mon))
  {
    var y := MidMonth(year, mon);
    var p := PieceAt(i);
    if i == 9 {
      assert 1941 <= year < 1961 && (y - p.origin) / p.scale == y - 1950.0;
    } else if i == 10 {
      assert 1961 <= year < 1986 && (y - p.origin) / p.scale == y - 1975.0;
    } else if i == 11 {
      assert 1986 <= year < 2005 && (y - p.origin) / p.scale == y - 2000.0;
    } else {
      assert 2005 <= year < 2050 && (y - p.origin) / p.scale == y - 2000.0;
    }
  }

  /** Exactly one polynomial applies, and it is the one of the year's piece. */
  lemma DeltaTOfYearPiece(year: int, mon: int)
    ensures DeltaTOfMonth(year, mon) == PieceValue(PieceAt(PieceOf(year)), MidMonth(year, mon))
    ensures forall i :: InPiece(year, i) ==> i == PieceOf(year)
  {
    DeltaTIsPiece(year, mon, PieceOf(year));
    forall i | InPiece(year, i)
      ensures i == PieceOf(year)
    {
      PieceUnique(year, i, PieceOf(year));
    }
  }

  // ---------------------------------------------------------------------
  // Properties of the conversions
  // ---------------------------------------------------------------------

  /** Two instants whose year and month agree. */
  predicate SameMonth(j1: real, j2: real)
    requires j1 >= 0.0 && j2 >= 0.0
  {
    var d1, d2 := JdToDateFields(j1), JdToDateFields(j2);
    d1.year == d2.year && d1.mon == d2.mon
  }

  /** ΔT is constant within a calendar month: it reads only the year and month of jde. */
  lemma DeltaTMonthly(j1: real, j2: real)
    requires j1 >= 0.0 && j2 >= 0.0 && SameMonth(j1, j2)
    ensures DeltaT(j1) == DeltaT(j2)
  {
  }

  /** dy_dt_to_ut undoes dy_ut_to_dt when both instants fall in the same month. */
  lemma UtToDtRoundTrip(jd: real)
    requires jd >= 0.0 && UtToDt(jd) >= 0.0 && SameMonth(jd, UtToDt(jd))
    ensures DtToUt(UtToDt(jd)) == jd
  {
    DeltaTMonthly(jd, UtToDt(jd));
  }

  /** dy_ut_to_dt undoes dy_dt_to_ut when both instants fall in the same month. */
  lemma DtToUtRoundTrip(jde: real)
    requires jde >= 0.0 && DtToUt(jde) >= 0.0 && SameMonth(jde, DtToUt(jde))
    ensures UtToDt(DtToUt(jde)) == jde
  {
    DeltaTMonthly(jde, DtToUt(jde));
  }
}
