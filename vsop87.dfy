// The VSOP87D series evaluator and its FK5 correction (meeus/C/lib/vsop87.c).
// Each planet's table gives, for each of the three coordinates L, B, R, a number of series; each
// series is a run of (A, B, C) triplets, and all triplets of all series are stored one after the
// other in one flat array of doubles. Coordinate c is sum over its series k of tau^k times the sum of
// A * cos(B + C * tau) over the triplets of series k.

module Vsop87 {
  import opened Units
  import opened Util

  /** struct vsop_planetary_components: series counts, terms per series, and the flat triplet array. */
  datatype Components = Components(numSeries: seq<int>, termsPerSeries: seq<seq<int>>, coefs: seq<real>)

  /** The sum of the first s counts of xs. */
  function SumPrefix(xs: seq<int>, s: int): int
    requires 0 <= s <= |xs|
  {
    if s == 0 then 0 else SumPrefix(xs, s - 1) + xs[s - 1]
  }

  /** Three coordinates, each with no more series than it has counts, and no negative count. */
  predicate Shaped(v: Components)
  {
    |v.numSeries| == 3 && |v.termsPerSeries| == 3
    && (forall c :: 0 <= c < 3 ==> 0 <= v.numSeries[c] <= |v.termsPerSeries[c]|)
    && (forall c, s :: 0 <= c < 3 && 0 <= s < |v.termsPerSeries[c]| ==> v.termsPerSeries[c][s] >= 0)
  }

  /** The number of triplets of all series of the coordinates before c. */
  function CoordStart(v: Components, c: int): int
    requires Shaped(v) && 0 <= c <= 3
  {
    if c == 0 then 0
    else CoordStart(v, c - 1) + SumPrefix(v.termsPerSeries[c - 1], v.numSeries[c - 1])
  }

  /** The flat position (in triplets) of series s of coordinate c: term_start when the series begins. */
  function SeriesStart(v: Components, c: int, s: int): int
    requires Shaped(v) && 0 <= c < 3 && 0 <= s <= v.numSeries[c]
  {
    CoordStart(v, c) + SumPrefix(v.termsPerSeries[c], s)
  }

  /** The number of triplets the evaluator reads. */
  function TotalTerms(v: Components): int
    requires Shaped(v)
  {
    CoordStart(v, 3)
  }

  /** A table the evaluator reads within bounds: at least 3 * TotalTerms doubles. */
  predicate WellFormed(v: Components)
  {
    Shaped(v) && |v.coefs| >= 3 * TotalTerms(v)
  }

  /** vsop87d_planetary_components: one table per planet, indexed by planet_e. */
  predicate ValidTables(tables: seq<Components>)
  {
    |tables| == 8 && forall i :: 0 <= i < 8 ==> WellFormed(tables[i])
  }

  lemma {:induction false} SumPrefixMonotone(xs: seq<int>, s: int, u: int)
    requires 0 <= s <= u <= |xs| && forall i :: 0 <= i < |xs| ==> xs[i] >= 0
    ensures 0 <= SumPrefix(xs, s) <= SumPrefix(xs, u)
  {
    if s < u {
      SumPrefixMonotone(xs, s, u - 1);
    } else if s > 0 {
      SumPrefixMonotone(xs, s - 1, s);
    }
  }

  lemma {:induction false} CoordStartMonotone(v: Components, c: int, d: int)
    requires Shaped(v) && 0 <= c <= d <= 3
    ensures 0 <= CoordStart(v, c) <= CoordStart(v, d)
  {
    if c < d {
      CoordStartMonotone(v, c, d - 1);
      SumPrefixMonotone(v.termsPerSeries[d - 1], 0, v.numSeries[d - 1]);
    } else if c > 0 {
      CoordStartMonotone(v, c - 1, c);
    }
  }

  /**
   * term_start is never reset: the series of one coordinate follow each other, the last one ending
   * where the next coordinate's first series begins, and every series lies inside the first
   * TotalTerms triplets; reading triplet i of series s touches the doubles at 3 * (start + i) + 0..2.
   */
  lemma SeriesInTable(v: Components, c: int, s: int)
    requires Shaped(v) && 0 <= c < 3 && 0 <= s < v.numSeries[c]
    ensures SeriesStart(v, c, s + 1) == SeriesStart(v, c, s) + v.termsPerSeries[c][s]
    ensures 0 <= SeriesStart(v, c, s) && SeriesStart(v, c, s + 1) <= TotalTerms(v)
  {
    var xs := v.termsPerSeries[c];
    SumPrefixMonotone(xs, s + 1, v.numSeries[c]);
    SumPrefixMonotone(xs, 0, s);
    CoordStartMonotone(v, 0, c);
    CoordStartMonotone(v, c + 1, 3);
  }

  /** The last series of a coordinate ends where the next coordinate begins. */
  lemma SeriesEndCoordinate(v: Components, c: int)
    requires Shaped(v) && 0 <= c < 3
    ensures SeriesStart(v, c, v.numSeries[c]) == CoordStart(v, c + 1)
  {
  }

  /** One term of a series: the triplet (A, B, C) contributes A * cos(B + C * tau). */
  function TermValue(t: Trig, a: real, b: real, c: real, tau: real): real
  {
    a * Cos(t, b + c * tau)
  }

  /** The sum of the terms of the n triplets from flat position start. */
  function TermSum(t: Trig, coefs: seq<real>, start: int, n: int, tau: real): real
    requires 0 <= start && 0 <= n && (start + n) * 3 <= |coefs|
  {
    if n == 0 then 0.0
    else
      var i := (start + n - 1) * 3;
      TermSum(t, coefs, start, n - 1, tau) + TermValue(t, coefs[i], coefs[i + 1], coefs[i + 2], tau)
  }

  /** The sum of the amplitudes |A| of the n triplets from flat position start. */
  function AmplitudeSum(coefs: seq<real>, start: int, n: int): (m: real)
    requires 0 <= start && 0 <= n && (start + n) * 3 <= |coefs|
    ensures m >= 0.0
  {
    if n == 0 then 0.0 else AmplitudeSum(coefs, start, n - 1) + Abs(coefs[(start + n - 1) * 3])
  }

  /** A series never exceeds the sum of its amplitudes, whatever tau, as cosines lie in [-1, 1]. */
  lemma {:induction false} TermSumBound(t: Trig, coefs: seq<real>, start: int, n: int, tau: real)
    requires BoundedTrig(t) && 0 <= start && 0 <= n && (start + n) * 3 <= |coefs|
    ensures Abs(TermSum(t, coefs, start, n, tau)) <= AmplitudeSum(coefs, start, n)
  {
    if n > 0 {
      var i := (start + n - 1) * 3;
      assert i + 3 == (start + n) * 3;
      TermSumBound(t, coefs, start, n - 1, tau);
      TermValueBound(t, TermSum(t, coefs, start, n - 1, tau), AmplitudeSum(coefs, start, n - 1),
        coefs[i], coefs[i + 1], coefs[i + 2], tau);
    }
  }

  lemma TermValueBound(t: Trig, s: real, m: real, a: real, b: real, c: real, tau: real)
    requires BoundedTrig(t) && Abs(s) <= m
    ensures Abs(s + TermValue(t, a, b, c, tau)) <= m + Abs(a)
  {
    TermBound(s, m, a, Cos(t, b + c * tau));
  }

  /** The first k series of coordinate c, series j weighted by tau^j. */
  function CoordSum(t: Trig, v: Components, c: int, k: int, tau: real): real
    requires WellFormed(v) && 0 <= c < 3 && 0 <= k <= v.numSeries[c]
  {
    if k == 0 then 0.0
    else
      SeriesInTable(v, c, k - 1);
      CoordSum(t, v, c, k - 1, tau)
        + TermSum(t, v.coefs, SeriesStart(v, c, k - 1), v.termsPerSeries[c][k - 1], tau) * Pow(tau, k - 1)
  }

  /** One more series: what the middle loop of the evaluator adds to coord[c] and to power_tau. */
  lemma CoordSumStep(t: Trig, v: Components, c: int, k: int, tau: real, sum: real, tmpC: real, powerTau: real)
    requires WellFormed(v) && 0 <= c < 3 && 0 <= k < v.numSeries[c]
    requires sum == CoordSum(t, v, c, k, tau) && powerTau == Pow(tau, k)
    requires SeriesStart(v, c, k) >= 0 && (SeriesStart(v, c, k) + v.termsPerSeries[c][k]) * 3 <= |v.coefs|
    requires tmpC == TermSum(t, v.coefs, SeriesStart(v, c, k), v.termsPerSeries[c][k], tau)
    ensures sum + tmpC * powerTau == CoordSum(t, v, c, k + 1, tau)
    ensures powerTau * tau == Pow(tau, k + 1)
  {
  }

  /** Coordinate c in radians (or AU), as computed by vso_vsop87d_dyn_coordinates; not range-reduced. */
  function DynCoordinate(t: Trig, v: Components, c: int, tau: real): real
    requires WellFormed(v) && 0 <= c < 3
  {
    CoordSum(t, v, c, v.numSeries[c], tau)
  }

  /** A coordinate without series evaluates to 0. */
  lemma NoSeriesIsZero(t: Trig, v: Components, c: int, tau: real)
    requires WellFormed(v) && 0 <= c < 3 && v.numSeries[c] == 0
    ensures DynCoordinate(t, v, c, tau) == 0.0
  {
  }

  /** The time argument of VSOP87: Julian millennia since J2000. */
  function Millennia(jde: real): (tau: real)
    ensures jde == 2451545.0 + 365250.0 * tau
  {
    Century(jde) / 10.0
  }

  /** The sum over the n triplets from flat position start, as the innermost loop of the evaluator forms it. */
  method SumTerms(t: Trig, coefs: seq<real>, start: int, n: int, tau: real) returns (tmpC: real)
    requires 0 <= start && 0 <= n && (start + n) * 3 <= |coefs|
    ensures tmpC == TermSum(t, coefs, start, n, tau)
  {
    tmpC := 0.0;
    var termIndex := 0;
    while termIndex < n
      invariant 0 <= termIndex <= n
      invariant tmpC == TermSum(t, coefs, start, termIndex, tau)
    {
      var i := (start + termIndex) * 3;
      tmpC := tmpC + TermValue(t, coefs[i], coefs[i + 1], coefs[i + 2], tau);
      termIndex := termIndex + 1;
    }
  }

  /**
   * vso_vsop87d_dyn_coordinates: writes L, B (radians) and R (AU) of the planet, referred to the mean
   * dynamical ecliptic and equinox of J2000, into coord[0..3].
   */
  method DynCoordinates(t: Trig, jde: real, tables: seq<Components>, planet: Planet, coord: array<real>)
    requires ValidTables(tables) && coord.Length == 3
    modifies coord
    ensures forall c :: 0 <= c < 3 ==> coord[c] == DynCoordinate(t, tables[PlanetIndex(planet)], c, Millennia(jde))
  {
    var v := tables[PlanetIndex(planet)];
    var tau := Millennia(jde);
    var termStart := 0;
    var c := 0;
    while c < 3
      invariant 0 <= c <= 3
      invariant termStart == CoordStart(v, c)
      invariant forall d :: 0 <= d < c ==> coord[d] == DynCoordinate(t, v, d, tau)
    {
      coord[c] := 0.0;
      var powerTau := 1.0;
      var serie := 0;
      while serie < v.numSeries[c]
        invariant 0 <= serie <= v.numSeries[c]
        invariant termStart == SeriesStart(v, c, serie)
        invariant powerTau == Pow(tau, serie)
        invariant coord[c] == CoordSum(t, v, c, serie, tau)
        invariant forall d :: 0 <= d < c ==> coord[d] == DynCoordinate(t, v, d, tau)
      {
        SeriesInTable(v, c, serie);
        var tmpC := SumTerms(t, v.coefs, termStart, v.termsPerSeries[c][serie], tau);
        CoordSumStep(t, v, c, serie, tau, coord[c], tmpC, powerTau);
        termStart := termStart + v.termsPerSeries[c][serie];
        coord[c] := coord[c] + tmpC * powerTau;
        powerTau := powerTau * tau;
        serie := serie + 1;
      }
      SeriesEndCoordinate(v, c);
      c := c + 1;
    }
  }

  /** Heliocentric spherical coordinates: longitude, latitude and radius vector. */
  datatype Spherical = Spherical(L: real, B: real, R: real)

  /** The dynamical coordinates of a planet, as vso_vsop87d_dyn_coordinates leaves them. */
  function DynSpherical(t: Trig, jde: real, tables: seq<Components>, planet: Planet): Spherical
    requires ValidTables(tables)
  {
    var v := tables[PlanetIndex(planet)];
    var tau := Millennia(jde);
    Spherical(DynCoordinate(t, v, 0, tau), DynCoordinate(t, v, 1, tau), DynCoordinate(t, v, 2, tau))
  }

  /** Meeus 32.3: the FK5 longitude and latitude, in degrees, from the dynamical L and B in radians. */
  function Fk5(t: Trig, T: real, dyn: Spherical): (r: Spherical)
    requires t.pi > 0.0
    ensures 0.0 <= r.L < 360.0
    ensures r.R == dyn.R
    ensures var Lp := RadToDeg(t, dyn.L) - 1.397 * T - 0.00031 * T * T;
      r.B == RadToDeg(t, dyn.B) + ArcsecToDeg(0.03916 * (Cosd(t, Lp) - Sind(t, Lp)))
  {
    var L := RadToDeg(t, dyn.L);
    var B := RadToDeg(t, dyn.B);
    var Lprime := L - 1.397 * T - 0.00031 * T * T;
    Spherical(
      Rerange(L + ArcsecToDeg(-0.09033 + 0.03916 * (Cosd(t, Lprime) + Sind(t, Lprime)) * Tan(t, dyn.B)), 360.0),
      B + ArcsecToDeg(0.03916 * (Cosd(t, Lprime) - Sind(t, Lprime))),
      dyn.R)
  }

  /** The FK5 coordinates of a planet, as vso_vsop87d_coordinates leaves them. */
  function Fk5Spherical(t: Trig, jde: real, tables: seq<Components>, planet: Planet): Spherical
    requires t.pi > 0.0 && ValidTables(tables)
  {
    Fk5(t, Century(jde), DynSpherical(t, jde, tables, planet))
  }

  /**
   * vso_vsop87d_coordinates: the dynamical coordinates corrected to FK5 in place: coord[0] becomes
   * the FK5 longitude in [0, 360), coord[1] the FK5 latitude, both in degrees; coord[2] is untouched.
   */
  method Coordinates(t: Trig, jde: real, tables: seq<Components>, planet: Planet, coord: array<real>)
    requires t.pi > 0.0 && ValidTables(tables) && coord.Length == 3
    modifies coord
    ensures var r := Fk5Spherical(t, jde, tables, planet);
      coord[0] == r.L && coord[1] == r.B && coord[2] == r.R
  {
    DynCoordinates(t, jde, tables, planet, coord);
    var r := Fk5(t, Century(jde), Spherical(coord[0], coord[1], coord[2]));
    coord[0] := r.L;
    coord[1] := r.B;
  }
}
