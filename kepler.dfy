// Kepler's equation M = E - e sin E by Sinnott's bisection (meeus/C/lib/kepler.c, Meeus chapter 30).
// The mean anomaly is reduced to [0, 360), folded onto [0, pi] radians, and the eccentric anomaly is
// found by 40 steps of +-D, D halving from pi/4.

module Kepler {
  import opened Units
  import opened Util

  /** The loop `for (j = 0; j <= 3.32 * 12; j++)` runs for j = 0 .. 39. */
  const Rounds: nat := 40

  lemma RoundsOfLoopBound(j: int)
    requires 0 <= j
    ensures j as real <= 3.32 * 12.0 <==> j < Rounds
  {
  }

  /** copysign(D, x) for D >= 0: D when x >= 0, -D otherwise (reals have no negative zero). */
  function CopySign(D: real, x: real): (r: real)
    requires D >= 0.0
    ensures Abs(r) == D
    ensures x >= 0.0 ==> r == D
    ensures x < 0.0 ==> r == -D
  {
    if x >= 0.0 then D else -D
  }

  /** M1 = E0 - e sin(E0): the mean anomaly that E0 corresponds to. */
  function MeanOf(t: Trig, e: real, E0: real): real
  {
    E0 - e * Sin(t, E0)
  }

  /** One step of the bisection: E0 moves by D towards the side where Mp lies. */
  function Step(t: Trig, Mp: real, e: real, E0: real, D: real): real
    requires D >= 0.0
  {
    E0 + CopySign(D, Mp - MeanOf(t, e, E0))
  }

  /** The pair (E0, D) the loop of kep_get_eccentric_anomaly holds. */
  datatype Search = Search(E0: real, D: real)

  /** The search after k rounds, starting from E0 = pi/2 and D = pi/4; D stays positive. */
  function Iterate(t: Trig, Mp: real, e: real, k: nat): (s: Search)
    requires t.pi > 0.0
    ensures s.D > 0.0
  {
    if k == 0 then Search(HalfPi(t), QuarterPi(t))
    else
      var s := Iterate(t, Mp, e, k - 1);
      Search(Step(t, Mp, e, s.E0, s.D), s.D / 2.0)
  }

  /** Each step moves E0 by exactly D: up when Mp >= M1 and down otherwise. */
  lemma StepRule(t: Trig, Mp: real, e: real, E0: real, D: real)
    requires D >= 0.0
    ensures Mp - MeanOf(t, e, E0) >= 0.0 ==> Step(t, Mp, e, E0, D) == E0 + D
    ensures Mp - MeanOf(t, e, E0) < 0.0 ==> Step(t, Mp, e, E0, D) == E0 - D
    ensures Abs(Step(t, Mp, e, E0, D) - E0) == D
  {
    var r := CopySign(D, Mp - MeanOf(t, e, E0));
    assert Step(t, Mp, e, E0, D) - E0 == r;
  }

  /**
   * The steps halve, so E0 never strays further from pi/2 than pi/2 - 2 D: what is left of the
   * distance always covers twice the next step.
   */
  lemma {:induction false} IterateInside(t: Trig, Mp: real, e: real, k: nat)
    requires t.pi > 0.0
    ensures Abs(Iterate(t, Mp, e, k).E0 - HalfPi(t)) <= HalfPi(t) - 2.0 * Iterate(t, Mp, e, k).D
  {
    if k > 0 {
      IterateInside(t, Mp, e, k - 1);
      var s := Iterate(t, Mp, e, k - 1);
      StepRule(t, Mp, e, s.E0, s.D);
      AbsAdd(s.E0 - HalfPi(t), Step(t, Mp, e, s.E0, s.D) - s.E0);
    }
  }

  /**
   * M1 = E - e sin E grows strictly with E on [0, pi], as it does for 0 <= e < 1. Sin is a
   * parameter of the model, so this is a hypothesis of the lemmas that need it.
   */
  ghost predicate MeanIncreasing(t: Trig, e: real)
  {
    forall x, y :: 0.0 <= x < y <= t.pi ==> MeanOf(t, e, x) < MeanOf(t, e, y)
  }

  /**
   * The search brackets the root: when Es in [0, pi] solves Kepler's equation Mp = Es - e sin Es,
   * E0 is never further than 2 D from Es, since each step goes towards Es.
   */
  lemma {:induction false} IterateBrackets(t: Trig, Mp: real, e: real, Es: real, k: nat)
    requires t.pi > 0.0 && MeanIncreasing(t, e)
    requires 0.0 <= Es <= t.pi && MeanOf(t, e, Es) == Mp
    ensures Abs(Iterate(t, Mp, e, k).E0 - Es) <= 2.0 * Iterate(t, Mp, e, k).D
  {
    if k > 0 {
      IterateBrackets(t, Mp, e, Es, k - 1);
      IterateInside(t, Mp, e, k - 1);
      var s := Iterate(t, Mp, e, k - 1);
      StepRule(t, Mp, e, s.E0, s.D);
      if Mp - MeanOf(t, e, s.E0) >= 0.0 {
        assert s.E0 <= Es;
      } else {
        assert Es < s.E0;
      }
    }
  }

  /** The steps halve: after k rounds D = (pi/4) / 2^k. */
  lemma {:induction false} IterateStepSize(t: Trig, Mp: real, e: real, k: nat)
    requires t.pi > 0.0
    ensures Iterate(t, Mp, e, k).D * Pow(2.0, k) == QuarterPi(t)
  {
    if k > 0 {
      IterateStepSize(t, Mp, e, k - 1);
    }
  }

  /** 2^41, twice the power of two the last step is divided by. */
  const TwoPow41: real := 2199023255552.0

  /** After the 40 rounds 2 D = pi / 2^41. */
  lemma FinalStep(t: Trig, Mp: real, e: real)
    requires t.pi > 0.0
    ensures 2.0 * Iterate(t, Mp, e, Rounds).D == t.pi / TwoPow41
  {
    IterateStepSize(t, Mp, e, Rounds);
    assert Pow(2.0, 10) == 1024.0;
    assert Pow(2.0, 20) == 1048576.0 by { PowAdd(2.0, 10, 10); }
    assert Pow(2.0, 40) == 1099511627776.0 by { PowAdd(2.0, 20, 20); }
  }

  /** The reduced anomaly in radians, deg_to_rad(rerange(M, 360)). */
  function ReducedRadians(t: Trig, M: real): real
    requires t.pi > 0.0
  {
    DegToRad(t, Rerange(M, 360.0))
  }

  /** Mp: the reduced anomaly folded onto [0, pi], 2 pi - Mp when it exceeds pi. */
  function Folded(t: Trig, M: real): real
    requires t.pi > 0.0
  {
    if ReducedRadians(t, M) > t.pi then 2.0 * t.pi - ReducedRadians(t, M) else ReducedRadians(t, M)
  }

  /** F: -1 when the anomaly was folded, 1 otherwise. */
  function FoldSign(t: Trig, M: real): real
    requires t.pi > 0.0
  {
    if ReducedRadians(t, M) > t.pi then -1.0 else 1.0
  }

  /** The starting point E0 = pi/2 and the first step D = pi/4. */
  function HalfPi(t: Trig): real
  {
    t.pi / 2.0
  }

  function QuarterPi(t: Trig): (D: real)
    requires t.pi > 0.0
    ensures D > 0.0 && HalfPi(t) - 2.0 * D == 0.0
  {
    t.pi / 4.0
  }

  /** E0 after the 40 steps, from pi/2 with D = pi/4. */
  function FinalE0(t: Trig, M: real, e: real): real
    requires t.pi > 0.0
  {
    Iterate(t, Folded(t, M), e, Rounds).E0
  }

  /** E0 * F, in radians. */
  function SignedE0(t: Trig, M: real, e: real): real
    requires t.pi > 0.0
  {
    FinalE0(t, M, e) * FoldSign(t, M)
  }

  /** The eccentric anomaly in degrees, rad_to_deg(E0 * F). */
  function EccentricAnomaly(t: Trig, M: real, e: real): real
    requires t.pi > 0.0
  {
    RadToDeg(t, SignedE0(t, M, e))
  }

  /** The loop of kep_get_eccentric_anomaly: 40 rounds of the search from pi/2 with first step pi/4. */
  method BisectLoop(t: Trig, Mp: real, e: real) returns (E0: real)
    requires t.pi > 0.0
    ensures E0 == Iterate(t, Mp, e, Rounds).E0
  {
    E0 := t.pi / 2.0;
    var D := t.pi / 4.0;
    var j := 0;
    while j as real <= 3.32 * 12.0
      invariant 0 <= j <= Rounds
      invariant Search(E0, D) == Iterate(t, Mp, e, j)
      decreases Rounds - j
    {
      RoundsOfLoopBound(j);
      var M1 := MeanOf(t, e, E0);
      E0 := E0 + CopySign(D, Mp - M1);
      D := D / 2.0;
      j := j + 1;
    }
    RoundsOfLoopBound(j);
  }

  /** kep_get_eccentric_anomaly. */
  method GetEccentricAnomaly(t: Trig, M: real, e: real) returns (E: real)
    requires t.pi > 0.0
    ensures E == EccentricAnomaly(t, M, e)
  {
    var Mp := DegToRad(t, Rerange(M, 360.0));
    var F := 1.0;
    if Mp > t.pi {
      F := -1.0;
      Mp := 2.0 * t.pi - Mp;
    }
    assert Mp == Folded(t, M) && F == FoldSign(t, M);
    var E0 := BisectLoop(t, Mp, e);
    assert SignedE0(t, M, e) == E0 * F;
    return RadToDeg(t, E0 * F);
  }

  /**
   * kep_get_eccentric_anomaly solves Kepler's equation: the final E0 is within pi / 2^41 of the
   * root Es in [0, pi] of Mp = Es - e sin Es, for the folded anomaly Mp.
   */
  lemma FinalE0Solves(t: Trig, M: real, e: real, Es: real)
    requires t.pi > 0.0 && MeanIncreasing(t, e)
    requires 0.0 <= Es <= t.pi && MeanOf(t, e, Es) == Folded(t, M)
    ensures Abs(FinalE0(t, M, e) - Es) <= t.pi / TwoPow41
  {
    IterateBrackets(t, Folded(t, M), e, Es, Rounds);
    FinalStep(t, Folded(t, M), e);
  }

  /**
   * In degrees and with the sign F restored: the result is within 180 / 2^41 degrees of
   * rad_to_deg(Es * F), for the root Es of the folded anomaly.
   */
  lemma EccentricAnomalySolves(t: Trig, M: real, e: real, Es: real)
    requires t.pi > 0.0 && MeanIncreasing(t, e)
    requires 0.0 <= Es <= t.pi && MeanOf(t, e, Es) == Folded(t, M)
    ensures Abs(EccentricAnomaly(t, M, e) - RadToDeg(t, Es * FoldSign(t, M))) <= 180.0 / TwoPow41
  {
    FinalE0Solves(t, M, e, Es);
    var F := FoldSign(t, M);
    assert Abs(SignedE0(t, M, e) - Es * F) == Abs(FinalE0(t, M, e) - Es) by {
      if F < 0.0 {
        assert SignedE0(t, M, e) - Es * F == -(FinalE0(t, M, e) - Es);
      }
    }
    DegreesClose(t, SignedE0(t, M, e), Es * F, t.pi / TwoPow41);
    RadiansCancel(t.pi, TwoPow41);
  }

  lemma RadiansCancel(p: real, c: real)
    requires p > 0.0 && c > 0.0
    ensures (p / c) * 180.0 / p == 180.0 / c
  {
    var q := p / c;
    assert q * c == p;
    assert (q * 180.0) * c == 180.0 * p;
  }

  /** rad_to_deg scales distances by 180 / pi. */
  lemma DegreesClose(t: Trig, x: real, y: real, b: real)
    requires t.pi > 0.0 && Abs(x - y) <= b
    ensures Abs(RadToDeg(t, x) - RadToDeg(t, y)) <= b * 180.0 / t.pi
  {
    assert RadToDeg(t, x) - RadToDeg(t, y) == (x - y) * (180.0 / t.pi);
    AbsMul(x - y, 180.0 / t.pi);
    ProductNonneg(b - Abs(x - y), 180.0 / t.pi);
  }

  /** E0 stays in (0, pi): the first step is pi/4 and the steps halve. */
  lemma FinalE0Range(t: Trig, M: real, e: real)
    requires t.pi > 0.0
    ensures 0.0 < FinalE0(t, M, e) < t.pi
  {
    IterateInside(t, Folded(t, M), e, Rounds);
  }

  /** The eccentric anomaly lies in (-180, 180), with the sign of F: negative exactly when folded. */
  lemma EccentricAnomalyRange(t: Trig, M: real, e: real)
    requires t.pi > 0.0
    ensures -180.0 < EccentricAnomaly(t, M, e) < 180.0
    ensures EccentricAnomaly(t, M, e) < 0.0 <==> Rerange(M, 360.0) > 180.0
  {
    FinalE0Range(t, M, e);
    FoldedBeyondHalfTurn(t, M);
    DegreesOfRadians(t, SignedE0(t, M, e));
  }

  /** |x| < pi gives |rad_to_deg(x)| < 180, with the sign of x. */
  lemma DegreesOfRadians(t: Trig, x: real)
    requires t.pi > 0.0 && Abs(x) < t.pi
    ensures -180.0 < RadToDeg(t, x) < 180.0
    ensures RadToDeg(t, x) < 0.0 <==> x < 0.0
  {
    var d := RadToDeg(t, x);
    assert x == d * t.pi / 180.0;
    if d >= 180.0 {
      ProductNonneg(d - 180.0, t.pi);
    }
    if d <= -180.0 {
      ProductNonneg(-180.0 - d, t.pi);
    }
    if d < 0.0 {
      ProductPos(-d, t.pi);
    }
    if x < 0.0 && d >= 0.0 {
      ProductNonneg(d, t.pi);
    }
  }

  /** Mp > pi exactly when the reduced anomaly exceeds 180 degrees. */
  lemma FoldedBeyondHalfTurn(t: Trig, M: real)
    requires t.pi > 0.0
    ensures ReducedRadians(t, M) > t.pi <==> Rerange(M, 360.0) > 180.0
  {
    var r := Rerange(M, 360.0);
    assert ReducedRadians(t, M) - t.pi == (r - 180.0) * t.pi / 180.0;
    if r > 180.0 {
      ProductPos(r - 180.0, t.pi);
    } else {
      ProductNonneg(180.0 - r, t.pi);
    }
  }

  /** The result depends on M only through rerange(M, 360): whole turns change nothing. */
  lemma EccentricAnomalyPeriodic(t: Trig, M: real, e: real, k: int)
    requires t.pi > 0.0
    ensures EccentricAnomaly(t, M + k as real * 360.0, e) == EccentricAnomaly(t, M, e)
  {
    RerangePeriodic(M, 360.0, k);
    SameReduction(t, M + k as real * 360.0, M, e);
  }

  lemma SameReduction(t: Trig, M1: real, M2: real, e: real)
    requires t.pi > 0.0 && Rerange(M1, 360.0) == Rerange(M2, 360.0)
    ensures EccentricAnomaly(t, M1, e) == EccentricAnomaly(t, M2, e)
  {
    assert ReducedRadians(t, M1) == ReducedRadians(t, M2);
    assert Folded(t, M1) == Folded(t, M2) && FoldSign(t, M1) == FoldSign(t, M2);
    assert FinalE0(t, M1, e) == FinalE0(t, M2, e);
    assert SignedE0(t, M1, e) == SignedE0(t, M2, e);
  }

  /** A reduced anomaly r > 180 gives the negated result of 360 - r. */
  lemma EccentricAnomalyMirror(t: Trig, M: real, e: real)
    requires t.pi > 0.0 && Rerange(M, 360.0) > 180.0
    ensures EccentricAnomaly(t, M, e) == -EccentricAnomaly(t, 360.0 - Rerange(M, 360.0), e)
  {
    var r := Rerange(M, 360.0);
    ReducedMirror(t, M);
    FoldedBeyondHalfTurn(t, M);
    FoldedBeyondHalfTurn(t, 360.0 - r);
    MirroredReduction(t, M, 360.0 - r, e);
  }

  lemma ReducedMirror(t: Trig, M: real)
    requires t.pi > 0.0 && Rerange(M, 360.0) > 0.0
    ensures ReducedRadians(t, 360.0 - Rerange(M, 360.0)) == 2.0 * t.pi - ReducedRadians(t, M)
  {
    var r := Rerange(M, 360.0);
    RerangeIdentity(360.0 - r, 360.0);
    assert DegToRad(t, 360.0 - r) == 2.0 * t.pi - DegToRad(t, r);
  }

  lemma MirroredReduction(t: Trig, M1: real, M2: real, e: real)
    requires t.pi > 0.0 && ReducedRadians(t, M1) > t.pi && ReducedRadians(t, M2) <= t.pi
    requires ReducedRadians(t, M2) == 2.0 * t.pi - ReducedRadians(t, M1)
    ensures EccentricAnomaly(t, M1, e) == -EccentricAnomaly(t, M2, e)
  {
    assert Folded(t, M1) == Folded(t, M2);
    assert FinalE0(t, M1, e) == FinalE0(t, M2, e);
    assert SignedE0(t, M1, e) == -SignedE0(t, M2, e);
    RadToDegOdd(t, SignedE0(t, M2, e));
  }
}
