// The planar sundial of sundial/sundial.py (Meeus chapter 58): a sundial of latitude phi, gnomonic
// declination D, stylus zenithal distance z and stylus length a. The constructor computes the
// polar-stylus factor P and the center; compute_hour_lines intersects the 24 hour lines with the seven
// declination curves of the Sun.
//
// Python's sin, cos and tan, and the value of pi, are the `Trig` record of Units; radians(x) is
// DegToRad.

module Sundials {
  import opened Units
  import opened Util
  import opened PyText

  /** A point of the sundial plane. */
  datatype Point = Point(x: real, y: real)

  /** One entry of an hour line's dict: a declination and its point, in insertion order. */
  datatype Entry = Entry(decl: real, p: Point)

  /** An hour line: the dict from declination to point, which keeps its insertion order. */
  type HourLine = seq<Entry>

  /** The declinations of the Sun drawn on the sundial, in degrees: solstices, equinox and four more. */
  const Declinations: seq<real> := [-23.44, -20.15, -11.47, 0.0, 11.47, 20.15, 23.44]

  lemma DeclinationsIncreasing()
    ensures |Declinations| == 7
    ensures forall i, j :: 0 <= i < j < |Declinations| ==> Declinations[i] < Declinations[j]
  {
  }

  /** sin, cos and tan of an angle in degrees, as sin(radians(x)) and so on. */
  function SinOf(t: Trig, x: real): real
    requires t.pi > 0.0
  {
    Sin(t, DegToRad(t, x))
  }

  function CosOf(t: Trig, x: real): real
    requires t.pi > 0.0
  {
    Cos(t, DegToRad(t, x))
  }

  function TanOf(t: Trig, x: real): real
    requires t.pi > 0.0
  {
    Tan(t, DegToRad(t, x))
  }

  /** P = sin phi cos z - cos phi sin z cos D. */
  function Polar(t: Trig, phi: real, D: real, z: real): real
    requires t.pi > 0.0
  {
    SinOf(t, phi) * CosOf(t, z) - CosOf(t, phi) * SinOf(t, z) * CosOf(t, D)
  }

  /**
   * The center of the sundial, where the polar stylus meets the plane: (a cos phi sin D / P,
   * -a (sin phi sin z + cos phi cos z cos D) / P), or (0, 0) when P is zero and the division raises
   * ZeroDivisionError.
   */
  function Center(t: Trig, phi: real, D: real, z: real, a: real): (c: Point)
    requires t.pi > 0.0
    ensures Polar(t, phi, D, z) == 0.0 ==> c == Point(0.0, 0.0)
    ensures Polar(t, phi, D, z) != 0.0 ==>
      Polar(t, phi, D, z) * c.x == a * CosOf(t, phi) * SinOf(t, D)
      && Polar(t, phi, D, z) * c.y
         == -a * (SinOf(t, phi) * SinOf(t, z) + CosOf(t, phi) * CosOf(t, z) * CosOf(t, D))
  {
    var P := Polar(t, phi, D, z);
    if P == 0.0 then Point(0.0, 0.0)
    else
      Point(a * CosOf(t, phi) * SinOf(t, D) / P,
            -a * (SinOf(t, phi) * SinOf(t, z) + CosOf(t, phi) * CosOf(t, z) * CosOf(t, D)) / P)
  }

  /** The parameters compute_hour_lines reads: the four angles, the stylus length and P. */
  datatype Dial = Dial(phi: real, D: real, z: real, a: real, l: real, P: real)

  /** H_r in degrees: 15 H + fmod(l, 15), the hour angle of hour H shifted by the longitude. */
  function HourAngle(H: int, l: real): real
  {
    H as real * 15.0 + Fmod(l, 15.0)
  }

  /** Q: positive when the Sun lights the plane at hour angle h and declination delta. */
  function Q(t: Trig, d: Dial, h: real, delta: real): real
    requires t.pi > 0.0
  {
    SinOf(t, d.D) * SinOf(t, d.z) * SinOf(t, h)
    + (CosOf(t, d.phi) * CosOf(t, d.z) + SinOf(t, d.phi) * SinOf(t, d.z) * CosOf(t, d.D)) * CosOf(t, h)
    + d.P * TanOf(t, delta)
  }

  /** Nx, the numerator of the x coordinate. */
  function Nx(t: Trig, d: Dial, h: real, delta: real): real
    requires t.pi > 0.0
  {
    CosOf(t, d.D) * SinOf(t, h) - SinOf(t, d.D) * (SinOf(t, d.phi) * CosOf(t, h) - CosOf(t, d.phi) * TanOf(t, delta))
  }

  /** Ny, the numerator of the y coordinate. */
  function Ny(t: Trig, d: Dial, h: real, delta: real): real
    requires t.pi > 0.0
  {
    CosOf(t, d.z) * SinOf(t, d.D) * SinOf(t, h)
    - (CosOf(t, d.phi) * SinOf(t, d.z) - SinOf(t, d.phi) * CosOf(t, d.z) * CosOf(t, d.D)) * CosOf(t, h)
    - (SinOf(t, d.phi) * SinOf(t, d.z) + CosOf(t, d.phi) * CosOf(t, d.z) * CosOf(t, d.D)) * TanOf(t, delta)
  }

  /** x^2 + y^2. */
  function Modulus(p: Point): real
  {
    p.x * p.x + p.y * p.y
  }

  /**
   * What one declination gives on one hour line: no light (Q < 0), a division by zero (Q = 0 raises
   * ZeroDivisionError), a point beyond 30 stylus lengths, or a point that is kept.
   */
  datatype Sample = Dark | Undefined | Far(p: Point) | Lit(p: Point)

  /** The sample for given Q, Nx and Ny: the point (a Nx / Q, a Ny / Q) when Q is positive. */
  function Project(a: real, q: real, nx: real, ny: real): (s: Sample)
    ensures s.Dark? <==> q < 0.0
    ensures s.Undefined? <==> q == 0.0
    ensures (s.Far? || s.Lit?) ==> s.p.x * q == a * nx && s.p.y * q == a * ny
    ensures s.Lit? ==> Modulus(s.p) < 900.0 * a * a
    ensures s.Far? ==> Modulus(s.p) >= 900.0 * a * a
  {
    if q < 0.0 then Dark
    else if q == 0.0 then Undefined
    else
      var p := Point(a * nx / q, a * ny / q);
      if Modulus(p) < 900.0 * a * a then Lit(p) else Far(p)
  }

  /** One round of the inner loop of compute_hour_lines, at hour angle h and declination delta. */
  function SampleAt(t: Trig, d: Dial, h: real, delta: real): Sample
    requires t.pi > 0.0
  {
    Project(d.a, Q(t, d, h, delta), Nx(t, d, h, delta), Ny(t, d, h, delta))
  }

  /**
   * The dict of the hour line at hour angle h after the first k declinations: the lit points in
   * declination order, or None once a division by zero has raised.
   */
  function LineUpTo(t: Trig, d: Dial, h: real, k: nat): Option<HourLine>
    requires t.pi > 0.0 && k <= |Declinations|
  {
    if k == 0 then Some([])
    else
      match LineUpTo(t, d, h, k - 1)
      case None => None
      case Some(line) =>
        match SampleAt(t, d, h, Declinations[k - 1])
        case Undefined => None
        case Lit(p) => Some(line + [Entry(Declinations[k - 1], p)])
        case _ => Some(line)
  }

  /** Once a division by zero has raised, the rest of the declinations change nothing. */
  lemma {:induction false} LineStaysNone(t: Trig, d: Dial, h: real, k: nat, m: nat)
    requires t.pi > 0.0 && k <= m <= |Declinations| && LineUpTo(t, d, h, k).None?
    ensures LineUpTo(t, d, h, m).None?
    decreases m - k
  {
    if k < m {
      LineStaysNone(t, d, h, k, m - 1);
    }
  }

  /** The dict of the hour line at hour angle h, over all seven declinations. */
  function LineAt(t: Trig, d: Dial, h: real): Option<HourLine>
    requires t.pi > 0.0
  {
    LineUpTo(t, d, h, |Declinations|)
  }

  /** An hour line is missing exactly when one of the first k declinations divides by zero. */
  lemma {:induction false} LineUpToRaises(t: Trig, d: Dial, h: real, k: nat)
    requires t.pi > 0.0 && k <= |Declinations|
    ensures LineUpTo(t, d, h, k).None? <==> exists j :: 0 <= j < k && SampleAt(t, d, h, Declinations[j]).Undefined?
  {
    if k > 0 {
      LineUpToRaises(t, d, h, k - 1);
    }
  }

  /** Every entry of an hour line is a lit declination among the first k, with its point. */
  lemma {:induction false} LineUpToSound(t: Trig, d: Dial, h: real, k: nat)
    requires t.pi > 0.0 && k <= |Declinations| && LineUpTo(t, d, h, k).Some?
    ensures var line := LineUpTo(t, d, h, k).value;
      forall i :: 0 <= i < |line| ==>
        line[i].decl in Declinations[..k] && SampleAt(t, d, h, line[i].decl) == Lit(line[i].p)
  {
    if k > 0 {
      LineUpToSound(t, d, h, k - 1);
      assert Declinations[..k] == Declinations[..k - 1] + [Declinations[k - 1]];
    }
  }

  /** Every lit declination among the first k has its entry, with its point. */
  lemma {:induction false} LineUpToComplete(t: Trig, d: Dial, h: real, k: nat)
    requires t.pi > 0.0 && k <= |Declinations| && LineUpTo(t, d, h, k).Some?
    ensures var line := LineUpTo(t, d, h, k).value;
      forall j :: 0 <= j < k && SampleAt(t, d, h, Declinations[j]).Lit? ==>
        Entry(Declinations[j], SampleAt(t, d, h, Declinations[j]).p) in line
  {
    if k > 0 {
      LineUpToComplete(t, d, h, k - 1);
    }
  }

  /** The entries of an hour line come in increasing order of declination. */
  lemma {:induction false} LineUpToSorted(t: Trig, d: Dial, h: real, k: nat)
    requires t.pi > 0.0 && k <= |Declinations| && LineUpTo(t, d, h, k).Some?
    ensures var line := LineUpTo(t, d, h, k).value;
      forall i, i' :: 0 <= i < i' < |line| ==> line[i].decl < line[i'].decl
  {
    if k > 0 {
      LineUpToSorted(t, d, h, k - 1);
      var line := LineUpTo(t, d, h, k - 1).value;
      var s := SampleAt(t, d, h, Declinations[k - 1]);
      if s.Lit? {
        LineUpToSound(t, d, h, k - 1);
        DeclinationsIncreasing();
        forall i | 0 <= i < |line|
          ensures line[i].decl < Declinations[k - 1]
        {
          var j :| 0 <= j < k - 1 && Declinations[..k - 1][j] == line[i].decl;
        }
      }
    }
  }

  /** The hour lines after the first n hours, and whether a division by zero has ended the loop. */
  datatype Computed = Computed(lines: seq<HourLine>, raised: bool)

  function HourLinesUpTo(t: Trig, d: Dial, n: nat): Computed
    requires t.pi > 0.0
  {
    if n == 0 then Computed([], false)
    else
      var c := HourLinesUpTo(t, d, n - 1);
      if c.raised then c
      else
        match LineAt(t, d, HourAngle(n - 1 - 12, d.l))
        case None => Computed(c.lines, true)
        case Some(line) => Computed(c.lines + [line], false)
  }

  /** Once raised, the loop is over: later hours change nothing. */
  lemma {:induction false} RaisedStays(t: Trig, d: Dial, n: nat, m: nat)
    requires t.pi > 0.0 && n <= m && HourLinesUpTo(t, d, n).raised
    ensures HourLinesUpTo(t, d, m) == HourLinesUpTo(t, d, n)
    decreases m - n
  {
    if n < m {
      RaisedStays(t, d, n, m - 1);
    }
  }

  /**
   * Hour line i belongs to H = i - 12, at hour angle 15 H + fmod(l, 15); all n are there unless a
   * division by zero raised first.
   */
  lemma {:induction false} HourLinesOrdered(t: Trig, d: Dial, n: nat)
    requires t.pi > 0.0
    ensures |HourLinesUpTo(t, d, n).lines| <= n
    ensures !HourLinesUpTo(t, d, n).raised <==> |HourLinesUpTo(t, d, n).lines| == n
    ensures forall i :: 0 <= i < |HourLinesUpTo(t, d, n).lines| ==>
      LineAt(t, d, HourAngle(i - 12, d.l)) == Some(HourLinesUpTo(t, d, n).lines[i])
  {
    if n > 0 {
      HourLinesOrdered(t, d, n - 1);
    }
  }

  /** The hour lines that compute_hour_lines leaves: 24 of them, for H = -12 .. 11, or fewer if it raised. */
  lemma TwentyFourHourLines(t: Trig, d: Dial)
    requires t.pi > 0.0
    ensures !HourLinesUpTo(t, d, 24).raised ==> |HourLinesUpTo(t, d, 24).lines| == 24
    ensures HourLinesUpTo(t, d, 24).raised ==> |HourLinesUpTo(t, d, 24).lines| < 24
  {
    HourLinesOrdered(t, d, 24);
  }

  /** Every stored point lies within 30 stylus lengths of the origin, and Q was positive there. */
  lemma StoredPointsInside(t: Trig, d: Dial, H: int, i: nat)
    requires t.pi > 0.0
    requires LineAt(t, d, HourAngle(H, d.l)).Some? && i < |LineAt(t, d, HourAngle(H, d.l)).value|
    ensures var e := LineAt(t, d, HourAngle(H, d.l)).value[i];
      Modulus(e.p) < 900.0 * d.a * d.a && Q(t, d, HourAngle(H, d.l), e.decl) > 0.0
  {
    LineUpToSound(t, d, HourAngle(H, d.l), |Declinations|);
  }

  /** The sundial: its parameters, P, the center, and the hour lines once computed. */
  class Sundial {
    var phi: real
    var D: real
    var z: real
    var a: real
    var l: real
    var P: real
    var center: Point
    var hourLines: Option<seq<HourLine>>

    function Params(): Dial
      reads this
    {
      Dial(phi, D, z, a, l, P)
    }

    /** __init__: P and the center from the parameters; no hour lines yet. */
    constructor (t: Trig, phi: real, D: real, z: real, a: real, l: real)
      requires t.pi > 0.0
      ensures this.phi == phi && this.D == D && this.z == z && this.a == a && this.l == l
      ensures P == Polar(t, phi, D, z)
      ensures center == Center(t, phi, D, z, a)
      ensures hourLines == None
    {
      this.phi := phi;
      this.D := D;
      this.z := z;
      this.a := a;
      this.l := l;
      var phiR := DegToRad(t, phi);
      var dR := DegToRad(t, D);
      var zR := DegToRad(t, z);
      var p := Sin(t, phiR) * Cos(t, zR) - Cos(t, phiR) * Sin(t, zR) * Cos(t, dR);
      P := p;
      if p == 0.0 {
        center := Point(0.0, 0.0);
      } else {
        center := Point(a * Cos(t, phiR) * Sin(t, dR) / p,
                        -a * (Sin(t, phiR) * Sin(t, zR) + Cos(t, phiR) * Cos(t, zR) * Cos(t, dR)) / p);
      }
      hourLines := None;
    }

    /**
     * The body of the inner loop for one declination: nothing when Q < 0, ZeroDivisionError when
     * Q = 0, otherwise the point, kept when it lies within 30 stylus lengths.
     */
    static method Locate(a: real, q: real, nx: real, ny: real) returns (s: Sample)
      ensures s == Project(a, q, nx, ny)
    {
      if q < 0.0 {
        return Dark;
      }
      if q == 0.0 {
        return Undefined;
      }
      var p := Point(a * nx / q, a * ny / q);
      if Modulus(p) < 900.0 * a * a {
        return Lit(p);
      }
      return Far(p);
    }

    /** The inner loop of compute_hour_lines: the dict of one hour line, or a division by zero. */
    method HourLineAt(t: Trig, h: real) returns (line: HourLine, raised: bool)
      requires t.pi > 0.0
      ensures LineAt(t, Params(), h) == if raised then None else Some(line)
    {
      line := [];
      var k := 0;
      while k < |Declinations|
        invariant 0 <= k <= |Declinations|
        invariant LineUpTo(t, Params(), h, k) == Some(line)
      {
        var delta := Declinations[k];
        var dial := Params();
        var q := Q(t, dial, h, delta);
        var nx := Nx(t, dial, h, delta);
        var ny := Ny(t, dial, h, delta);
        assert SampleAt(t, dial, h, delta) == Project(a, q, nx, ny);
        var sample := Locate(a, q, nx, ny);
        if sample.Undefined? {
          LineStaysNone(t, dial, h, k + 1, |Declinations|);
          return line, true;
        }
        if sample.Lit? {
          line := line + [Entry(delta, sample.p)];
        }
        k := k + 1;
      }
      return line, false;
    }

    /**
     * compute_hour_lines: one dict per hour H = -12 .. 11. A division by zero (Q = 0) raises out of
     * the method and leaves the lines appended so far; `raised` reports it.
     */
    method ComputeHourLines(t: Trig) returns (raised: bool)
      requires t.pi > 0.0
      modifies this
      ensures phi == old(phi) && D == old(D) && z == old(z) && a == old(a) && l == old(l)
      ensures P == old(P) && center == old(center)
      ensures hourLines == Some(HourLinesUpTo(t, Params(), 24).lines)
      ensures raised == HourLinesUpTo(t, Params(), 24).raised
    {
      hourLines := Some([]);
      var H := -12;
      while H < 12
        invariant -12 <= H <= 12
        invariant phi == old(phi) && D == old(D) && z == old(z) && a == old(a) && l == old(l)
        invariant P == old(P) && center == old(center)
        invariant hourLines.Some? && HourLinesUpTo(t, Params(), H + 12) == Computed(hourLines.value, false)
      {
        var line, failed := HourLineAt(t, HourAngle(H, l));
        if failed {
          RaisedStays(t, Params(), H + 13, 24);
          return true;
        }
        hourLines := Some(hourLines.value + [line]);
        H := H + 1;
      }
      return false;
    }
  }
}
