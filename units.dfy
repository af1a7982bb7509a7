/**
 * The declarations of meeus/C/include/meeus.h: the error codes, the planet
 * enumeration, the angle and time unit conversions, and the degree-based
 * trigonometric macros.
 *
 * Doubles are modelled as reals. The C math library (sin, cos, tan, atan2,
 * asin, sqrt) and the constant M_PI are not part of this model: they are
 * passed in as a `Trig` record and all that is known of them is `ValidTrig`.
 */
module Units {

  /** m_err_t: M_NO_ERR is 0, M_INVALID_RANGE_ERR follows it. */
  datatype MErr = NoErr | InvalidRange

  /** The numeric value of an m_err_t enumerator. */
  function ErrCode(e: MErr): (c: nat)
    ensures c == 0 <==> e == NoErr
    ensures e == InvalidRange ==> c == 1
  {
    match e
    case NoErr => 0
    case InvalidRange => 1
  }

  /**
   * A C function that returns an m_err_t and writes its result through an
   * out-parameter: either the value was written, or an error came back and
   * the out-parameter was left alone.
   */
  datatype Result<T> = Ok(value: T) | Fail(error: MErr)

  /** enum planet_e, MERCURY = 0 through NEPTUNE = 7. */
  datatype Planet = Mercury | Venus | Earth | Mars | Jupiter | Saturn | Uranus | Neptune

  function PlanetIndex(p: Planet): (i: nat)
    ensures i < 8
    ensures PlanetOfIndex(i) == p
  {
    match p
    case Mercury => 0
    case Venus => 1
    case Earth => 2
    case Mars => 3
    case Jupiter => 4
    case Saturn => 5
    case Uranus => 6
    case Neptune => 7
  }

  function PlanetOfIndex(i: nat): (p: Planet)
    requires i < 8
  {
    if i == 0 then Mercury
    else if i == 1 then Venus
    else if i == 2 then Earth
    else if i == 3 then Mars
    else if i == 4 then Jupiter
    else if i == 5 then Saturn
    else if i == 6 then Uranus
    else Neptune
  }

  /** The enumerators are numbered consecutively from 0, so every index below 8 names one planet. */
  lemma PlanetIndexOnto(i: nat)
    requires i < 8
    ensures PlanetIndex(PlanetOfIndex(i)) == i
  {
  }

  /** The C math library and M_PI, as seen by this model. */
  datatype Trig = Trig(
    pi: real,
    sin: real -> real,
    cos: real -> real,
    tan: real -> real,
    atan2: (real, real) -> real,
    asin: real -> real,
    sqrt: real -> real)

  function Negate(x: real): real { -x }

  /** What the model relies on about the math library. */
  ghost predicate ValidTrig(t: Trig) {
    BoundedTrig(t)
    && Cos(t, 0.0) == 1.0
    && (forall x :: Sin(t, Negate(x)) == -Sin(t, x))
    && (forall x :: Cos(t, Negate(x)) == Cos(t, x))
    && (forall x :: Tan(t, Negate(x)) == -Tan(t, x))
    && (forall x :: Asin(t, Negate(x)) == -Asin(t, x))
    && (forall x :: x >= 0.0 ==> Sqrt(t, x) >= 0.0 && Sqrt(t, x) * Sqrt(t, x) == x)
  }

  /** A positive pi, and sine and cosine within [-1, 1]: all that the bounds on the series need. */
  ghost predicate BoundedTrig(t: Trig) {
    t.pi > 0.0 && (forall x :: -1.0 <= Sin(t, x) <= 1.0) && (forall x :: -1.0 <= Cos(t, x) <= 1.0)
  }

  /** rad_to_deg */
  function RadToDeg(t: Trig, x: real): (d: real)
    requires t.pi > 0.0
    ensures DegToRad(t, d) == x
  {
    x * 180.0 / t.pi
  }

  lemma RadToDegOdd(t: Trig, x: real)
    requires t.pi > 0.0
    ensures RadToDeg(t, -x) == -RadToDeg(t, x)
  {
  }

  /** deg_to_rad */
  function DegToRad(t: Trig, x: real): (r: real)
    requires t.pi > 0.0
  {
    x * t.pi / 180.0
  }

  lemma DegToRadInverse(t: Trig, d: real)
    requires t.pi > 0.0
    ensures RadToDeg(t, DegToRad(t, d)) == d
  {
  }

  /** The radian argument that sind, cosd and tand pass on: (x)/180.0*M_PI. */
  function DegArg(t: Trig, x: real): real
  {
    x / 180.0 * t.pi
  }

  /** sind, cosd, tand: the functions of an angle given in degrees. */
  function Sind(t: Trig, x: real): real
  {
    Sin(t, DegArg(t, x))
  }

  function Cosd(t: Trig, x: real): real
  {
    Cos(t, DegArg(t, x))
  }

  function Tand(t: Trig, x: real): real
  {
    Tan(t, DegArg(t, x))
  }

  /** sin, cos, tan, atan2 and asin of the math library, in radians. */
  function Sin(t: Trig, x: real): real
  {
    t.sin(x)
  }

  function Cos(t: Trig, x: real): real
  {
    t.cos(x)
  }

  function Tan(t: Trig, x: real): real
  {
    t.tan(x)
  }

  function Atan2(t: Trig, y: real, x: real): real
  {
    t.atan2(y, x)
  }

  function Asin(t: Trig, x: real): real
  {
    t.asin(x)
  }

  function Sqrt(t: Trig, x: real): real
  {
    t.sqrt(x)
  }

  lemma AsinOdd(t: Trig, x: real)
    requires ValidTrig(t)
    ensures Asin(t, -x) == -Asin(t, x)
  {
    assert -x == Negate(x);
  }

  /** The macros' argument is deg_to_rad of the angle. */
  lemma DegArgIsDegToRad(t: Trig, x: real)
    requires t.pi > 0.0
    ensures DegArg(t, x) == DegToRad(t, x)
  {
  }

  /** sind and tand are odd and cosd is even, because sin, tan and cos are. */
  lemma SindOddCosdEven(t: Trig, x: real)
    requires ValidTrig(t)
    ensures Sind(t, -x) == -Sind(t, x)
    ensures Cosd(t, -x) == Cosd(t, x)
    ensures Tand(t, -x) == -Tand(t, x)
  {
    assert DegArg(t, -x) == Negate(DegArg(t, x));
  }

  /** sind 0 = tand 0 = 0 and cosd 0 = 1. */
  lemma TrigAtZero(t: Trig)
    requires ValidTrig(t)
    ensures Sind(t, 0.0) == 0.0 && Cosd(t, 0.0) == 1.0 && Tand(t, 0.0) == 0.0
  {
    SindOddCosdEven(t, 0.0);
    assert DegArg(t, 0.0) == 0.0;
  }

  lemma SindCosdBounded(t: Trig, x: real)
    requires BoundedTrig(t)
    ensures -1.0 <= Sind(t, x) <= 1.0 && -1.0 <= Cosd(t, x) <= 1.0
  {
  }

  /** hms_to_s: hours, minutes and seconds to seconds. */
  function HmsToS(h: real, m: real, s: real): real
  {
    h * 3600.0 + m * 60.0 + s
  }

  /** hms_to_d: hours, minutes and seconds (of time) to degrees. */
  function HmsToD(h: real, m: real, s: real): (d: real)
    ensures d == SToDeg(HmsToS(h, m, s))
  {
    (h * 3600.0 + m * 60.0 + s) / 240.0
  }

  /** dms_to_d: degrees, minutes and seconds of arc to degrees. */
  function DmsToD(d: real, m: real, s: real): real
  {
    d + m / 60.0 + s / 3600.0
  }

  /** dms_to_arcsec: degrees, minutes and seconds of arc to seconds of arc. */
  function DmsToArcsec(d: real, m: real, s: real): (a: real)
    ensures a == 3600.0 * DmsToD(d, m, s)
  {
    d * 3600.0 + m * 60.0 + s
  }

  /** deg_to_arcsec */
  function DegToArcsec(d: real): real
  {
    d * 3600.0
  }

  /** arcsec_to_deg */
  function ArcsecToDeg(a: real): (d: real)
    ensures DegToArcsec(d) == a
  {
    a / 3600.0
  }

  /** deg_to_s: one degree of rotation is 240 seconds of time. */
  function DegToS(d: real): real
  {
    d * 240.0
  }

  /** s_to_deg */
  function SToDeg(s: real): (d: real)
    ensures DegToS(d) == s
  {
    s / 240.0
  }

  /** arcsec_to_s */
  function ArcsecToS(a: real): (s: real)
    ensures SToArcsec(s) == a
    ensures s == DegToS(ArcsecToDeg(a))
  {
    a / 15.0
  }

  /** s_to_arcsec */
  function SToArcsec(s: real): real
  {
    s * 15.0
  }

  /** The conversions in the opposite direction undo the ones above. */
  lemma ConversionsInvert(x: real)
    ensures SToDeg(DegToS(x)) == x
    ensures ArcsecToDeg(DegToArcsec(x)) == x
    ensures ArcsecToS(SToArcsec(x)) == x
    ensures DegToS(1.0) == 240.0
  {
  }
}
