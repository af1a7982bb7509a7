// Transformations between equatorial, ecliptical and horizontal coordinates, and the local hour angle
// (meeus/C/lib/coordinates.c). All angles are in degrees; atan2 and asin return radians, which
// rad_to_deg converts back.

module Coordinates {
  import opened Units
  import opened Util
  import opened Dynamical
  import opened Sidereal

  /** A pair of angles written through two out-parameters. */
  datatype Angles = Angles(first: real, second: real)

  /** The atan2 and asin arguments of coo_equ_to_ecl. */
  function EquLonArg(t: Trig, alpha: real, delta: real, epsilon: real): real
  {
    Sind(t, alpha) * Cosd(t, epsilon) + Tand(t, delta) * Sind(t, epsilon)
  }

  function EquLatArg(t: Trig, alpha: real, delta: real, epsilon: real): real
  {
    Sind(t, delta) * Cosd(t, epsilon) - Cosd(t, delta) * Sind(t, epsilon) * Sind(t, alpha)
  }

  /** coo_equ_to_ecl: right ascension and declination to ecliptical longitude and latitude. */
  function EquToEcl(t: Trig, alpha: real, delta: real, epsilon: real): Angles
    requires t.pi > 0.0
  {
    Angles(RadToDeg(t, Atan2(t, EquLonArg(t, alpha, delta, epsilon), Cosd(t, alpha))),
      RadToDeg(t, Asin(t, EquLatArg(t, alpha, delta, epsilon))))
  }

  /** The atan2 and asin arguments of coo_ecl_to_equ. */
  function EclLonArg(t: Trig, lambda: real, beta: real, epsilon: real): real
  {
    Sind(t, lambda) * Cosd(t, epsilon) - Tand(t, beta) * Sind(t, epsilon)
  }

  function EclLatArg(t: Trig, lambda: real, beta: real, epsilon: real): real
  {
    Sind(t, beta) * Cosd(t, epsilon) + Cosd(t, beta) * Sind(t, epsilon) * Sind(t, lambda)
  }

  /** coo_ecl_to_equ: ecliptical longitude and latitude to right ascension and declination. */
  function EclToEqu(t: Trig, lambda: real, beta: real, epsilon: real): Angles
    requires t.pi > 0.0
  {
    Angles(RadToDeg(t, Atan2(t, EclLonArg(t, lambda, beta, epsilon), Cosd(t, lambda))),
      RadToDeg(t, Asin(t, EclLatArg(t, lambda, beta, epsilon))))
  }

  /**
   * The two ecliptic/equatorial transforms are one rotation about the equinox direction, by epsilon
   * one way and by -epsilon the other: ecl_to_equ is equ_to_ecl with the obliquity negated.
   */
  lemma EclToEquIsNegatedRotation(t: Trig, x: real, y: real, epsilon: real)
    requires ValidTrig(t)
    ensures EclToEqu(t, x, y, epsilon) == EquToEcl(t, x, y, -epsilon)
    ensures EquToEcl(t, x, y, epsilon) == EclToEqu(t, x, y, -epsilon)
  {
    SindOddCosdEven(t, epsilon);
    Rotations(t, x, y, epsilon);
  }

  lemma Rotations(t: Trig, x: real, y: real, epsilon: real)
    requires t.pi > 0.0 && Sind(t, -epsilon) == -Sind(t, epsilon) && Cosd(t, -epsilon) == Cosd(t, epsilon)
    ensures EclToEqu(t, x, y, epsilon) == EquToEcl(t, x, y, -epsilon)
    ensures EquToEcl(t, x, y, epsilon) == EclToEqu(t, x, y, -epsilon)
  {
    RotationArgs(t, x, y, epsilon);
  }

  lemma RotationArgs(t: Trig, x: real, y: real, epsilon: real)
    requires Sind(t, -epsilon) == -Sind(t, epsilon) && Cosd(t, -epsilon) == Cosd(t, epsilon)
    ensures EquLonArg(t, x, y, -epsilon) == EclLonArg(t, x, y, epsilon)
    ensures EquLatArg(t, x, y, -epsilon) == EclLatArg(t, x, y, epsilon)
    ensures EclLonArg(t, x, y, -epsilon) == EquLonArg(t, x, y, epsilon)
    ensures EclLatArg(t, x, y, -epsilon) == EquLatArg(t, x, y, epsilon)
  {
  }

  /** The atan2 and asin arguments of coo_ecl_to_hor. */
  function AzimuthArg(t: Trig, H: real, delta: real, phi: real): real
  {
    Cosd(t, H) * Sind(t, phi) - Tand(t, delta) * Cosd(t, phi)
  }

  function AltitudeArg(t: Trig, H: real, delta: real, phi: real): real
  {
    Sind(t, phi) * Sind(t, delta) + Cosd(t, phi) * Cosd(t, delta) * Cosd(t, H)
  }

  /** coo_ecl_to_hor: hour angle and declination to azimuth (from the south) and altitude. */
  function EclToHor(t: Trig, H: real, delta: real, phi: real): Angles
    requires t.pi > 0.0
  {
    Angles(RadToDeg(t, Atan2(t, Sind(t, H), AzimuthArg(t, H, delta, phi))),
      RadToDeg(t, Asin(t, AltitudeArg(t, H, delta, phi))))
  }

  /** The atan2 and asin arguments of coo_hor_to_ecl. */
  function HourAngleArg(t: Trig, A: real, h: real, phi: real): real
  {
    Cosd(t, A) * Sind(t, phi) + Tand(t, h) * Cosd(t, phi)
  }

  function DeclinationArg(t: Trig, A: real, h: real, phi: real): real
  {
    Sind(t, phi) * Sind(t, h) - Cosd(t, phi) * Cosd(t, h) * Cosd(t, A)
  }

  /** coo_hor_to_ecl: azimuth and altitude to hour angle and declination. */
  function HorToEcl(t: Trig, A: real, h: real, phi: real): Angles
    requires t.pi > 0.0
  {
    Angles(RadToDeg(t, Atan2(t, Sind(t, A), HourAngleArg(t, A, h, phi))),
      RadToDeg(t, Asin(t, DeclinationArg(t, A, h, phi))))
  }

  /**
   * The horizontal transforms mirror each other: hor_to_ecl(A, h) is ecl_to_hor(A, -h) with the
   * second angle negated, because tand and asin are odd and cosd is even.
   */
  lemma HorToEclMirrorsEclToHor(t: Trig, A: real, h: real, phi: real)
    requires ValidTrig(t)
    ensures HorToEcl(t, A, h, phi).first == EclToHor(t, A, -h, phi).first
    ensures HorToEcl(t, A, h, phi).second == -EclToHor(t, A, -h, phi).second
  {
    SindOddCosdEven(t, h);
    AsinOdd(t, AltitudeArg(t, A, -h, phi));
    Mirror(t, A, h, phi);
  }

  lemma Mirror(t: Trig, A: real, h: real, phi: real)
    requires t.pi > 0.0 && Sind(t, -h) == -Sind(t, h) && Cosd(t, -h) == Cosd(t, h) && Tand(t, -h) == -Tand(t, h)
    requires Asin(t, -AltitudeArg(t, A, -h, phi)) == -Asin(t, AltitudeArg(t, A, -h, phi))
    ensures HorToEcl(t, A, h, phi).first == EclToHor(t, A, -h, phi).first
    ensures HorToEcl(t, A, h, phi).second == -EclToHor(t, A, -h, phi).second
  {
    MirrorArgs(t, A, h, phi);
    RadToDegOdd(t, Asin(t, AltitudeArg(t, A, -h, phi)));
  }

  lemma MirrorArgs(t: Trig, A: real, h: real, phi: real)
    requires Sind(t, -h) == -Sind(t, h) && Cosd(t, -h) == Cosd(t, h) && Tand(t, -h) == -Tand(t, h)
    ensures HourAngleArg(t, A, h, phi) == AzimuthArg(t, A, -h, phi)
    ensures DeclinationArg(t, A, h, phi) == -AltitudeArg(t, A, -h, phi)
  {
  }

  /** The reduction of coo_get_local_hour_angle: rerange(s_to_deg(sid_t) - L - alpha, 360). */
  function HourAngleOf(sidT: real, L: real, alpha: real): (H: real)
    ensures 0.0 <= H < 360.0
  {
    Rerange(SToDeg(sidT) - L - alpha, 360.0)
  }

  /**
   * coo_get_local_hour_angle: the hour angle at longitude L (positive west) of right ascension alpha,
   * from the apparent sidereal time when isApparent and the mean sidereal time otherwise. The apparent
   * time needs the dynamical time of jd, so that branch requires jd >= 0. A sidereal-time error is
   * passed on and no angle is written.
   */
  function LocalHourAngle(t: Trig, jd: real, L: real, alpha: real, isApparent: bool): (r: Result<real>)
    requires isApparent ==> jd >= 0.0
    ensures r.Ok? ==> 0.0 <= r.value < 360.0
    ensures !isApparent ==> r == Ok(HourAngleOf(MeanGwSidTime(jd).value, L, alpha))
    ensures isApparent ==> (r.Fail? <==> Abs(Century(UtToDt(jd))) > 100.0)
    ensures isApparent && r.Fail? ==> r.error == InvalidRange
    ensures isApparent && r.Ok? ==> r.value == HourAngleOf(ApparentGwSidTime(t, jd).value, L, alpha)
  {
    if isApparent then
      match ApparentGwSidTime(t, jd)
      case Fail(e) => Fail(e)
      case Ok(sidT) => Ok(HourAngleOf(sidT, L, alpha))
    else
      match MeanGwSidTime(jd)
      case Fail(e) => Fail(e)
      case Ok(sidT) => Ok(HourAngleOf(sidT, L, alpha))
  }

  /** Moving the observer or the body by whole turns leaves the hour angle unchanged. */
  lemma HourAnglePeriodic(sidT: real, L: real, alpha: real, k: int, m: int)
    ensures HourAngleOf(sidT, L + k as real * 360.0, alpha + m as real * 360.0) == HourAngleOf(sidT, L, alpha)
  {
    var v := SToDeg(sidT) - L - alpha;
    assert SToDeg(sidT) - (L + k as real * 360.0) - (alpha + m as real * 360.0) == v + (-k - m) as real * 360.0;
    RerangePeriodic(v, 360.0, -k - m);
  }

  /** A full day of sidereal time (86400 s) is a full turn of hour angle. */
  lemma HourAngleDaily(sidT: real, L: real, alpha: real, n: int)
    ensures HourAngleOf(sidT + n as real * 86400.0, L, alpha) == HourAngleOf(sidT, L, alpha)
  {
    var v := SToDeg(sidT) - L - alpha;
    assert SToDeg(sidT + n as real * 86400.0) - L - alpha == v + n as real * 360.0;
    RerangePeriodic(v, 360.0, n);
  }
}
