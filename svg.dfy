// The geometry of sundial/svg.py: the pushing of a point onto the bounding circle, and the data
// get_svg prepares for its template from a sundial description: the pruned hour lines, the points,
// the bounding box, the furthest point of each hour line, the hour labels and the segments of each
// declination curve. The template, its rendering and the JSON and argument I/O are not part of it.

module SundialSvg {
  import opened Units
  import opened Util
  import opened PyText
  import opened Sundials

  // ---------------------------------------------------------------------
  // push_point
  // ---------------------------------------------------------------------

  /** revert_y: the point mirrored in the x axis, from the sundial's y-up frame to SVG's y-down one. */
  function Flip(p: Point): (q: Point)
    ensures q.x == p.x && q.y == -p.y
  {
    Point(p.x, -p.y)
  }

  /** math.dist((0, 0), p). */
  function Dist(t: Trig, p: Point): real
  {
    Sqrt(t, Modulus(p))
  }

  /** Mirroring keeps the distance to the origin. */
  lemma DistFlip(t: Trig, p: Point)
    ensures Dist(t, Flip(p)) == Dist(t, p)
  {
    assert Modulus(Flip(p)) == Modulus(p) by {
      assert (-p.y) * (-p.y) == p.y * p.y;
    }
  }

  /** math.copysign(m, s) for a real s: |m| with the sign of s (reals have no negative zero). */
  function CopySign(m: real, s: real): (r: real)
    ensures Abs(r) == Abs(m)
    ensures s >= 0.0 ==> r == Abs(m)
    ensures s < 0.0 ==> r == -Abs(m)
  {
    if s >= 0.0 then Abs(m) else -Abs(m)
  }

  /** 1 + dir_coef^2, the scale of the equation of the intersections; at least 1. */
  function Scale(m: real): (A: real)
    ensures A >= 1.0
  {
    SquareNonneg(m);
    1.0 + m * m
  }

  /** dir_coef, the slope of the line from center to point. */
  function Slope(point: Point, center: Point): real
    requires point.x != center.x
  {
    (point.y - center.y) / (point.x - center.x)
  }

  /** Where the line of slope m through c crosses the y axis. */
  function Intercept(c: Point, m: real): real
  {
    c.y - c.x * m
  }

  /** offset, where the line from center to point crosses the y axis. */
  function Offset(point: Point, center: Point): real
    requires point.x != center.x
  {
    Intercept(center, Slope(point, center))
  }

  /** r^2 (1 + m^2) - b^2, a quarter of the discriminant of x^2 + (m x + b)^2 = r^2. */
  function DeltaOf(m: real, b: real, r: real): real
  {
    r * r * Scale(m) - b * b
  }

  /** delta, for the line from center to point. */
  function Delta(point: Point, center: Point, radius: real): real
    requires point.x != center.x
  {
    DeltaOf(Slope(point, center), Offset(point, center), radius)
  }

  /** (-m b + s) / (1 + m^2): _x1 with s = -sqrt(delta), _x2 with s = sqrt(delta). */
  function RootX(m: real, b: real, s: real): real
  {
    (-m * b + s) / Scale(m)
  }

  /** The point of abscissa x on the line y = m x + b. */
  function OnLine(m: real, b: real, x: real): Point
  {
    Point(x, m * x + b)
  }

  /** The intersection that push_point returns: the one at x1 when x1 lies on the point's side of the center, else the one at x2. */
  function Chosen(px: real, cx: real, m: real, b: real, x1: real, x2: real): Point
  {
    if (px - cx) * (x1 - cx) >= 0.0 then OnLine(m, b, x1) else OnLine(m, b, x2)
  }

  /**
   * push_point: the point of the circle of radius `radius` around the origin in the direction
   * center -> point. A vertical direction gives (0, +-radius), signed like point.y; a negative delta
   * is the sys.exit(-1) of the source, None here.
   */
  function PushPoint(t: Trig, point: Point, center: Point, radius: real): (r: Option<Point>)
    ensures center.x == point.x ==> r == Some(Point(0.0, CopySign(radius, point.y)))
    ensures r.None? <==> center.x != point.x && Delta(point, center, radius) < 0.0
  {
    if center.x == point.x then Some(Point(0.0, CopySign(radius, point.y)))
    else if Delta(point, center, radius) < 0.0 then None
    else
      var m := Slope(point, center);
      var b := Offset(point, center);
      var s := Sqrt(t, Delta(point, center, radius));
      Some(Chosen(point.x, center.x, m, b, RootX(m, b, -s), RootX(m, b, s)))
  }

  /** s squared is d. */
  predicate Squares(s: real, d: real)
  {
    s * s == d
  }

  /** What push_point needs of sqrt: at delta, a non-negative square root. */
  predicate RootOf(t: Trig, delta: real)
  {
    Sqrt(t, delta) >= 0.0 && Squares(Sqrt(t, delta), delta)
  }

  /** x is a root of the scaled equation: (1 + m^2) x = -m b + s. */
  predicate IsRoot(x: real, m: real, b: real, s: real)
  {
    x * Scale(m) == -m * b + s
  }

  lemma RootScaled(m: real, b: real, s: real)
    ensures IsRoot(RootX(m, b, s), m, b, s)
  {
    DivMul(-m * b + s, Scale(m));
  }

  /** With s^2 = delta, the point of the line at (-m b + s) / (1 + m^2) lies on the circle of radius r. */
  lemma OnCircle(m: real, b: real, r: real, s: real)
    requires Squares(s, DeltaOf(m, b, r))
    ensures Modulus(OnLine(m, b, RootX(m, b, s))) == r * r
  {
    var A := Scale(m);
    var x := RootX(m, b, s);
    RootScaled(m, b, s);
    var u := x * A;
    assert u + m * b == s;
    assert A * (x * x + (m * x + b) * (m * x + b) - r * r) == u * u + 2.0 * m * b * u + A * b * b - A * r * r;
    assert A * (x * x + (m * x + b) * (m * x + b) - r * r) == 0.0;
  }

  /** Both intersections lie on the circle, so the chosen one does too. */
  lemma ChosenOnCircle(px: real, cx: real, m: real, b: real, r: real, s: real)
    requires Squares(s, DeltaOf(m, b, r))
    ensures Modulus(Chosen(px, cx, m, b, RootX(m, b, -s), RootX(m, b, s))) == r * r
  {
    OnCircle(m, b, r, s);
    assert (-s) * (-s) == s * s;
    OnCircle(m, b, r, -s);
  }

  /** (0, copysign(r, y)) lies on the circle of radius r. */
  lemma VerticalOnCircle(r: real, y: real)
    ensures Modulus(Point(0.0, CopySign(r, y))) == r * r
  {
    var c := CopySign(r, y);
    assert c == r || c == -r;
    assert (-r) * (-r) == r * r;
  }

  /** With a square root at delta, the result of push_point lies on the circle of radius `radius`. */
  lemma PushPointOnCircle(t: Trig, point: Point, center: Point, radius: real)
    requires point.x != center.x ==> RootOf(t, Delta(point, center, radius))
    requires PushPoint(t, point, center, radius).Some?
    ensures Modulus(PushPoint(t, point, center, radius).value) == radius * radius
  {
    if point.x == center.x {
      VerticalOnCircle(radius, point.y);
    } else {
      ChosenOnCircle(point.x, center.x, Slope(point, center), Offset(point, center), radius,
        Sqrt(t, Delta(point, center, radius)));
    }
  }

  /** q lies on the line through c and p. */
  predicate Collinear(q: Point, p: Point, c: Point)
  {
    (q.y - c.y) * (p.x - c.x) == (p.y - c.y) * (q.x - c.x)
  }

  /** m is the slope of the line through c and p. */
  predicate HasSlope(m: real, p: Point, c: Point)
  {
    m * (p.x - c.x) == p.y - c.y
  }

  lemma SlopeScaled(point: Point, center: Point)
    requires point.x != center.x
    ensures HasSlope(Slope(point, center), point, center)
  {
    DivMul(point.y - center.y, point.x - center.x);
  }

  /** Both intersections lie on the line through the center with the slope of the direction, so the chosen one does too. */
  lemma ChosenCollinear(p: Point, c: Point, m: real, x1: real, x2: real)
    requires HasSlope(m, p, c)
    ensures Collinear(Chosen(p.x, c.x, m, Intercept(c, m), x1, x2), p, c)
  {
    var q := Chosen(p.x, c.x, m, Intercept(c, m), x1, x2);
    assert q.y - c.y == m * (q.x - c.x);
    assert (m * (q.x - c.x)) * (p.x - c.x) == (m * (p.x - c.x)) * (q.x - c.x);
  }

  /** Off the vertical, the result lies on the line through center and point. */
  lemma PushPointCollinear(t: Trig, point: Point, center: Point, radius: real)
    requires point.x != center.x && PushPoint(t, point, center, radius).Some?
    ensures Collinear(PushPoint(t, point, center, radius).value, point, center)
  {
    var m := Slope(point, center);
    var s := Sqrt(t, Delta(point, center, radius));
    SlopeScaled(point, center);
    ChosenCollinear(point, center, m, RootX(m, Offset(point, center), -s), RootX(m, Offset(point, center), s));
  }

  /** (c.y - m c.x)^2 <= (1 + m^2)(c.x^2 + c.y^2): the Cauchy-Schwarz inequality for (1, -m) and (c.y, c.x). */
  lemma CauchySchwarz(m: real, c: Point)
    ensures Intercept(c, m) * Intercept(c, m) <= Scale(m) * Modulus(c)
  {
    var b := Intercept(c, m);
    assert Scale(m) * Modulus(c) - b * b == (c.x + m * c.y) * (c.x + m * c.y);
    SquareNonneg(c.x + m * c.y);
  }

  lemma SquareNonneg(x: real)
    ensures x * x >= 0.0
  {
    if x < 0.0 {
      ProductNonneg(-x, -x);
    } else {
      ProductNonneg(x, x);
    }
  }

  /** delta >= 0 when the center is inside the circle, whatever the slope: by Cauchy-Schwarz. */
  lemma DeltaNonneg(m: real, c: Point, r: real)
    requires Modulus(c) <= r * r
    ensures DeltaOf(m, Intercept(c, m), r) >= 0.0
  {
    var A := Scale(m);
    CauchySchwarz(m, c);
    ProductNonneg(A, r * r - Modulus(c));
    assert A * (r * r - Modulus(c)) == r * r * A - A * Modulus(c);
  }

  /** "Should never happen if radius is big enough": with the center inside the circle, push_point never exits. */
  lemma PushPointDefined(t: Trig, point: Point, center: Point, radius: real)
    requires Modulus(center) <= radius * radius
    ensures PushPoint(t, point, center, radius).Some?
  {
    if point.x != center.x {
      DeltaNonneg(Slope(point, center), center, radius);
    }
  }

  /** Outside the roots u1 <= u2 the product (v - u1)(v - u2) is positive. */
  lemma OutsideRoots(v: real, u1: real, u2: real)
    requires u1 <= u2 && (v < u1 || v > u2)
    ensures Gap(v, u1, u2) > 0.0
  {
    if v < u1 {
      var a, b := u1 - v, u2 - v;
      ProductPos(a, b);
      assert (v - u1) * (v - u2) == a * b;
    } else {
      var a, b := v - u1, v - u2;
      ProductPos(a, b);
      assert (v - u1) * (v - u2) == a * b;
    }
  }

  /** So the product is not positive only between the roots. */
  lemma BetweenRoots(v: real, u1: real, u2: real)
    requires u1 <= u2 && Gap(v, u1, u2) <= 0.0
    ensures u1 <= v <= u2
  {
    if v < u1 || v > u2 {
      OutsideRoots(v, u1, u2);
    }
  }

  lemma ScaledOrder(x: real, y: real, A: real)
    requires A > 0.0 && x * A <= y * A
    ensures x <= y
  {
    if x > y {
      ProductPos(x - y, A);
    }
  }

  /** (v - u1)(v - u2): the quadratic with roots u1 and u2, at v. */
  function Gap(v: real, u1: real, u2: real): real
  {
    (v - u1) * (v - u2)
  }

  /** With s^2 = delta, the scaled roots A x1 = -m b - s and A x2 = -m b + s have sum -2 m b and A x1 x2 = b^2 - r^2. */
  lemma ScaledRoots(m: real, b: real, r: real, s: real, x1: real, x2: real)
    requires Squares(s, DeltaOf(m, b, r))
    requires IsRoot(x1, m, b, -s) && IsRoot(x2, m, b, s)
    ensures x1 * Scale(m) + x2 * Scale(m) == -2.0 * m * b && (x1 * x2) * Scale(m) == b * b - r * r
  {
    var A := Scale(m);
    assert (x1 * A) * (x2 * A) == (-m * b + -s) * (-m * b + s);
    assert (-m * b + -s) * (-m * b + s) == m * m * b * b - s * s;
    assert m * m * b * b - s * s == (b * b - r * r) * A;
    assert (x1 * A) * (x2 * A) == ((x1 * x2) * A) * A;
    Cancel((x1 * x2) * A, b * b - r * r, A);
  }

  lemma Cancel(x: real, y: real, A: real)
    requires A > 0.0 && x * A == y * A
    ensures x == y
  {
    ScaledOrder(x, y, A);
    ScaledOrder(y, x, A);
  }

  /** A (x - x1)(x - x2) = A x^2 - (A x1 + A x2) x + A x1 x2. */
  lemma Factor(A: real, x1: real, x2: real, x: real)
    ensures Gap(x, x1, x2) * A == x * x * A - (x1 * A + x2 * A) * x + (x1 * x2) * A
  {
  }

  /**
   * With the sum and product of the scaled roots, A (x - x1)(x - x2) is the squared distance of the
   * point of the line at x minus r^2, so it is not positive inside the circle.
   */
  lemma QuadraticAt(m: real, b: real, r: real, s: real, x1: real, x2: real, x: real)
    requires Squares(s, DeltaOf(m, b, r)) && IsRoot(x1, m, b, -s) && IsRoot(x2, m, b, s)
    requires Modulus(OnLine(m, b, x)) <= r * r
    ensures Gap(x, x1, x2) * Scale(m) <= 0.0
  {
    ScaledRoots(m, b, r, s, x1, x2);
    Factor(Scale(m), x1, x2, x);
    LineModulus(m, b, x);
  }

  /** The squared distance to the origin along the line y = m x + b. */
  lemma LineModulus(m: real, b: real, x: real)
    ensures Modulus(OnLine(m, b, x)) == x * x * Scale(m) + 2.0 * m * b * x + b * b
  {
  }

  /** c lies on the line of slope m through c. */
  lemma OnOwnLine(c: Point, m: real)
    ensures OnLine(m, Intercept(c, m), c.x) == c
  {
  }

  lemma NonposFactor(g: real, A: real)
    requires A > 0.0 && g * A <= 0.0
    ensures g <= 0.0
  {
    if g > 0.0 {
      ProductPos(g, A);
    }
  }

  /**
   * At a point c of the line inside the circle the quadratic of the intersections is not positive:
   * A (c.x - x1)(c.x - x2) = |c|^2 - r^2.
   */
  lemma CenterGap(m: real, r: real, s: real, c: Point, x1: real, x2: real)
    requires Squares(s, DeltaOf(m, Intercept(c, m), r)) && Modulus(c) <= r * r
    requires IsRoot(x1, m, Intercept(c, m), -s) && IsRoot(x2, m, Intercept(c, m), s)
    ensures Gap(c.x, x1, x2) <= 0.0
  {
    OnOwnLine(c, m);
    QuadraticAt(m, Intercept(c, m), r, s, x1, x2, c.x);
    NonposFactor(Gap(c.x, x1, x2), Scale(m));
  }

  /** The roots bracket c.x when c lies on the line and inside the circle. */
  lemma RootsBracket(m: real, r: real, s: real, c: Point)
    requires s >= 0.0 && Squares(s, DeltaOf(m, Intercept(c, m), r))
    requires Modulus(c) <= r * r
    ensures RootX(m, Intercept(c, m), -s) <= c.x <= RootX(m, Intercept(c, m), s)
  {
    var A, b := Scale(m), Intercept(c, m);
    var x1, x2 := RootX(m, b, -s), RootX(m, b, s);
    RootScaled(m, b, -s);
    RootScaled(m, b, s);
    CenterGap(m, r, s, c, x1, x2);
    ScaledOrder(x1, x2, A);
    BetweenRoots(c.x, x1, x2);
  }

  /** q lies on the same side of c as p, along the x axis. */
  predicate SameSide(q: Point, p: Point, c: Point)
  {
    (p.x - c.x) * (q.x - c.x) >= 0.0
  }

  /** When the center lies between the roots, the chosen root lies on the point's side of it. */
  lemma ChosenSide(p: Point, c: Point, m: real, b: real, x1: real, x2: real)
    requires x1 <= c.x <= x2
    ensures SameSide(Chosen(p.x, c.x, m, b, x1, x2), p, c)
  {
    var px, cx := p.x, c.x;
    if (px - cx) * (x1 - cx) < 0.0 {
      assert px - cx > 0.0 by {
        if px - cx <= 0.0 {
          ProductNonneg(cx - px, cx - x1);
        }
      }
      ProductNonneg(px - cx, x2 - cx);
    }
  }

  /**
   * With the center inside the circle, the result lies on the point's side of the center: the
   * direction center -> point is kept.
   */
  lemma PushPointSide(t: Trig, point: Point, center: Point, radius: real)
    requires point.x != center.x && RootOf(t, Delta(point, center, radius))
    requires Modulus(center) <= radius * radius
    ensures PushPoint(t, point, center, radius).Some?
    ensures SameSide(PushPoint(t, point, center, radius).value, point, center)
  {
    PushPointDefined(t, point, center, radius);
    var m := Slope(point, center);
    var s := Sqrt(t, Delta(point, center, radius));
    RootsBracket(m, radius, s, center);
    ChosenSide(point, center, m, Offset(point, center), RootX(m, Offset(point, center), -s), RootX(m, Offset(point, center), s));
  }

  // ---------------------------------------------------------------------
  // get_svg: pruning the hour lines to the radius
  // ---------------------------------------------------------------------

  /** No declination occurs twice as a key of the dict. */
  predicate DistinctKeys(line: HourLine)
  {
    forall i, j :: 0 <= i < j < |line| ==> line[i].decl != line[j].decl
  }

  /** `k in line`: k is a key of the dict. */
  predicate HasKey(line: HourLine, k: real)
  {
    exists i :: 0 <= i < |line| && line[i].decl == k
  }

  /** The keys of the tail are keys of the line. */
  lemma TailKeys(line: HourLine, k: real)
    requires |line| > 0
    ensures HasKey(line[1..], k) ==> HasKey(line, k)
  {
    if HasKey(line[1..], k) {
      var i :| 0 <= i < |line[1..]| && line[1..][i].decl == k;
      assert line[i + 1].decl == k;
    }
  }

  /** With distinct keys the first key does not occur again. */
  lemma HeadKeyUnique(line: HourLine)
    requires |line| > 0 && DistinctKeys(line)
    ensures !HasKey(line[1..], line[0].decl)
  {
    forall i | 0 <= i < |line| - 1
      ensures line[1..][i].decl != line[0].decl
    {
      assert line[1..][i] == line[i + 1];
    }
  }

  /** dict.pop(k) on a dict holding k: the entry of key k is removed, the others keep their order. */
  function Pop(line: HourLine, k: real): (r: HourLine)
    requires HasKey(line, k)
    ensures |r| == |line| - 1
  {
    if line[0].decl == k then line[1..]
    else
      assert HasKey(line[1..], k) by {
        var i :| 0 <= i < |line| && line[i].decl == k;
        assert line[1..][i - 1].decl == k;
      }
      [line[0]] + Pop(line[1..], k)
  }

  /** The entries of the line whose key is not in ks, in their order. */
  function KeepUnless(line: HourLine, ks: seq<real>): (r: HourLine)
  {
    if |line| == 0 then []
    else (if line[0].decl in ks then [] else [line[0]]) + KeepUnless(line[1..], ks)
  }

  /** The entries at most r from the origin, in their order: what pruning leaves of an hour line. */
  function Inside(t: Trig, line: HourLine, r: real): HourLine
  {
    if |line| == 0 then []
    else (if Dist(t, line[0].p) > r then [] else [line[0]]) + Inside(t, line[1..], r)
  }

  /** _oob: the keys of the entries further than r, in their order. */
  function OobKeys(t: Trig, line: HourLine, r: real): seq<real>
  {
    if |line| == 0 then []
    else (if Dist(t, line[0].p) > r then [line[0].decl] else []) + OobKeys(t, line[1..], r)
  }

  lemma {:induction false} OobKeysSnoc(t: Trig, line: HourLine, e: Entry, r: real)
    ensures OobKeys(t, line + [e], r) == OobKeys(t, line, r) + (if Dist(t, e.p) > r then [e.decl] else [])
  {
    if |line| > 0 {
      assert (line + [e])[1..] == line[1..] + [e];
      OobKeysSnoc(t, line[1..], e, r);
    }
  }

  lemma {:induction false} KeepUnlessKeys(line: HourLine, ks: seq<real>, k: real)
    ensures HasKey(KeepUnless(line, ks), k) <==> HasKey(line, k) && k !in ks
  {
    if |line| > 0 {
      KeepUnlessKeys(line[1..], ks, k);
      var rest := KeepUnless(line[1..], ks);
      var head := if line[0].decl in ks then [] else [line[0]];
      if HasKey(line, k) && k !in ks {
        var i :| 0 <= i < |line| && line[i].decl == k;
        if i > 0 {
          assert line[1..][i - 1].decl == k;
          var j :| 0 <= j < |rest| && rest[j].decl == k;
          assert (head + rest)[|head| + j].decl == k;
        } else {
          assert (head + rest)[0].decl == k;
        }
      }
      if HasKey(KeepUnless(line, ks), k) {
        var i :| 0 <= i < |head + rest| && (head + rest)[i].decl == k;
        if i >= |head| {
          assert rest[i - |head|].decl == k;
          var j :| 0 <= j < |line[1..]| && line[1..][j].decl == k;
          assert line[j + 1].decl == k;
        } else {
          assert line[0].decl == k;
        }
      }
    }
  }

  lemma {:induction false} KeepUnlessDistinct(line: HourLine, ks: seq<real>)
    requires DistinctKeys(line)
    ensures DistinctKeys(KeepUnless(line, ks))
  {
    if |line| > 0 {
      KeepUnlessDistinct(line[1..], ks);
      var rest := KeepUnless(line[1..], ks);
      if line[0].decl !in ks {
        HeadKeyUnique(line);
        KeepUnlessKeys(line[1..], ks, line[0].decl);
      }
    }
  }

  /** Popping one more key k from what is kept: keeping what is in neither ks nor [k]. */
  lemma {:induction false} PopKeepUnless(line: HourLine, ks: seq<real>, k: real)
    requires DistinctKeys(line) && HasKey(KeepUnless(line, ks), k)
    ensures Pop(KeepUnless(line, ks), k) == KeepUnless(line, ks + [k])
  {
    KeepUnlessKeys(line, ks, k);
    var rest := KeepUnless(line[1..], ks);
    if line[0].decl == k {
      assert KeepUnless(line, ks) == [line[0]] + rest;
      KeepUnlessNone(line[1..], ks, k);
    } else {
      assert KeepUnless(line, ks + [k]) == (if line[0].decl in ks then [] else [line[0]]) + KeepUnless(line[1..], ks + [k]);
      KeepUnlessKeys(line[1..], ks, k);
      var i :| 0 <= i < |line| && line[i].decl == k;
      assert line[1..][i - 1].decl == k;
      PopKeepUnless(line[1..], ks, k);
      if line[0].decl in ks {
        assert KeepUnless(line, ks) == rest;
      } else {
        assert KeepUnless(line, ks) == [line[0]] + rest;
      }
    }
  }

  /** Two key lists that agree on the keys of the line keep the same entries. */
  lemma {:induction false} KeepUnlessSame(line: HourLine, ks1: seq<real>, ks2: seq<real>)
    requires forall i :: 0 <= i < |line| ==> (line[i].decl in ks1 <==> line[i].decl in ks2)
    ensures KeepUnless(line, ks1) == KeepUnless(line, ks2)
  {
    if |line| > 0 {
      assert line[0].decl in ks1 <==> line[0].decl in ks2;
      forall i | 0 <= i < |line[1..]|
        ensures line[1..][i].decl in ks1 <==> line[1..][i].decl in ks2
      {
        assert line[1..][i] == line[i + 1];
      }
      KeepUnlessSame(line[1..], ks1, ks2);
    }
  }

  /** Adding a key the line does not hold to ks keeps the same entries. */
  lemma KeepUnlessNone(line: HourLine, ks: seq<real>, k: real)
    requires !HasKey(line, k)
    ensures KeepUnless(line, ks + [k]) == KeepUnless(line, ks)
  {
    forall i | 0 <= i < |line|
      ensures line[i].decl in ks + [k] <==> line[i].decl in ks
    {
      assert line[i].decl != k;
    }
    KeepUnlessSame(line, ks + [k], ks);
  }

  /** Every key in _oob is a key of the line. */
  lemma {:induction false} OobKeysAreKeys(t: Trig, line: HourLine, r: real, k: real)
    requires k in OobKeys(t, line, r)
    ensures HasKey(line, k)
  {
    if |line| > 0 && !(Dist(t, line[0].p) > r && k == line[0].decl) {
      OobKeysAreKeys(t, line[1..], r, k);
      TailKeys(line, k);
    }
  }

  /** No key occurs twice in the list. */
  predicate Distinct(ks: seq<real>)
  {
    forall i, j :: 0 <= i < j < |ks| ==> ks[i] != ks[j]
  }

  /** _oob has no repeated key when the line has none. */
  lemma {:induction false} OobKeysDistinct(t: Trig, line: HourLine, r: real)
    requires DistinctKeys(line)
    ensures Distinct(OobKeys(t, line, r))
  {
    if |line| > 0 {
      assert DistinctKeys(line[1..]) by {
        forall i, j | 0 <= i < j < |line[1..]|
          ensures line[1..][i].decl != line[1..][j].decl
        {
          assert line[1..][i] == line[i + 1] && line[1..][j] == line[j + 1];
        }
      }
      OobKeysDistinct(t, line[1..], r);
      HeadKeyUnique(line);
      if line[0].decl in OobKeys(t, line[1..], r) {
        OobKeysAreKeys(t, line[1..], r, line[0].decl);
      }
    }
  }

  /** Popping every key of _oob leaves exactly the entries inside the radius, in their order. */
  lemma {:induction false} KeepUnlessOob(t: Trig, line: HourLine, r: real)
    requires DistinctKeys(line)
    ensures KeepUnless(line, OobKeys(t, line, r)) == Inside(t, line, r)
  {
    if |line| > 0 {
      var rest := line[1..];
      assert DistinctKeys(rest) by {
        forall i, j | 0 <= i < j < |rest|
          ensures rest[i].decl != rest[j].decl
        {
          assert rest[i] == line[i + 1] && rest[j] == line[j + 1];
        }
      }
      KeepUnlessOob(t, rest, r);
      HeadKeyUnique(line);
      var O := OobKeys(t, line, r);
      forall i | 0 <= i < |rest|
        ensures rest[i].decl in O <==> rest[i].decl in OobKeys(t, rest, r)
      {
        assert rest[i].decl != line[0].decl by {
          assert HasKey(rest, rest[i].decl);
        }
      }
      KeepUnlessSame(rest, O, OobKeys(t, rest, r));
      if line[0].decl in OobKeys(t, rest, r) {
        OobKeysAreKeys(t, rest, r, line[0].decl);
      }
    }
  }

  lemma {:induction false} KeepUnlessNothing(line: HourLine)
    ensures KeepUnless(line, []) == line
  {
    if |line| > 0 {
      KeepUnlessNothing(line[1..]);
    }
  }

  lemma DistinctKeysTail(line: HourLine)
    requires |line| > 0 && DistinctKeys(line)
    ensures DistinctKeys(line[1..])
  {
    forall i, j | 0 <= i < j < |line| - 1
      ensures line[1..][i].decl != line[1..][j].decl
    {
      assert line[1..][i] == line[i + 1] && line[1..][j] == line[j + 1];
    }
  }

  /** The pruning keeps exactly the entries at most r from the origin. */
  lemma {:induction false} InsideMembers(t: Trig, line: HourLine, r: real, e: Entry)
    ensures e in Inside(t, line, r) <==> e in line && Dist(t, e.p) <= r
  {
    if |line| > 0 {
      InsideMembers(t, line[1..], r, e);
      assert line == [line[0]] + line[1..];
    }
  }

  /** a is b with some entries left out, the others in their order. */
  predicate Subsequence(a: HourLine, b: HourLine)
    decreases |b|
  {
    if |a| == 0 then true
    else if |b| == 0 then false
    else (a[0] == b[0] && Subsequence(a[1..], b[1..])) || Subsequence(a, b[1..])
  }

  /** What pruning leaves of a line is the line with entries left out: the others are unchanged and in their order. */
  lemma {:induction false} InsideSubsequence(t: Trig, line: HourLine, r: real)
    ensures Subsequence(Inside(t, line, r), line)
  {
    if |line| > 0 {
      InsideSubsequence(t, line[1..], r);
      var rest := Inside(t, line[1..], r);
      if Dist(t, line[0].p) <= r {
        assert Inside(t, line, r) == [line[0]] + rest;
        assert ([line[0]] + rest)[1..] == rest;
      } else {
        assert Inside(t, line, r) == rest;
        assert |rest| > 0 ==> Subsequence(rest, line[1..]);
      }
    }
  }

  /** A line that is inside the radius everywhere is left as it is. */
  lemma {:induction false} InsideAll(t: Trig, line: HourLine, r: real)
    requires forall i :: 0 <= i < |line| ==> Dist(t, line[i].p) <= r
    ensures Inside(t, line, r) == line
  {
    if |line| > 0 {
      InsideAll(t, line[1..], r);
      assert line == [line[0]] + line[1..];
    }
  }

  /** The pruned line keeps distinct keys. */
  lemma InsideDistinct(t: Trig, line: HourLine, r: real)
    requires DistinctKeys(line)
    ensures DistinctKeys(Inside(t, line, r))
  {
    KeepUnlessOob(t, line, r);
    KeepUnlessDistinct(line, OobKeys(t, line, r));
  }

  /** The first loop of the pruning: _oob, the keys of the entries further than r. */
  method CollectOob(t: Trig, line: HourLine, r: real) returns (oob: seq<real>)
    ensures oob == OobKeys(t, line, r)
  {
    oob := [];
    var i := 0;
    while i < |line|
      invariant 0 <= i <= |line|
      invariant oob == OobKeys(t, line[..i], r)
    {
      OobKeysSnoc(t, line[..i], line[i], r);
      assert line[..i + 1] == line[..i] + [line[i]];
      if Dist(t, line[i].p) > r {
        oob := oob + [line[i].decl];
      }
      i := i + 1;
    }
    assert line[..i] == line;
  }

  /** Popping the next key of oob removes it after the keys before it. */
  lemma PopStep(line: HourLine, oob: seq<real>, j: nat)
    requires DistinctKeys(line) && Distinct(oob) && j < |oob|
    requires forall k :: k in oob ==> HasKey(line, k)
    ensures HasKey(KeepUnless(line, oob[..j]), oob[j])
    ensures Pop(KeepUnless(line, oob[..j]), oob[j]) == KeepUnless(line, oob[..j + 1])
  {
    assert oob[j] !in oob[..j];
    KeepUnlessKeys(line, oob[..j], oob[j]);
    PopKeepUnless(line, oob[..j], oob[j]);
    assert oob[..j + 1] == oob[..j] + [oob[j]];
  }

  /** The second loop: each key of oob, all of them keys of the line and none twice, is popped in turn. */
  method PopAll(line: HourLine, oob: seq<real>) returns (pruned: HourLine)
    requires DistinctKeys(line) && Distinct(oob)
    requires forall k :: k in oob ==> HasKey(line, k)
    ensures pruned == KeepUnless(line, oob)
  {
    KeepUnlessNothing(line);
    pruned := line;
    var j := 0;
    while j < |oob|
      invariant 0 <= j <= |oob|
      invariant pruned == KeepUnless(line, oob[..j])
    {
      PopStep(line, oob, j);
      pruned := Pop(pruned, oob[j]);
      j := j + 1;
    }
    assert oob[..j] == oob;
  }

  /** The pruning of one hour line, as get_svg does it: collect _oob, then pop its keys. */
  method PruneLine(t: Trig, line: HourLine, r: real) returns (pruned: HourLine)
    requires DistinctKeys(line)
    ensures pruned == Inside(t, line, r)
  {
    var oob := CollectOob(t, line, r);
    OobKeysDistinct(t, line, r);
    forall k | k in oob
      ensures HasKey(line, k)
    {
      OobKeysAreKeys(t, line, r, k);
    }
    pruned := PopAll(line, oob);
    KeepUnlessOob(t, line, r);
  }

  // ---------------------------------------------------------------------
  // get_svg: the points and the bounding box
  // ---------------------------------------------------------------------

  /** The y-flipped points of one hour line, in the dict's order. */
  function LinePoints(line: HourLine): (ps: seq<Point>)
    ensures |ps| == |line| && forall j :: 0 <= j < |line| ==> ps[j] == Flip(line[j].p)
  {
    seq(|line|, j requires 0 <= j < |line| => Flip(line[j].p))
  }

  /** `points`: the y-flipped points of all hour lines, line after line. */
  function Points(lines: seq<HourLine>): seq<Point>
  {
    if |lines| == 0 then [] else Points(lines[..|lines| - 1]) + LinePoints(lines[|lines| - 1])
  }

  /** Every point in the list is the flipped point of an entry of an hour line, and every entry's is there. */
  lemma {:induction false} PointsMembers(lines: seq<HourLine>, q: Point)
    ensures q in Points(lines) <==> exists i, j :: 0 <= i < |lines| && 0 <= j < |lines[i]| && q == Flip(lines[i][j].p)
  {
    if |lines| > 0 {
      var n := |lines| - 1;
      PointsMembers(lines[..n], q);
      if q in Points(lines) {
        if q in Points(lines[..n]) {
          var i, j :| 0 <= i < n && 0 <= j < |lines[..n][i]| && q == Flip(lines[..n][i][j].p);
          assert lines[i] == lines[..n][i];
        } else {
          var j :| 0 <= j < |lines[n]| && LinePoints(lines[n])[j] == q;
        }
      }
      if exists i, j :: 0 <= i < |lines| && 0 <= j < |lines[i]| && q == Flip(lines[i][j].p) {
        var i, j :| 0 <= i < |lines| && 0 <= j < |lines[i]| && q == Flip(lines[i][j].p);
        if i < n {
          assert lines[..n][i] == lines[i];
        } else {
          assert LinePoints(lines[n])[j] == q;
        }
      }
    }
  }

  /** The nested loops that build `points`. */
  method CollectPoints(lines: seq<HourLine>) returns (points: seq<Point>)
    ensures points == Points(lines)
  {
    points := [];
    var i := 0;
    while i < |lines|
      invariant 0 <= i <= |lines|
      invariant points == Points(lines[..i])
    {
      var line := lines[i];
      var j := 0;
      while j < |line|
        invariant 0 <= j <= |line|
        invariant points == Points(lines[..i]) + LinePoints(line)[..j]
      {
        assert LinePoints(line)[..j + 1] == LinePoints(line)[..j] + [Flip(line[j].p)];
        points := points + [Flip(line[j].p)];
        j := j + 1;
      }
      assert lines[..i + 1][..i] == lines[..i];
      assert LinePoints(line)[..j] == LinePoints(line);
      i := i + 1;
    }
    assert lines[..i] == lines;
  }

  /** A bounding box (minx, miny, maxx, maxy). */
  datatype Box = Box(minx: real, miny: real, maxx: real, maxy: real)

  predicate InBox(b: Box, q: Point)
  {
    b.minx <= q.x <= b.maxx && b.miny <= q.y <= b.maxy
  }

  /** b contains c. */
  predicate Encloses(b: Box, c: Box)
  {
    b.minx <= c.minx && c.maxx <= b.maxx && b.miny <= c.miny && c.maxy <= b.maxy
  }

  /**
   * (minx, miny) = map(min, zip(*points)) and (maxx, maxy) = map(max, zip(*points)): the smallest and
   * largest coordinates of a non-empty list; the box holds every point and each side is reached.
   */
  function BoxOf(ps: seq<Point>): (b: Box)
    requires |ps| > 0
    ensures forall i :: 0 <= i < |ps| ==> InBox(b, ps[i])
    ensures exists i :: 0 <= i < |ps| && ps[i].x == b.minx
    ensures exists i :: 0 <= i < |ps| && ps[i].y == b.miny
    ensures exists i :: 0 <= i < |ps| && ps[i].x == b.maxx
    ensures exists i :: 0 <= i < |ps| && ps[i].y == b.maxy
  {
    if |ps| == 1 then Box(ps[0].x, ps[0].y, ps[0].x, ps[0].y)
    else
      var b := BoxOf(ps[..|ps| - 1]);
      var q := ps[|ps| - 1];
      assert forall i :: 0 <= i < |ps| - 1 ==> ps[..|ps| - 1][i] == ps[i];
      Box(Min(b.minx, q.x), Min(b.miny, q.y), Max(b.maxx, q.x), Max(b.maxy, q.y))
  }

  function Min(a: real, b: real): real
  {
    if a <= b then a else b
  }

  function Max(a: real, b: real): real
  {
    if a >= b then a else b
  }

  /** With max_radius, the box is widened to hold the square [-r, r]^2 too. */
  function Widen(b: Box, r: real): (w: Box)
    ensures Encloses(w, b) && w.minx <= -r && w.miny <= -r && r <= w.maxx && r <= w.maxy
    ensures w.minx == b.minx || w.minx == -r
    ensures w.maxy == b.maxy || w.maxy == r
  {
    Box(Min(b.minx, -r), Min(b.miny, -r), Max(b.maxx, r), Max(b.maxy, r))
  }

  /** The temporary bounding box: the points' box, widened when there is a radius. */
  function PointsBox(ps: seq<Point>, radius: Option<real>): Box
    requires |ps| > 0
  {
    if radius.Some? then Widen(BoxOf(ps), radius.value) else BoxOf(ps)
  }

  // ---------------------------------------------------------------------
  // get_svg: the furthest point of each hour line
  // ---------------------------------------------------------------------

  /**
   * The index of tmp after the first k items of the dict: the first item, then each later item whose
   * distance to the origin exceeds (strictly) that of tmp.
   */
  function FurthestIndex(t: Trig, line: HourLine, k: nat): (j: nat)
    requires 1 <= k <= |line|
    ensures j < k
  {
    if k == 1 then 0
    else
      var j := FurthestIndex(t, line, k - 1);
      if Dist(t, line[k - 1].p) > Dist(t, Flip(line[j].p)) then k - 1 else j
  }

  /** The furthest entry is the first one of maximal distance among the first k. */
  lemma {:induction false} FurthestIsFirstMaximal(t: Trig, line: HourLine, k: nat)
    requires 1 <= k <= |line|
    ensures var j := FurthestIndex(t, line, k);
      (forall i :: 0 <= i < k ==> Dist(t, line[i].p) <= Dist(t, line[j].p))
      && (forall i :: 0 <= i < j ==> Dist(t, line[i].p) < Dist(t, line[j].p))
  {
    if k > 1 {
      FurthestIsFirstMaximal(t, line, k - 1);
      DistFlip(t, line[FurthestIndex(t, line, k - 1)].p);
    }
  }

  /** tmp for a non-empty hour line: the y-flipped point of its furthest entry. */
  function Furthest(t: Trig, line: HourLine): Point
    requires |line| > 0
  {
    Flip(line[FurthestIndex(t, line, |line|)].p)
  }

  /** The inner loop over decl.items(): tmp is None on an empty dict. */
  method FurthestPoint(t: Trig, line: HourLine) returns (tmp: Option<Point>)
    ensures tmp == if |line| == 0 then None else Some(Furthest(t, line))
  {
    tmp := None;
    var i := 0;
    while i < |line|
      invariant 0 <= i <= |line|
      invariant tmp == if i == 0 then None else Some(Flip(line[FurthestIndex(t, line, i)].p))
    {
      var coordinate := line[i].p;
      if tmp.None? {
        tmp := Some(Flip(coordinate));
      } else if Dist(t, coordinate) > Dist(t, tmp.value) {
        tmp := Some(Flip(coordinate));
      }
      i := i + 1;
    }
  }

  /** An element (x, y, h) of lines_h: a point and the index of its hour line. */
  datatype Mark = Mark(p: Point, hour: nat)

  /** lines_h after the first n hour lines: the furthest point of each non-empty one. */
  function MarksUpTo(t: Trig, lines: seq<HourLine>, n: nat): seq<Mark>
    requires n <= |lines|
  {
    if n == 0 then []
    else MarksUpTo(t, lines, n - 1) + (if |lines[n - 1]| == 0 then [] else [Mark(Furthest(t, lines[n - 1]), n - 1)])
  }

  /** The loop that builds lines_h. */
  method HourMarks(t: Trig, lines: seq<HourLine>) returns (marks: seq<Mark>)
    ensures marks == MarksUpTo(t, lines, |lines|)
  {
    marks := [];
    var hour := 0;
    while hour < |lines|
      invariant 0 <= hour <= |lines|
      invariant marks == MarksUpTo(t, lines, hour)
    {
      var decl := lines[hour];
      if |decl| != 0 {
        var tmp := FurthestPoint(t, decl);
        marks := marks + [Mark(tmp.value, hour)];
      }
      hour := hour + 1;
    }
  }

  /** The marks of the first n - 1 lines are the first marks of the first n. */
  lemma MarksPrefix(t: Trig, lines: seq<HourLine>, n: nat)
    requires 0 < n <= |lines|
    ensures var prev, ms := MarksUpTo(t, lines, n - 1), MarksUpTo(t, lines, n);
      |ms| == |prev| + (if |lines[n - 1]| == 0 then 0 else 1)
      && (forall i :: 0 <= i < |prev| ==> ms[i] == prev[i])
      && (|lines[n - 1]| > 0 ==> ms[|prev|] == Mark(Furthest(t, lines[n - 1]), n - 1))
  {
  }

  /** Each mark of lines_h comes from a non-empty hour line and is its furthest point; hours increase. */
  lemma {:induction false} MarksSound(t: Trig, lines: seq<HourLine>, n: nat)
    requires n <= |lines|
    ensures var ms := MarksUpTo(t, lines, n);
      (forall i, j :: 0 <= i < j < |ms| ==> ms[i].hour < ms[j].hour)
      && (forall i :: 0 <= i < |ms| ==> ms[i].hour < n && |lines[ms[i].hour]| > 0 && ms[i].p == Furthest(t, lines[ms[i].hour]))
  {
    if n > 0 {
      MarksSound(t, lines, n - 1);
      MarksPrefix(t, lines, n);
    }
  }

  /** Every non-empty hour line has its mark in lines_h. */
  lemma {:induction false} MarksComplete(t: Trig, lines: seq<HourLine>, n: nat, h: nat)
    requires h < n <= |lines| && |lines[h]| > 0
    ensures exists i :: 0 <= i < |MarksUpTo(t, lines, n)| && MarksUpTo(t, lines, n)[i] == Mark(Furthest(t, lines[h]), h)
  {
    MarksPrefix(t, lines, n);
    if h < n - 1 {
      MarksComplete(t, lines, n - 1, h);
      var i :| 0 <= i < |MarksUpTo(t, lines, n - 1)| && MarksUpTo(t, lines, n - 1)[i] == Mark(Furthest(t, lines[h]), h);
      assert MarksUpTo(t, lines, n)[i] == Mark(Furthest(t, lines[h]), h);
    } else {
      assert MarksUpTo(t, lines, n)[|MarksUpTo(t, lines, n - 1)|] == Mark(Furthest(t, lines[h]), h);
    }
  }

  // ---------------------------------------------------------------------
  // get_svg: pushing the marks onto the circle, and the hour labels
  // ---------------------------------------------------------------------

  /** sqrt gives a non-negative square root of every non-negative number. */
  ghost predicate SqrtValid(t: Trig)
  {
    forall x :: x >= 0.0 ==> RootOf(t, x)
  }

  /**
   * With max_radius, lines_h with each point pushed from the flipped center onto the circle, the
   * hours kept; None when push_point exits on one of them.
   */
  function PushMarks(t: Trig, marks: seq<Mark>, c: Point, r: real): Option<seq<Mark>>
  {
    if |marks| == 0 then Some([])
    else
      var last := marks[|marks| - 1];
      match PushMarks(t, marks[..|marks| - 1], c, r)
      case None => None
      case Some(ms) =>
        match PushPoint(t, last.p, c, r)
        case None => None
        case Some(q) => Some(ms + [Mark(q, last.hour)])
  }

  /** The pushing succeeds exactly when push_point succeeds on every mark, and then pushes each in place. */
  lemma {:induction false} PushMarksEach(t: Trig, marks: seq<Mark>, c: Point, r: real)
    ensures PushMarks(t, marks, c, r).Some? <==> forall i :: 0 <= i < |marks| ==> PushPoint(t, marks[i].p, c, r).Some?
    ensures PushMarks(t, marks, c, r).Some? ==> var ms := PushMarks(t, marks, c, r).value;
      |ms| == |marks| && forall i :: 0 <= i < |marks| ==> ms[i] == Mark(PushPoint(t, marks[i].p, c, r).value, marks[i].hour)
  {
    if |marks| > 0 {
      var n := |marks| - 1;
      PushMarksEach(t, marks[..n], c, r);
      assert forall i :: 0 <= i < n ==> marks[..n][i] == marks[i];
    }
  }

  /** With the center inside the circle, no mark makes push_point exit. */
  lemma PushMarksDefined(t: Trig, marks: seq<Mark>, c: Point, r: real)
    requires Modulus(c) <= r * r
    ensures PushMarks(t, marks, c, r).Some?
  {
    forall i | 0 <= i < |marks|
      ensures PushPoint(t, marks[i].p, c, r).Some?
    {
      PushPointDefined(t, marks[i].p, c, r);
    }
    PushMarksEach(t, marks, c, r);
  }

  /** With a valid sqrt, every pushed mark lies on the circle of radius r. */
  lemma PushMarksOnCircle(t: Trig, marks: seq<Mark>, c: Point, r: real)
    requires SqrtValid(t) && PushMarks(t, marks, c, r).Some?
    ensures forall m :: m in PushMarks(t, marks, c, r).value ==> Modulus(m.p) == r * r
  {
    PushMarksEach(t, marks, c, r);
    var ms := PushMarks(t, marks, c, r).value;
    forall i | 0 <= i < |marks|
      ensures Modulus(ms[i].p) == r * r
    {
      var p := marks[i].p;
      if p.x != c.x {
        assert RootOf(t, Delta(p, c, r));
      }
      PushPointOnCircle(t, p, c, r);
    }
  }

  /** The loop that pushes lines_h onto the circle; None is the exit of push_point. */
  method PushAll(t: Trig, marks: seq<Mark>, c: Point, r: real) returns (pushed: Option<seq<Mark>>)
    ensures pushed == PushMarks(t, marks, c, r)
  {
    var tmp: seq<Mark> := [];
    var i := 0;
    while i < |marks|
      invariant 0 <= i <= |marks|
      invariant PushMarks(t, marks[..i], c, r) == Some(tmp)
    {
      assert marks[..i + 1][..i] == marks[..i];
      var q := PushPoint(t, marks[i].p, c, r);
      if q.None? {
        PushMarksStops(t, marks, c, r, i + 1);
        return None;
      }
      tmp := tmp + [Mark(q.value, marks[i].hour)];
      i := i + 1;
    }
    assert marks[..i] == marks;
    pushed := Some(tmp);
  }

  /** Once a prefix fails, the whole list fails. */
  lemma {:induction false} PushMarksStops(t: Trig, marks: seq<Mark>, c: Point, r: real, k: nat)
    requires k <= |marks| && PushMarks(t, marks[..k], c, r).None?
    ensures PushMarks(t, marks, c, r).None?
  {
    if k < |marks| {
      var n := |marks| - 1;
      assert marks[..n][..k] == marks[..k];
      PushMarksStops(t, marks[..n], c, r, k);
    } else {
      assert marks[..k] == marks;
    }
  }

  /** An element (x, y, h) of hours_t: where the text of hour h is written. */
  datatype Label = Label(x: real, y: real, hour: nat)

  /** The text of a mark, 0.8 font sizes to its left and 1.3 font sizes further from the x axis. */
  function LabelOf(m: Mark, fontSize: real): Label
  {
    Label(m.p.x - 0.8 * fontSize, m.p.y + CopySign(1.3 * fontSize, m.p.y), m.hour)
  }

  /** `1 if h >= 10 else 2`, added to the right edge of the text of hour h. */
  function HourWidth(h: nat): real
  {
    if h >= 10 then 1.0 else 2.0
  }

  /** The box after one mark's text: the text's left, lower and upper edges, and its right edge. */
  function Extend(b: Box, m: Mark, fontSize: real): Box
  {
    Box(Min(b.minx, m.p.x - 0.8 * fontSize),
        Min(b.miny, m.p.y + CopySign(1.3 * fontSize, m.p.y)),
        Max(b.maxx, m.p.x + HourWidth(m.hour) + 0.2 * fontSize),
        Max(b.maxy, m.p.y + fontSize + CopySign(1.3 * fontSize, m.p.y)))
  }

  /** The box after the texts of all the marks. */
  function LabelsBox(b: Box, marks: seq<Mark>, fontSize: real): Box
  {
    if |marks| == 0 then b else Extend(LabelsBox(b, marks[..|marks| - 1], fontSize), marks[|marks| - 1], fontSize)
  }

  /** hours_t. */
  function Labels(marks: seq<Mark>, fontSize: real): (ls: seq<Label>)
    ensures |ls| == |marks| && forall i :: 0 <= i < |marks| ==> ls[i] == LabelOf(marks[i], fontSize)
  {
    seq(|marks|, i requires 0 <= i < |marks| => LabelOf(marks[i], fontSize))
  }

  /** The loop over lines_h that builds hours_t and grows the box. */
  method PlaceLabels(marks: seq<Mark>, fontSize: real, b: Box) returns (labels: seq<Label>, box: Box)
    ensures labels == Labels(marks, fontSize) && box == LabelsBox(b, marks, fontSize)
  {
    labels := [];
    box := b;
    var i := 0;
    while i < |marks|
      invariant 0 <= i <= |marks|
      invariant labels == Labels(marks[..i], fontSize) && box == LabelsBox(b, marks[..i], fontSize)
    {
      var m := marks[i];
      assert marks[..i + 1][..i] == marks[..i];
      labels := labels + [Label(m.p.x - 0.8 * fontSize, m.p.y + CopySign(1.3 * fontSize, m.p.y), m.hour)];
      box := Box(Min(box.minx, m.p.x - 0.8 * fontSize),
                 Min(box.miny, m.p.y + CopySign(1.3 * fontSize, m.p.y)),
                 Max(box.maxx, m.p.x + HourWidth(m.hour) + 0.2 * fontSize),
                 Max(box.maxy, m.p.y + fontSize + CopySign(1.3 * fontSize, m.p.y)));
      i := i + 1;
    }
    assert marks[..i] == marks;
  }

  /**
   * The texts only grow the box, and with a non-negative font size the box holds the anchor of every
   * text.
   */
  lemma {:induction false} LabelsInBox(b: Box, marks: seq<Mark>, fontSize: real)
    requires fontSize >= 0.0
    ensures Encloses(LabelsBox(b, marks, fontSize), b)
    ensures forall i :: 0 <= i < |marks| ==>
      InBox(LabelsBox(b, marks, fontSize), Point(LabelOf(marks[i], fontSize).x, LabelOf(marks[i], fontSize).y))
  {
    if |marks| > 0 {
      var n := |marks| - 1;
      LabelsInBox(b, marks[..n], fontSize);
      assert forall i :: 0 <= i < n ==> marks[..n][i] == marks[i];
    }
  }

  // ---------------------------------------------------------------------
  // get_svg: the segments along each declination
  // ---------------------------------------------------------------------

  /** line[decl] when decl is a key of the dict: the point of the first entry with that key. */
  function Lookup(line: HourLine, k: real): (r: Option<Point>)
    ensures r.Some? <==> HasKey(line, k)
    ensures r.Some? ==> Entry(k, r.value) in line
  {
    if |line| == 0 then None
    else if line[0].decl == k then Some(line[0].p)
    else
      var r := Lookup(line[1..], k);
      assert HasKey(line[1..], k) ==> HasKey(line, k) by {
        if HasKey(line[1..], k) {
          var i :| 0 <= i < |line[1..]| && line[1..][i].decl == k;
          assert line[i + 1].decl == k;
        }
      }
      assert r.Some? ==> Entry(k, r.value) in line by {
        if r.Some? {
          assert line == [line[0]] + line[1..];
        }
      }
      assert HasKey(line, k) ==> HasKey(line[1..], k) by {
        if HasKey(line, k) {
          var i :| 0 <= i < |line| && line[i].decl == k;
          assert line[1..][i - 1].decl == k;
        }
      }
      r
  }

  /** The y-flipped points of one declination on the hour lines that still have it, in line order. */
  function Occurrences(lines: seq<HourLine>, d: real): seq<Point>
  {
    if |lines| == 0 then []
    else
      Occurrences(lines[..|lines| - 1], d)
      + match Lookup(lines[|lines| - 1], d) { case None => [] case Some(p) => [Flip(p)] }
  }

  /** A point occurs exactly when it is the flipped point of the declination on one of the lines. */
  lemma {:induction false} OccurrencesMembers(lines: seq<HourLine>, d: real, q: Point)
    ensures q in Occurrences(lines, d) <==>
      exists i :: 0 <= i < |lines| && Lookup(lines[i], d).Some? && q == Flip(Lookup(lines[i], d).value)
  {
    if |lines| > 0 {
      var n := |lines| - 1;
      OccurrencesMembers(lines[..n], d, q);
      assert forall i :: 0 <= i < n ==> lines[..n][i] == lines[i];
    }
  }

  /** An element (x1, y1, x2, y2) of a declination's list of segments. */
  datatype Segment = Segment(a: Point, b: Point)

  /** The segments that join consecutive points. */
  function Segments(occ: seq<Point>): (segs: seq<Segment>)
    ensures |segs| == if |occ| == 0 then 0 else |occ| - 1
  {
    if |occ| == 0 then [] else seq(|occ| - 1, i requires 0 <= i < |occ| - 1 => Segment(occ[i], occ[i + 1]))
  }

  /** The points a chain of segments passes through: its start and then each segment's end. */
  function Vertices(segs: seq<Segment>): (vs: seq<Point>)
    ensures |vs| == if |segs| == 0 then 0 else |segs| + 1
  {
    if |segs| == 0 then [] else [segs[0].a] + seq(|segs|, i requires 0 <= i < |segs| => segs[i].b)
  }

  /** Two or more points give a connected chain of segments that passes through exactly those points. */
  lemma SegmentsChain(occ: seq<Point>)
    requires |occ| >= 2
    ensures Vertices(Segments(occ)) == occ
    ensures forall i :: 0 <= i < |occ| - 2 ==> Segments(occ)[i].b == Segments(occ)[i + 1].a
  {
    var vs := Vertices(Segments(occ));
    assert forall i :: 0 <= i < |occ| ==> vs[i] == occ[i] by {
      forall i | 0 <= i < |occ|
        ensures vs[i] == occ[i]
      {
        if i > 0 {
          assert vs[i] == Segments(occ)[i - 1].b;
        }
      }
    }
  }

  /** One more point adds the segment from the last one, if there was a last one. */
  lemma SegmentsSnoc(occ: seq<Point>, q: Point)
    ensures Segments(occ + [q]) == Segments(occ) + (if |occ| == 0 then [] else [Segment(occ[|occ| - 1], q)])
  {
    var l, r := Segments(occ + [q]), Segments(occ) + (if |occ| == 0 then [] else [Segment(occ[|occ| - 1], q)]);
    assert |l| == |r|;
    forall i | 0 <= i < |l|
      ensures l[i] == r[i]
    {
    }
  }

  /** One more hour line adds the declination's point when the line has it. */
  lemma OccurrencesStep(lines: seq<HourLine>, i: nat, d: real)
    requires i < |lines|
    ensures Occurrences(lines[..i + 1], d)
      == Occurrences(lines[..i], d) + (if Lookup(lines[i], d).Some? then [Flip(Lookup(lines[i], d).value)] else [])
  {
    assert lines[..i + 1][..i] == lines[..i];
  }

  /** The loop over the hour lines that builds one declination's segments, tmp holding the last point. */
  method DeclinationSegments(lines: seq<HourLine>, d: real) returns (segs: seq<Segment>)
    ensures segs == Segments(Occurrences(lines, d))
  {
    var tmp: Option<Point> := None;
    segs := [];
    var i := 0;
    while i < |lines|
      invariant 0 <= i <= |lines|
      invariant segs == Segments(Occurrences(lines[..i], d))
      invariant tmp == if |Occurrences(lines[..i], d)| == 0 then None
        else Some(Occurrences(lines[..i], d)[|Occurrences(lines[..i], d)| - 1])
    {
      OccurrencesStep(lines, i, d);
      var occ := Occurrences(lines[..i], d);
      var v := Lookup(lines[i], d);
      if v.Some? {
        SegmentsSnoc(occ, Flip(v.value));
        if tmp.None? {
          tmp := Some(Flip(v.value));
        } else {
          segs := segs + [Segment(tmp.value, Flip(v.value))];
          tmp := Some(Flip(v.value));
        }
      }
      i := i + 1;
    }
    assert lines[..i] == lines;
  }

  /**
   * With max_radius, a non-empty list of segments gets one more at each end: from the first point,
   * pushed onto the circle away from the second, and to the last point pushed away from the one before
   * it; None when push_point exits.
   */
  function Connected(t: Trig, segs: seq<Segment>, r: real): Option<seq<Segment>>
    requires |segs| > 0
  {
    var first, last := segs[0], segs[|segs| - 1];
    match PushPoint(t, first.a, first.b, r)
    case None => None
    case Some(p) =>
      match PushPoint(t, last.b, last.a, r)
      case None => None
      case Some(q) => Some([Segment(p, first.a)] + segs + [Segment(last.b, q)])
  }

  /**
   * The connected list keeps the segments in the middle, still forms a chain, and with a valid sqrt
   * starts and ends on the circle.
   */
  lemma ConnectedOnCircle(t: Trig, segs: seq<Segment>, r: real)
    requires SqrtValid(t) && |segs| > 0 && Connected(t, segs, r).Some?
    ensures var cs := Connected(t, segs, r).value;
      |cs| == |segs| + 2 && cs[1..|cs| - 1] == segs
      && cs[0].b == segs[0].a && cs[|cs| - 1].a == segs[|segs| - 1].b
      && Modulus(cs[0].a) == r * r && Modulus(cs[|cs| - 1].b) == r * r
  {
    var first, last := segs[0], segs[|segs| - 1];
    if first.a.x != first.b.x {
      assert RootOf(t, Delta(first.a, first.b, r));
    }
    PushPointOnCircle(t, first.a, first.b, r);
    if last.b.x != last.a.x {
      assert RootOf(t, Delta(last.b, last.a, r));
    }
    PushPointOnCircle(t, last.b, last.a, r);
    var cs := Connected(t, segs, r).value;
    assert cs[1..|cs| - 1] == segs;
  }

  /** With a valid sqrt, a point no further than r from the origin has modulus at most r squared. */
  lemma WithinModulus(t: Trig, q: Point, r: real)
    requires SqrtValid(t) && Dist(t, q) <= r
    ensures Modulus(q) <= r * r
  {
    SquareNonneg(q.x);
    SquareNonneg(q.y);
    assert RootOf(t, Modulus(q));
    var s := Sqrt(t, Modulus(q));
    ProductNonneg(r - s, r + s);
    assert (r - s) * (r + s) == r * r - s * s;
  }

  /** Every entry of every line is no further than r from the origin, as after the pruning. */
  predicate AllWithin(t: Trig, lines: seq<HourLine>, r: real)
  {
    forall i, e :: 0 <= i < |lines| && e in lines[i] ==> Dist(t, e.p) <= r
  }

  /** On pruned lines the two connectors of a declination never make push_point exit. */
  lemma ConnectedDefined(t: Trig, lines: seq<HourLine>, d: real, r: real)
    requires SqrtValid(t) && AllWithin(t, lines, r) && |Segments(Occurrences(lines, d))| > 0
    ensures Connected(t, Segments(Occurrences(lines, d)), r).Some?
  {
    var occ := Occurrences(lines, d);
    forall q | q in occ
      ensures Modulus(q) <= r * r
    {
      OccurrencesMembers(lines, d, q);
      var i :| 0 <= i < |lines| && Lookup(lines[i], d).Some? && q == Flip(Lookup(lines[i], d).value);
      var p := Lookup(lines[i], d).value;
      assert Dist(t, p) <= r by {
        assert Entry(d, p) in lines[i];
      }
      DistFlip(t, p);
      WithinModulus(t, q, r);
    }
    var segs := Segments(occ);
    assert segs[0].b == occ[1] && segs[|segs| - 1].a == occ[|occ| - 2];
    PushPointDefined(t, segs[0].a, segs[0].b, r);
    PushPointDefined(t, segs[|segs| - 1].b, segs[|segs| - 1].a, r);
  }

  /** An entry of lines_d: a declination and its segments. */
  datatype DeclLine = DeclLine(decl: real, segs: seq<Segment>)

  /**
   * What a declination adds to lines_d: its segments as they are without max_radius; with it, nothing
   * when it has no segment, else the connected segments, or None when push_point exits.
   */
  function DeclLineOf(t: Trig, lines: seq<HourLine>, radius: Option<real>, d: real): Option<seq<DeclLine>>
  {
    var segs := Segments(Occurrences(lines, d));
    if radius.None? then Some([DeclLine(d, segs)])
    else if |segs| == 0 then Some([])
    else
      match Connected(t, segs, radius.value)
      case None => None
      case Some(cs) => Some([DeclLine(d, cs)])
  }

  /** The declinations strictly increase, as sundial.declinations does. */
  predicate Increasing(decls: seq<real>)
  {
    forall i, j :: 0 <= i < j < |decls| ==> decls[i] < decls[j]
  }

  /** What one declination adds to lines_d, as a function of the declination. */
  function DeclLineFn(t: Trig, lines: seq<HourLine>, radius: Option<real>): real -> Option<seq<DeclLine>>
  {
    d => DeclLineOf(t, lines, radius, d)
  }

  /** f applied to each declination of decls, in order. */
  function Entries(f: real -> Option<seq<DeclLine>>, decls: seq<real>): (es: seq<Option<seq<DeclLine>>>)
    ensures |es| == |decls|
  {
    if |decls| == 0 then [] else Entries(f, decls[..|decls| - 1]) + [f(decls[|decls| - 1])]
  }

  lemma {:induction false} EntriesAt(f: real -> Option<seq<DeclLine>>, decls: seq<real>, i: nat)
    requires i < |decls|
    ensures Entries(f, decls)[i] == f(decls[i])
  {
    var n := |decls| - 1;
    if i < n {
      EntriesAt(f, decls[..n], i);
      assert decls[..n][i] == decls[i];
    }
  }

  /** What each declination of decls adds to lines_d, in order. */
  function DeclEntries(t: Trig, lines: seq<HourLine>, radius: Option<real>, decls: seq<real>): (es: seq<Option<seq<DeclLine>>>)
    ensures |es| == |decls|
  {
    Entries(DeclLineFn(t, lines, radius), decls)
  }

  lemma DeclEntriesAt(t: Trig, lines: seq<HourLine>, radius: Option<real>, decls: seq<real>, i: nat)
    requires i < |decls|
    ensures DeclEntries(t, lines, radius, decls)[i] == DeclLineOf(t, lines, radius, decls[i])
  {
    EntriesAt(DeclLineFn(t, lines, radius), decls, i);
  }

  /** lines_d after the first k entries: their lists concatenated, or None from the first exit on. */
  function Gathered(es: seq<Option<seq<DeclLine>>>, k: nat): Option<seq<DeclLine>>
    requires k <= |es|
  {
    if k == 0 then Some([])
    else
      match Gathered(es, k - 1)
      case None => None
      case Some(ds) =>
        match es[k - 1]
        case None => None
        case Some(more) => Some(ds + more)
  }

  /** lines_d after the first k declinations of decls; get_svg takes sundial.declinations. */
  function DeclLinesUpTo(t: Trig, lines: seq<HourLine>, radius: Option<real>, decls: seq<real>, k: nat): Option<seq<DeclLine>>
    requires k <= |decls|
  {
    Gathered(DeclEntries(t, lines, radius, decls), k)
  }

  /** Once push_point has exited, later declinations change nothing. */
  lemma {:induction false} DeclLinesStop(es: seq<Option<seq<DeclLine>>>, k: nat, m: nat)
    requires k <= m <= |es| && Gathered(es, k).None?
    ensures Gathered(es, m).None?
    decreases m - k
  {
    if k < m {
      DeclLinesStop(es, k, m - 1);
    }
  }

  /** The body of the loop over sundial.declinations, for one declination. */
  method DeclinationEntry(t: Trig, lines: seq<HourLine>, radius: Option<real>, d: real) returns (more: Option<seq<DeclLine>>)
    ensures more == DeclLineOf(t, lines, radius, d)
  {
    var segs := DeclinationSegments(lines, d);
    if radius.None? {
      return Some([DeclLine(d, segs)]);
    }
    if |segs| == 0 {
      return Some([]);
    }
    var first := PushPoint(t, segs[0].a, segs[0].b, radius.value);
    if first.None? {
      return None;
    }
    var inner := segs;
    segs := [Segment(first.value, segs[0].a)] + segs;
    assert segs[|segs| - 1] == inner[|inner| - 1];
    var last := PushPoint(t, segs[|segs| - 1].b, segs[|segs| - 1].a, radius.value);
    if last.None? {
      return None;
    }
    segs := segs + [Segment(segs[|segs| - 1].b, last.value)];
    return Some([DeclLine(d, segs)]);
  }

  /** The loop over sundial.declinations that builds lines_d; None is the exit of push_point. */
  method DeclinationLines(t: Trig, lines: seq<HourLine>, radius: Option<real>) returns (r: Option<seq<DeclLine>>)
    ensures r == DeclLinesUpTo(t, lines, radius, Declinations, |Declinations|)
  {
    ghost var es := DeclEntries(t, lines, radius, Declinations);
    var ds: seq<DeclLine> := [];
    var k := 0;
    while k < |Declinations|
      invariant 0 <= k <= |Declinations|
      invariant Gathered(es, k) == Some(ds)
    {
      var more := DeclinationEntry(t, lines, radius, Declinations[k]);
      DeclEntriesAt(t, lines, radius, Declinations, k);
      if more.None? {
        DeclLinesStop(es, k + 1, |Declinations|);
        return None;
      }
      ds := ds + more.value;
      k := k + 1;
    }
    r := Some(ds);
  }

  /** With max_radius, one declination adds at most one entry: its segments, connected to the circle. */
  lemma DeclLineConnected(t: Trig, lines: seq<HourLine>, r: real, d: real)
    requires DeclLineOf(t, lines, Some(r), d).Some?
    ensures var more := DeclLineOf(t, lines, Some(r), d).value;
      |more| <= 1 && forall x :: x in more ==>
        x.decl == d && |Segments(Occurrences(lines, d))| > 0 && Connected(t, Segments(Occurrences(lines, d)), r) == Some(x.segs)
  {
  }

  /** Without max_radius lines_d has one entry per declination, in order, with its plain segments. */
  lemma {:induction false} DeclLinesPlain(t: Trig, lines: seq<HourLine>, decls: seq<real>, k: nat)
    requires k <= |decls|
    ensures DeclLinesUpTo(t, lines, None, decls, k).Some?
    ensures var ds := DeclLinesUpTo(t, lines, None, decls, k).value;
      |ds| == k && forall i :: 0 <= i < k ==> ds[i] == DeclLine(decls[i], Segments(Occurrences(lines, decls[i])))
  {
    if k > 0 {
      DeclLinesPlain(t, lines, decls, k - 1);
      DeclEntriesAt(t, lines, None, decls, k - 1);
    }
  }

  /** A declination line of lines_d with max_radius: its declination has segments, and it holds them connected to the circle. */
  predicate Kept(t: Trig, lines: seq<HourLine>, r: real, x: DeclLine)
  {
    |Segments(Occurrences(lines, x.decl))| > 0 && Connected(t, Segments(Occurrences(lines, x.decl)), r) == Some(x.segs)
  }

  /** Every line the entries hold has P, so every line gathered from them has P. */
  lemma {:induction false} GatheredAll(es: seq<Option<seq<DeclLine>>>, k: nat, P: DeclLine -> bool)
    requires k <= |es| && Gathered(es, k).Some?
    requires forall j, x :: 0 <= j < |es| && es[j].Some? && x in es[j].value ==> P(x)
    ensures forall x :: x in Gathered(es, k).value ==> P(x)
  {
    if k > 0 {
      GatheredAll(es, k - 1, P);
    }
  }

  /**
   * Entries of at most one line each, labelled with increasing declinations, gather into lines whose
   * declinations come from the first k and increase.
   */
  lemma {:induction false} GatheredOrdered(es: seq<Option<seq<DeclLine>>>, decls: seq<real>, k: nat)
    requires k <= |es| == |decls| && Increasing(decls) && Gathered(es, k).Some?
    requires forall j :: 0 <= j < |es| && es[j].Some? ==>
      |es[j].value| <= 1 && forall x :: x in es[j].value ==> x.decl == decls[j]
    ensures var ds := Gathered(es, k).value;
      (forall i :: 0 <= i < |ds| ==> ds[i].decl in decls[..k])
      && (forall i, i' :: 0 <= i < i' < |ds| ==> ds[i].decl < ds[i'].decl)
  {
    if k > 0 {
      GatheredOrdered(es, decls, k - 1);
      var d := decls[k - 1];
      var ds := Gathered(es, k - 1).value;
      var more := es[k - 1].value;
      assert Gathered(es, k).value == ds + more;
      assert decls[..k] == decls[..k - 1] + [d];
      forall i | 0 <= i < |ds|
        ensures ds[i].decl < d
      {
        BelowLater(decls, k - 1, ds[i].decl);
      }
    }
  }

  /** In an increasing list, whatever comes before position k is below the k-th element. */
  lemma BelowLater(decls: seq<real>, k: nat, x: real)
    requires k < |decls| && Increasing(decls) && x in decls[..k]
    ensures x < decls[k]
  {
    var j :| 0 <= j < k && decls[..k][j] == x;
    assert decls[j] == x;
  }

  /**
   * With max_radius, every entry of lines_d belongs to a declination with segments and holds them
   * connected to the circle, the declinations in increasing order.
   */
  lemma DeclLinesConnected(t: Trig, lines: seq<HourLine>, r: real, decls: seq<real>, k: nat)
    requires k <= |decls| && Increasing(decls) && DeclLinesUpTo(t, lines, Some(r), decls, k).Some?
    ensures var ds := DeclLinesUpTo(t, lines, Some(r), decls, k).value;
      (forall i :: 0 <= i < |ds| ==> ds[i].decl in decls[..k] && Kept(t, lines, r, ds[i]))
      && (forall i, i' :: 0 <= i < i' < |ds| ==> ds[i].decl < ds[i'].decl)
  {
    var es := DeclEntries(t, lines, Some(r), decls);
    forall j | 0 <= j < |es| && es[j].Some?
      ensures |es[j].value| <= 1 && forall x :: x in es[j].value ==> x.decl == decls[j] && Kept(t, lines, r, x)
    {
      DeclEntriesAt(t, lines, Some(r), decls, j);
      DeclLineConnected(t, lines, r, decls[j]);
    }
    GatheredOrdered(es, decls, k);
    GatheredAll(es, k, x => Kept(t, lines, r, x));
    var ds := Gathered(es, k).value;
    assert forall i :: 0 <= i < |ds| ==> ds[i] in ds;
  }

  /** On pruned lines and with a valid sqrt, lines_d never makes push_point exit. */
  lemma {:induction false} DeclLinesDefined(t: Trig, lines: seq<HourLine>, r: real, decls: seq<real>, k: nat)
    requires k <= |decls| && SqrtValid(t) && AllWithin(t, lines, r)
    ensures DeclLinesUpTo(t, lines, Some(r), decls, k).Some?
  {
    if k > 0 {
      DeclLinesDefined(t, lines, r, decls, k - 1);
      DeclEntriesAt(t, lines, Some(r), decls, k - 1);
      if |Segments(Occurrences(lines, decls[k - 1]))| > 0 {
        ConnectedDefined(t, lines, decls[k - 1], r);
      }
    }
  }

  // ---------------------------------------------------------------------
  // get_svg: the final frame and the drawing
  // ---------------------------------------------------------------------

  /** scale_factor: 1.1, which the `< 1.0` test never replaces. */
  const ScaleFactor: real := 1.1

  /** font_size: the scaled height of the temporary box over 8, for 5 lines of legend. */
  function FontSize(b: Box): real
  {
    (b.maxy - b.miny) * ScaleFactor / 8.0 / 5.0
  }

  /** The view of the drawing: the box grown by the scale factor about its middle, and the arrow size. */
  datatype Frame = Frame(minx: real, miny: real, maxx: real, maxy: real, width: real, height: real, arrow: real)

  /**
   * width and height scaled by 1.1, half the growth added on each side, and arrow_shape, both sides
   * 1% of the smaller dimension.
   */
  function FrameOf(b: Box): (f: Frame)
    ensures f.maxx - f.minx == f.width && f.maxy - f.miny == f.height
    ensures f.minx + f.maxx == b.minx + b.maxx && f.miny + f.maxy == b.miny + b.maxy
    ensures b.minx <= b.maxx && b.miny <= b.maxy ==> Encloses(Box(f.minx, f.miny, f.maxx, f.maxy), b)
    ensures f.width == (b.maxx - b.minx) * ScaleFactor && f.height == (b.maxy - b.miny) * ScaleFactor
  {
    var width, height := b.maxx - b.minx, b.maxy - b.miny;
    var xOffset, yOffset := (width * ScaleFactor - width) / 2.0, (height * ScaleFactor - height) / 2.0;
    Frame(b.minx - xOffset, b.miny - yOffset, b.maxx + xOffset, b.maxy + yOffset,
          width * ScaleFactor, height * ScaleFactor, Min(width, height) / 100.0)
  }

  /** What the template is filled with, the pass-through fields left out. */
  datatype Drawing = Drawing(center: Point, frame: Frame, points: seq<Point>, marks: seq<Mark>,
                             decls: seq<DeclLine>, labels: seq<Label>, radius: Option<real>, fontSize: real)

  /**
   * The outcome of get_svg: None when there are no hour lines; the ValueError of unpacking an empty
   * list of points; the exit of push_point; or the drawing.
   */
  datatype Svg = NoHourLines | NoPoints | RadiusTooSmall | Rendered(drawing: Drawing)

  /** The hour lines after the pruning: unchanged without max_radius. */
  function Pruned(t: Trig, lines: seq<HourLine>, radius: Option<real>): (ps: seq<HourLine>)
    ensures |ps| == |lines|
  {
    if radius.None? then lines else seq(|lines|, i requires 0 <= i < |lines| => Inside(t, lines[i], radius.value))
  }

  /** What pruning leaves lies within the radius, and it keeps distinct keys. */
  lemma PrunedWithin(t: Trig, lines: seq<HourLine>, r: real)
    ensures AllWithin(t, Pruned(t, lines, Some(r)), r)
    ensures (forall i :: 0 <= i < |lines| ==> DistinctKeys(lines[i])) ==>
      forall i :: 0 <= i < |lines| ==> DistinctKeys(Pruned(t, lines, Some(r))[i])
  {
    var ps := Pruned(t, lines, Some(r));
    forall i: int, e: Entry | 0 <= i < |ps| && e in ps[i]
      ensures Dist(t, e.p) <= r
    {
      InsideMembers(t, lines[i], r, e);
    }
    forall i | 0 <= i < |lines| && DistinctKeys(lines[i])
      ensures DistinctKeys(ps[i])
    {
      InsideDistinct(t, lines[i], r);
    }
  }

  /** lines_h, pushed onto the circle when there is a radius. */
  function PushedMarks(t: Trig, marks: seq<Mark>, c: Point, radius: Option<real>): Option<seq<Mark>>
  {
    if radius.None? then Some(marks) else PushMarks(t, marks, c, radius.value)
  }

  /** The drawing once lines_h and lines_d are known: the boxes, the font size, the labels and the frame. */
  function Assemble(center: Point, ps: seq<Point>, radius: Option<real>, marks: seq<Mark>, ds: seq<DeclLine>): Drawing
    requires |ps| > 0
  {
    var box := PointsBox(ps, radius);
    var fs := FontSize(box);
    Drawing(Flip(center), FrameOf(LabelsBox(box, marks, fs)), ps, marks, ds, Labels(marks, fs), radius, fs)
  }

  /** get_svg from the points on, over the pruned lines. */
  function Render(t: Trig, lines: seq<HourLine>, center: Point, radius: Option<real>): Svg
  {
    var ps := Points(lines);
    if |ps| == 0 then NoPoints
    else
      match PushedMarks(t, MarksUpTo(t, lines, |lines|), Flip(center), radius)
      case None => RadiusTooSmall
      case Some(marks) =>
        match DeclLinesUpTo(t, lines, radius, Declinations, |Declinations|)
        case None => RadiusTooSmall
        case Some(ds) => Rendered(Assemble(center, ps, radius, marks, ds))
  }

  /** get_svg, on the hour lines and the center of a sundial description. */
  function SvgOf(t: Trig, hourLines: Option<seq<HourLine>>, center: Point, radius: Option<real>): Svg
  {
    if hourLines.None? then NoHourLines else Render(t, Pruned(t, hourLines.value, radius), center, radius)
  }

  /** The box the frame shows. */
  function View(f: Frame): Box
  {
    Box(f.minx, f.miny, f.maxx, f.maxy)
  }

  /** The frame of a box with its sides in order holds the box and has non-negative sizes. */
  lemma FrameHolds(b: Box)
    requires b.minx <= b.maxx && b.miny <= b.maxy
    ensures Encloses(View(FrameOf(b)), b) && FrameOf(b).width >= 0.0 && FrameOf(b).height >= 0.0
  {
    ProductNonneg(b.maxx - b.minx, ScaleFactor);
    ProductNonneg(b.maxy - b.miny, ScaleFactor);
  }

  /** What a box holds, a box enclosing it holds too. */
  lemma EnclosedPoints(b: Box, c: Box, qs: seq<Point>)
    requires Encloses(b, c) && forall q :: q in qs ==> InBox(c, q)
    ensures forall q :: q in qs ==> InBox(b, q)
  {
  }

  /** The anchor of a label. */
  function Anchor(l: Label): Point
  {
    Point(l.x, l.y)
  }

  /** What a box holds of the labels, a box enclosing it holds too. */
  lemma EnclosedAnchors(b: Box, c: Box, ls: seq<Label>)
    requires Encloses(b, c) && forall l :: l in ls ==> InBox(c, Anchor(l))
    ensures forall l :: l in ls ==> InBox(b, Anchor(l))
  {
  }

  /** The box after the texts holds the anchor of every label of hours_t. */
  lemma LabelsAnchored(b: Box, marks: seq<Mark>, fontSize: real)
    requires fontSize >= 0.0
    ensures forall l :: l in Labels(marks, fontSize) ==> InBox(LabelsBox(b, marks, fontSize), Anchor(l))
  {
    LabelsInBox(b, marks, fontSize);
  }

  /** The frame holds every point, every label anchor and, with max_radius, the square [-r, r]^2. */
  lemma AssembleFrames(center: Point, ps: seq<Point>, radius: Option<real>, marks: seq<Mark>, ds: seq<DeclLine>)
    requires |ps| > 0
    ensures var dr := Assemble(center, ps, radius, marks, ds); var view := View(dr.frame);
      (forall q :: q in dr.points ==> InBox(view, q))
      && (forall l :: l in dr.labels ==> InBox(view, Anchor(l)))
      && (radius.Some? ==> view.minx <= -radius.value && view.miny <= -radius.value
                           && radius.value <= view.maxx && radius.value <= view.maxy)
      && dr.frame.width >= 0.0 && dr.frame.height >= 0.0
  {
    var box := PointsBox(ps, radius);
    assert InBox(BoxOf(ps), ps[0]);
    assert forall q :: q in ps ==> InBox(box, q);
    var fs := FontSize(box);
    LabelsInBox(box, marks, fs);
    LabelsAnchored(box, marks, fs);
    var big := LabelsBox(box, marks, fs);
    FrameHolds(big);
    var view := View(FrameOf(big));
    EnclosedPoints(big, box, ps);
    EnclosedPoints(view, big, ps);
    EnclosedAnchors(view, big, Labels(marks, fs));
  }

  /** The drawing get_svg renders is an assembled one, so its frame holds all it shows. */
  lemma DrawingFrames(t: Trig, lines: seq<HourLine>, center: Point, radius: Option<real>)
    requires Render(t, lines, center, radius).Rendered?
    ensures var dr := Render(t, lines, center, radius).drawing; var view := View(dr.frame);
      (forall q :: q in dr.points ==> InBox(view, q))
      && (forall l :: l in dr.labels ==> InBox(view, Anchor(l)))
      && (radius.Some? ==> view.minx <= -radius.value && view.miny <= -radius.value
                           && radius.value <= view.maxx && radius.value <= view.maxy)
  {
    var dr := Render(t, lines, center, radius).drawing;
    AssembleFrames(center, Points(lines), radius, dr.marks, dr.decls);
  }

  /**
   * With max_radius and a valid sqrt: every point lies within the radius, and the hour marks and the
   * outer ends of the declination lines lie on the circle.
   */
  lemma DrawingOnCircle(t: Trig, lines: seq<HourLine>, center: Point, r: real)
    requires SqrtValid(t) && Render(t, Pruned(t, lines, Some(r)), center, Some(r)).Rendered?
    ensures var dr := Render(t, Pruned(t, lines, Some(r)), center, Some(r)).drawing;
      (forall q :: q in dr.points ==> Dist(t, q) <= r)
      && (forall m :: m in dr.marks ==> Modulus(m.p) == r * r)
      && (forall x :: x in dr.decls ==>
            |x.segs| >= 3 && Modulus(x.segs[0].a) == r * r && Modulus(x.segs[|x.segs| - 1].b) == r * r)
  {
    var ps := Pruned(t, lines, Some(r));
    PrunedWithin(t, lines, r);
    PointsWithin(t, ps, r);
    PushMarksOnCircle(t, MarksUpTo(t, ps, |ps|), Flip(center), r);
    DeclsOnCircle(t, ps, r);
  }

  /** The y-flipped points of lines that lie within r of the origin lie within r too. */
  lemma PointsWithin(t: Trig, ps: seq<HourLine>, r: real)
    requires AllWithin(t, ps, r)
    ensures forall q :: q in Points(ps) ==> Dist(t, q) <= r
  {
    forall q | q in Points(ps)
      ensures Dist(t, q) <= r
    {
      PointsMembers(ps, q);
      var i, j :| 0 <= i < |ps| && 0 <= j < |ps[i]| && q == Flip(ps[i][j].p);
      assert ps[i][j] in ps[i];
      DistFlip(t, ps[i][j].p);
    }
  }

  /** With max_radius every declination line has at least three segments, both outer ends on the circle. */
  lemma DeclsOnCircle(t: Trig, ps: seq<HourLine>, r: real)
    requires SqrtValid(t) && DeclLinesUpTo(t, ps, Some(r), Declinations, |Declinations|).Some?
    ensures forall x :: x in DeclLinesUpTo(t, ps, Some(r), Declinations, |Declinations|).value ==>
      |x.segs| >= 3 && Modulus(x.segs[0].a) == r * r && Modulus(x.segs[|x.segs| - 1].b) == r * r
  {
    DeclinationsIncreasing();
    DeclLinesConnected(t, ps, r, Declinations, |Declinations|);
    KeptOnCircle(t, ps, r, DeclLinesUpTo(t, ps, Some(r), Declinations, |Declinations|).value);
  }

  /** Kept declination lines have at least three segments, both outer ends on the circle. */
  lemma KeptOnCircle(t: Trig, ps: seq<HourLine>, r: real, ds: seq<DeclLine>)
    requires SqrtValid(t) && forall i :: 0 <= i < |ds| ==> Kept(t, ps, r, ds[i])
    ensures forall x :: x in ds ==>
      |x.segs| >= 3 && Modulus(x.segs[0].a) == r * r && Modulus(x.segs[|x.segs| - 1].b) == r * r
  {
    forall x | x in ds
      ensures |x.segs| >= 3 && Modulus(x.segs[0].a) == r * r && Modulus(x.segs[|x.segs| - 1].b) == r * r
    {
      var i :| 0 <= i < |ds| && ds[i] == x;
      assert Kept(t, ps, r, ds[i]);
      ConnectedOnCircle(t, Segments(Occurrences(ps, x.decl)), r);
    }
  }

  /**
   * get_svg never exits on a small radius when the sundial's center lies within it and sqrt is valid:
   * the pruned points and the center are then all inside the circle.
   */
  lemma NeverTooSmall(t: Trig, lines: seq<HourLine>, center: Point, r: real)
    requires SqrtValid(t) && Modulus(center) <= r * r
    ensures Render(t, Pruned(t, lines, Some(r)), center, Some(r)) != RadiusTooSmall
  {
    var ps := Pruned(t, lines, Some(r));
    PrunedWithin(t, lines, r);
    assert Modulus(Flip(center)) == Modulus(center) by {
      assert (-center.y) * (-center.y) == center.y * center.y;
    }
    PushMarksDefined(t, MarksUpTo(t, ps, |ps|), Flip(center), r);
    DeclLinesDefined(t, ps, r, Declinations, |Declinations|);
  }

  /** There are no points, and so the ValueError, exactly when every pruned hour line is empty. */
  lemma {:induction false} NoPointsExactly(lines: seq<HourLine>)
    ensures |Points(lines)| == 0 <==> forall i :: 0 <= i < |lines| ==> |lines[i]| == 0
  {
    if |lines| > 0 {
      var n := |lines| - 1;
      NoPointsExactly(lines[..n]);
      assert forall i :: 0 <= i < n ==> lines[..n][i] == lines[i];
    }
  }

  /** temporary bounding box of the points and font_size. */
  method TemporaryBox(points: seq<Point>, maxRadius: Option<real>) returns (box: Box, fontSize: real)
    requires |points| > 0
    ensures box == PointsBox(points, maxRadius) && fontSize == FontSize(box)
  {
    box := BoxOf(points);
    if maxRadius.Some? {
      var r := maxRadius.value;
      box := Box(Min(box.minx, -r), Min(box.miny, -r), Max(box.maxx, r), Max(box.maxy, r));
    }
    var scaleFactor := 1.1;
    if scaleFactor < 1.0 {
      scaleFactor := 1.1;
    }
    assert scaleFactor == ScaleFactor;
    var height := box.maxy - box.miny;
    fontSize := height * scaleFactor / 8.0 / 5.0;
  }

  /** The final bounding box computation and arrow_shape. */
  method FinalFrame(b: Box) returns (frame: Frame)
    ensures frame == FrameOf(b)
  {
    var width, height := b.maxx - b.minx, b.maxy - b.miny;
    var widthScaled, heightScaled := width * ScaleFactor, height * ScaleFactor;
    var xOffset, yOffset := (widthScaled - width) / 2.0, (heightScaled - height) / 2.0;
    frame := Frame(b.minx - xOffset, b.miny - yOffset, b.maxx + xOffset, b.maxy + yOffset,
                   widthScaled, heightScaled, Min(width, height) / 100.0);
  }

  /** get_svg after the pruning, in the order of its steps. */
  method Draw(t: Trig, lines: seq<HourLine>, center: Point, maxRadius: Option<real>) returns (svg: Svg)
    ensures svg == Render(t, lines, center, maxRadius)
  {
    var points := CollectPoints(lines);
    if |points| == 0 {
      return NoPoints;
    }
    var box, fontSize := TemporaryBox(points, maxRadius);
    var marks := HourMarks(t, lines);
    if maxRadius.Some? {
      var pushed := PushAll(t, marks, Flip(center), maxRadius.value);
      if pushed.None? {
        return RadiusTooSmall;
      }
      marks := pushed.value;
    }
    assert PushedMarks(t, MarksUpTo(t, lines, |lines|), Flip(center), maxRadius) == Some(marks);
    var labels, bigBox := PlaceLabels(marks, fontSize, box);
    var decls := DeclinationLines(t, lines, maxRadius);
    if decls.None? {
      return RadiusTooSmall;
    }
    var frame := FinalFrame(bigBox);
    svg := Rendered(Drawing(Flip(center), frame, points, marks, decls.value, labels, maxRadius, fontSize));
    assert svg == Rendered(Assemble(center, points, maxRadius, marks, decls.value));
  }

  /**
   * The hour lines compute_hour_lines stores have distinct keys, their declinations increasing, so a
   * description built from them is valid.
   */
  lemma ComputedLinesDistinct(t: Trig, d: Dial, n: nat)
    requires t.pi > 0.0
    ensures forall i :: 0 <= i < |HourLinesUpTo(t, d, n).lines| ==> DistinctKeys(HourLinesUpTo(t, d, n).lines[i])
  {
    HourLinesOrdered(t, d, n);
    var lines := HourLinesUpTo(t, d, n).lines;
    forall i | 0 <= i < |lines|
      ensures DistinctKeys(lines[i])
    {
      assert LineAt(t, d, HourAngle(i - 12, d.l)) == Some(lines[i]);
      LineUpToSorted(t, d, HourAngle(i - 12, d.l), |Declinations|);
    }
  }

  /** The hour lines of a sundial description, in the dict that get_svg prunes in place. */
  class Description {
    var hourLines: Option<seq<HourLine>>
    var center: Point

    /** Every hour line is a dict: its keys are distinct. */
    predicate Valid()
      reads this
    {
      hourLines.Some? ==> forall i :: 0 <= i < |hourLines.value| ==> DistinctKeys(hourLines.value[i])
    }

    constructor (hourLines: Option<seq<HourLine>>, center: Point)
      requires hourLines.Some? ==> forall i :: 0 <= i < |hourLines.value| ==> DistinctKeys(hourLines.value[i])
      ensures Valid() && this.hourLines == hourLines && this.center == center
    {
      this.hourLines := hourLines;
      this.center := center;
    }

    /** The first loop of get_svg: each hour line loses, in place, its points beyond the radius. */
    method Prune(t: Trig, r: real)
      requires Valid() && hourLines.Some?
      modifies this
      ensures Valid() && center == old(center)
      ensures hourLines == Some(Pruned(t, old(hourLines).value, Some(r)))
    {
      var lines := hourLines.value;
      var i := 0;
      while i < |lines|
        invariant 0 <= i <= |lines| && center == old(center) && hourLines.Some?
        invariant |hourLines.value| == |lines|
        invariant forall j :: 0 <= j < i ==> hourLines.value[j] == Inside(t, lines[j], r)
        invariant forall j :: i <= j < |lines| ==> hourLines.value[j] == lines[j]
      {
        var pruned := PruneLine(t, lines[i], r);
        hourLines := Some(hourLines.value[i := pruned]);
        i := i + 1;
      }
      assert hourLines.value == Pruned(t, lines, Some(r));
      PrunedWithin(t, lines, r);
    }

    /**
     * get_svg: the description's hour lines are left pruned, and the result is the one SvgOf
     * describes.
     */
    method GetSvg(t: Trig, maxRadius: Option<real>) returns (svg: Svg)
      requires Valid()
      modifies this
      ensures Valid() && center == old(center)
      ensures hourLines == if old(hourLines).None? then None else Some(Pruned(t, old(hourLines).value, maxRadius))
      ensures svg == SvgOf(t, old(hourLines), old(center), maxRadius)
    {
      if hourLines.None? {
        return NoHourLines;
      }
      if maxRadius.Some? {
        Prune(t, maxRadius.value);
      }
      svg := Draw(t, hourLines.value, center, maxRadius);
    }
  }
}
