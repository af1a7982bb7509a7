/**
 * meeus/C/lib/util.c: polynomial evaluation, the number of Julian centuries
 * since J2000.0, range reduction and the splitting of seconds into hours,
 * minutes and seconds. Also the C semantics of integer division, integer
 * remainder, `(int)` casts and `fmod`, which the other modules share.
 */
module Util {
  import opened Units

  // ---------------------------------------------------------------------
  // C arithmetic
  // ---------------------------------------------------------------------

  /** The C cast `(int) x` of a double: truncation toward zero. */
  function Trunc(x: real): int
  {
    if x >= 0.0 then x.Floor else -((-x).Floor)
  }

  /** Truncation drops the fraction: it rounds down above zero and up below. */
  lemma TruncBounds(x: real)
    ensures x >= 0.0 ==> Trunc(x) >= 0 && Trunc(x) as real <= x < Trunc(x) as real + 1.0
    ensures x < 0.0 ==> Trunc(x) <= 0 && Trunc(x) as real - 1.0 < x <= Trunc(x) as real
    ensures Trunc(-x) == -Trunc(x)
  {
  }

  /**
   * C integer division, which truncates toward zero. Every divisor in the
   * library is a positive constant, so only those are modelled.
   */
  function CDiv(a: int, b: int): int
    requires b > 0
  {
    if a >= 0 then a / b else -((-a) / b)
  }

  /** C integer remainder: its sign is that of the dividend. */
  function CMod(a: int, b: int): int
    requires b > 0
  {
    a - b * CDiv(a, b)
  }

  /**
   * C division and remainder: the quotient truncates toward zero, the
   * remainder makes up the dividend, and both agree with the Euclidean
   * ones on a non-negative dividend.
   */
  lemma CDivCMod(a: int, b: int)
    requires b > 0
    ensures a == b * CDiv(a, b) + CMod(a, b)
    ensures a >= 0 ==> CDiv(a, b) == a / b && CMod(a, b) == a % b
    ensures a < 0 ==> CDiv(a, b) == -((-a) / b) && -b < CMod(a, b) <= 0
  {
  }

  /** The C quotient and remainder of a non-negative dividend, from any pair that fits. */
  lemma CDivOf(x: int, n: int, q: int, r: int)
    requires n > 0 && x >= 0 && x == n * q + r && 0 <= r < n
    ensures CDiv(x, n) == q && CMod(x, n) == r
  {
    CDivCMod(x, n);
    ZeroFactor(n, q - x / n);
  }

  lemma ZeroFactor(n: int, t: int)
    requires n > 0 && -n < n * t < n
    ensures t == 0
  {
  }

  /**
   * For the divisors the sources test against, a zero C remainder is a zero
   * Euclidean remainder, so `x % n == 0` means "n divides x" in both.
   */
  lemma CModZero(a: int)
    ensures CMod(a, 4) == 0 <==> a % 4 == 0
    ensures CMod(a, 100) == 0 <==> a % 100 == 0
    ensures CMod(a, 400) == 0 <==> a % 400 == 0
  {
    CModZeroOf(a, 4);
    CModZeroOf(a, 100);
    CModZeroOf(a, 400);
  }

  lemma CModZeroOf(a: int, n: int)
    requires n > 0
    ensures CMod(a, n) == 0 <==> a % n == 0
  {
    CDivCMod(a, n);
    if a < 0 {
      var q, r := (-a) / n, (-a) % n;
      assert CMod(a, n) == -r;
      if r == 0 {
        EuclidOf(a, n, -q, 0);
      } else {
        EuclidOf(a, n, -q - 1, n - r);
      }
    }
  }

  /** The Euclidean quotient and remainder of x by n, from any pair that fits. */
  lemma EuclidOf(x: int, n: int, q: int, r: int)
    requires n > 0 && x == n * q + r && 0 <= r < n
    ensures x / n == q && x % n == r
  {
    ZeroFactor(n, q - x / n);
  }

  /** C fmod: the remainder of v / mod whose sign is that of v. */
  function Fmod(v: real, mod: real): (r: real)
    requires mod != 0.0
  {
    v - mod * Trunc(v / mod) as real
  }

  /** C fabs. */
  function Abs(x: real): real
  {
    if x < 0.0 then -x else x
  }

  /** Adding a * w with |w| <= 1 to a sum bounded by b gives one bounded by b + |a|. */
  lemma TermBound(s: real, b: real, a: real, w: real)
    requires Abs(s) <= b && -1.0 <= w <= 1.0
    ensures Abs(s + a * w) <= b + Abs(a)
  {
    var m := if a >= 0.0 then a else -a;
    ProductNonneg(m, 1.0 - w);
    ProductNonneg(m, 1.0 + w);
    assert m * (1.0 - w) == m - m * w && m * (1.0 + w) == m + m * w;
  }

  lemma ProductNonneg(x: real, y: real)
    requires x >= 0.0 && y >= 0.0
    ensures x * y >= 0.0
  {
  }

  lemma DivMul(n: real, d: real)
    requires d != 0.0
    ensures (n / d) * d == n
  {
  }

  lemma ProductPos(x: real, y: real)
    requires x > 0.0 && y > 0.0
    ensures x * y > 0.0
  {
  }

  /** |x * p| <= m * |p| when |x| <= m. */
  lemma ScaledBound(x: real, m: real, p: real)
    requires Abs(x) <= m
    ensures Abs(x * p) <= m * Abs(p)
  {
    var ax := if x >= 0.0 then x else -x;
    var ap := if p >= 0.0 then p else -p;
    ProductNonneg(m - ax, ap);
    assert Abs(x * p) == ax * ap;
  }

  /** The triangle inequality. */
  lemma AbsAdd(x: real, y: real)
    ensures Abs(x + y) <= Abs(x) + Abs(y)
  {
  }

  // ---------------------------------------------------------------------
  // polynom
  // ---------------------------------------------------------------------

  function Pow(v: real, n: nat): real
  {
    if n == 0 then 1.0 else v * Pow(v, n - 1)
  }

  /** A power of a number in [-1, 1] stays in [-1, 1]. */
  lemma {:induction false} PowAtMostOne(v: real, n: nat)
    requires Abs(v) <= 1.0
    ensures Abs(Pow(v, n)) <= 1.0
  {
    if n > 0 {
      var p := Pow(v, n - 1);
      PowAtMostOne(v, n - 1);
      AbsMul(v, p);
      ProductNonneg(1.0 - Abs(v), Abs(p));
      assert Pow(v, n) == v * p;
      assert Abs(v) * Abs(p) <= Abs(p);
    }
  }

  /** Exponents add: v^(m + n) = v^m v^n. */
  lemma {:induction false} PowAdd(v: real, m: nat, n: nat)
    ensures Pow(v, m + n) == Pow(v, m) * Pow(v, n)
  {
    if m > 0 {
      PowAdd(v, m - 1, n);
      assert Pow(v, m + n) == v * Pow(v, m - 1 + n);
    }
  }

  lemma AbsMul(x: real, y: real)
    ensures Abs(x * y) == Abs(x) * Abs(y)
  {
    if x < 0.0 && y < 0.0 {
      assert x * y == (-x) * (-y);
    } else if x < 0.0 {
      assert x * y == -((-x) * y);
    } else if y < 0.0 {
      assert x * y == -(x * (-y));
    }
  }

  /** Σ c[i]·v^i for i from k up to |c| - 1. */
  function SumFrom(c: seq<real>, v: real, k: nat): real
    requires k <= |c|
    decreases |c| - k
  {
    if k == |c| then 0.0 else c[k] * Pow(v, k) + SumFrom(c, v, k + 1)
  }

  /** The polynomial with coefficients c, lowest degree first: Σ c[i]·v^i. */
  function PowerSum(c: seq<real>, v: real): real
  {
    SumFrom(c, v, 0)
  }

  lemma {:induction false} SumFromShift(c: seq<real>, v: real, k: nat)
    requires 0 < |c| && k < |c|
    ensures SumFrom(c, v, k + 1) == v * SumFrom(c[1..], v, k)
    decreases |c| - k
  {
    if k + 1 == |c| {
    } else {
      SumFromShift(c, v, k + 1);
      assert c[1..][k] == c[k + 1];
      calc {
        SumFrom(c, v, k + 1);
        c[k + 1] * Pow(v, k + 1) + SumFrom(c, v, k + 2);
        c[k + 1] * (v * Pow(v, k)) + v * SumFrom(c[1..], v, k + 1);
        v * (c[1..][k] * Pow(v, k) + SumFrom(c[1..], v, k + 1));
        v * SumFrom(c[1..], v, k);
      }
    }
  }

  /**
   * The value that polynom's Horner loop computes over all of c, the form
   * used by the pure functions of the other modules.
   */
  function PolyValue(c: seq<real>, v: real): (r: real)
    ensures r == PowerSum(c, v)
  {
    if |c| == 0 then 0.0
    else
      SumFromShift(c, v, 0);
      c[0] + v * PolyValue(c[1..], v)
  }

  /** c0 + c1 v + c2 v^2. */
  function Quadratic(c: seq<real>, v: real): real
    requires |c| == 3
  {
    c[0] + c[1] * v + c[2] * v * v
  }

  /** A Horner polynomial with three coefficients is the quadratic in expanded form. */
  lemma QuadraticValue(c: seq<real>, v: real)
    requires |c| == 3
    ensures PolyValue(c, v) == Quadratic(c, v)
  {
    var c1 := c[1..];
    var c2 := c1[1..];
    assert c2[1..] == [] && c2[0] == c[2];
    assert PolyValue(c2[1..], v) == 0.0;
    assert PolyValue(c2, v) == c2[0] + v * 0.0;
    assert PolyValue(c2, v) == c[2];
    assert PolyValue(c1, v) == c[1] + v * c[2];
  }

  /**
   * polynom(coef, v, order): Horner's rule from coef[order] down to coef[0].
   * It returns Σ coef[i]·v^i over i = 0..order and reads nothing past coef[order].
   */
  method Polynom(coef: seq<real>, v: real, order: nat) returns (res: real)
    requires order < |coef|
    ensures res == PowerSum(coef[..order + 1], v)
  {
    ghost var c := coef[..order + 1];
    res := 0.0;
    var i: int := order;
    while i >= 0
      invariant -1 <= i <= order
      invariant res == PolyValue(c[i + 1..], v)
    {
      assert c[i..][1..] == c[i + 1..];
      res := res * v + coef[i];
      i := i - 1;
    }
    assert c[0..] == c;
  }

  /** polynom at v = 0 is its constant coefficient. */
  lemma PolynomAtZero(c: seq<real>)
    requires |c| > 0
    ensures PowerSum(c, 0.0) == c[0]
  {
    assert PolyValue(c, 0.0) == c[0] + 0.0 * PolyValue(c[1..], 0.0);
  }

  // ---------------------------------------------------------------------
  // get_century_since_j2000, rerange, s_to_hms
  // ---------------------------------------------------------------------

  /** Julian centuries of 36525 days since JD 2451545.0 (J2000.0). */
  function Century(jd: real): (T: real)
    ensures jd == 2451545.0 + 36525.0 * T
    ensures jd == 2451545.0 ==> T == 0.0
  {
    (jd - 2451545.0) / 36525.0
  }

  lemma FloorAddInt(n: int, x: real)
    ensures (n as real + x).Floor == n + x.Floor
  {
  }

  /**
   * rerange(v, mod): fmod, then mod is added to a negative result. For
   * mod > 0 this is the floored modulo: in [0, mod), and v minus an integer
   * multiple of mod.
   */
  function Rerange(v: real, mod: real): (r: real)
    requires mod > 0.0
    ensures 0.0 <= r < mod
    ensures r == FloorMod(v, mod)
  {
    var res := Fmod(v, mod);
    RerangeCases(v, mod);
    if res < 0.0 then res + mod else res
  }

  lemma FractionScaled(m: real, x: real)
    requires m > 0.0 && 0.0 <= x < 1.0
    ensures 0.0 <= m * x < m
  {
  }

  lemma RerangeCases(v: real, mod: real)
    requires mod > 0.0
    ensures var r0 := v - mod * (v / mod).Floor as real;
      0.0 <= r0 < mod
      && (Fmod(v, mod) < 0.0 ==> Fmod(v, mod) + mod == r0)
      && (Fmod(v, mod) >= 0.0 ==> Fmod(v, mod) == r0)
  {
    var q := v / mod;
    var f := q.Floor;
    var x := q - f as real;
    var r0 := v - mod * f as real;
    assert v == mod * q;
    assert r0 == mod * x;
    FractionScaled(mod, x);
    assert 0.0 <= r0 < mod;
    if q >= 0.0 {
      assert Trunc(q) == f;
    } else if x == 0.0 {
      assert Trunc(q) == f;
    } else {
      assert Trunc(q) == f + 1;
      assert Fmod(v, mod) == mod * x - mod;
    }
  }

  /** rerange is the identity on [0, mod). */
  lemma RerangeIdentity(v: real, mod: real)
    requires mod > 0.0 && 0.0 <= v < mod
    ensures Rerange(v, mod) == v
  {
    var q := v / mod;
    assert v == mod * q;
    if q >= 1.0 {
      assert false;
    }
    assert q.Floor == 0;
  }

  /** Adding whole periods does not change the reduced value. */
  lemma RerangePeriodic(v: real, mod: real, k: int)
    requires mod > 0.0
    ensures Rerange(v + k as real * mod, mod) == Rerange(v, mod)
  {
    FloorModPeriodic(v, mod, k);
  }

  /** The floored modulo: v less the whole multiples of mod below it. */
  function FloorMod(v: real, mod: real): real
    requires mod > 0.0
  {
    v - mod * (v / mod).Floor as real
  }

  lemma FloorModPeriodic(v: real, mod: real, k: int)
    requires mod > 0.0
    ensures FloorMod(v + k as real * mod, mod) == FloorMod(v, mod)
  {
    var q, w := v / mod, v + k as real * mod;
    assert w / mod == k as real + q by {
      assert w == mod * (k as real + q);
    }
    FloorAddInt(k, q);
    var f := q.Floor;
    assert w - mod * (k + f) as real == v - mod * f as real by {
      assert (k + f) as real == k as real + f as real;
    }
  }

  /** rerange removes a whole number of turns: (v - rerange(v, mod)) / mod is an integer. */
  lemma RerangeTurns(v: real, mod: real)
    requires mod > 0.0
    ensures (v - Rerange(v, mod)) / mod == (v / mod).Floor as real
  {
    var k := (v / mod).Floor as real;
    assert v - Rerange(v, mod) == mod * k;
  }

  /** rerange is idempotent. */
  lemma RerangeIdempotent(v: real, mod: real)
    requires mod > 0.0
    ensures Rerange(Rerange(v, mod), mod) == Rerange(v, mod)
  {
    RerangeIdentity(Rerange(v, mod), mod);
  }

  /**
   * s_to_hms: hours by truncation, minutes from fmod(seconds, 3600) and
   * seconds from fmod(seconds, 60).
   */
  function SToHms(seconds: real): (hms: (int, int, real))
    ensures seconds >= 0.0 ==>
      hms.0 >= 0 && 0 <= hms.1 < 60 && 0.0 <= hms.2 < 60.0
      && HmsToS(hms.0 as real, hms.1 as real, hms.2) == seconds
  {
    var h := Trunc(seconds / 3600.0);
    var m := Trunc(Fmod(seconds, 3600.0) / 60.0);
    var s := Fmod(seconds, 60.0);
    if seconds >= 0.0 then
      SToHmsSplit(seconds);
      (h, m, s)
    else
      (h, m, s)
  }

  lemma SToHmsSplit(seconds: real)
    requires seconds >= 0.0
    ensures var h, r1 := Trunc(seconds / 3600.0), Fmod(seconds, 3600.0);
      var m, s := Trunc(r1 / 60.0), Fmod(seconds, 60.0);
      0.0 <= r1 < 3600.0 && 0 <= m < 60 && 0.0 <= s < 60.0
      && h as real * 3600.0 + m as real * 60.0 + s == seconds
  {
    var h := Trunc(seconds / 3600.0);
    var r1 := Fmod(seconds, 3600.0);
    assert r1 == seconds - 3600.0 * h as real;
    var m := Trunc(r1 / 60.0);
    assert seconds / 60.0 == (60 * h) as real + r1 / 60.0;
    FloorAddInt(60 * h, r1 / 60.0);
    assert Trunc(seconds / 60.0) == 60 * h + m;
  }
}
