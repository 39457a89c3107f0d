/** The floating-point library the animations call (Math.sin, Math.cos, Math.sqrt, and
    the golden-spiral sphere placement built from them).  The model never evaluates a
    transcendental function: each is a function value supplied by the host, and every
    lemma states the few facts about it that it relies on. */
module HostMath {

  datatype Vec3 = Vec3(x: real, y: real, z: real)

  datatype Host = Host(
    sin: real -> real,
    cos: real -> real,
    sqrt: real -> real,
    pi: real,
    /** The wobbled, renormalised unit vector of sub-slot `i` at time `t`
        (BackgroundParticles.tsx lines 537-560). */
    spherePoint: (int, real) -> Vec3)

  /** |sin t| <= 1 and |cos t| <= 1 everywhere. */
  ghost predicate SinCosBounded(h: Host) {
    forall t :: -1.0 <= h.sin(t) <= 1.0 && -1.0 <= h.cos(t) <= 1.0
  }

  /** `sqrt` is the square root on the non-negative reals: non-negative, squaring back
      to its argument, and positive on positive arguments. */
  ghost predicate IsSqrt(h: Host) {
    forall v :: 0.0 <= v ==>
      0.0 <= h.sqrt(v) && h.sqrt(v) * h.sqrt(v) == v && (v > 0.0 ==> h.sqrt(v) > 0.0)
  }

  function Abs(x: real): real { if x < 0.0 then -x else x }

  function Min(a: real, b: real): real { if a <= b then a else b }

  function Max(a: real, b: real): real { if a >= b then a else b }

  /** Planar rotation of (a, b) by the angle whose cosine is `c` and sine is `s`:
      (a cos - b sin, a sin + b cos). */
  function Rotate(a: real, b: real, c: real, s: real): (real, real) {
    (a * c - b * s, a * s + b * c)
  }

  /** A rotation scales the squared length by c^2 + s^2, so it keeps the length
      whenever (c, s) lies on the unit circle. */
  lemma RotateScalesNorm(a: real, b: real, c: real, s: real)
    ensures var r := Rotate(a, b, c, s);
      r.0 * r.0 + r.1 * r.1 == (c * c + s * s) * (a * a + b * b)
  {
    var r := Rotate(a, b, c, s);
    calc {
      r.0 * r.0 + r.1 * r.1;
      (a * c - b * s) * (a * c - b * s) + (a * s + b * c) * (a * s + b * c);
      a * a * (c * c + s * s) + b * b * (c * c + s * s);
      (c * c + s * s) * (a * a + b * b);
    }
  }

  // ---------------------------------------------------------------------------
  // Real arithmetic used by the geometry lemmas

  lemma ZeroFactor(a: real, b: real)
    requires a * b == 0.0 && b != 0.0
    ensures a == 0.0
  {
  }

  lemma PosProduct(a: real, b: real)
    requires a > 0.0 && b > 0.0
    ensures a * b > 0.0
  {
  }

  lemma SquareZero(x: real)
    requires x * x == 0.0
    ensures x == 0.0
  {
    if x != 0.0 {
      ZeroFactor(x, x);
    }
  }

  lemma SquarePos(x: real)
    requires x != 0.0
    ensures x * x > 0.0
  {
    if x > 0.0 {
      PosProduct(x, x);
    } else {
      PosProduct(-x, -x);
    }
  }

  /** A sum of two squares is non-negative, and positive unless both terms are zero. */
  lemma SumSquaresPos(dx: real, dy: real)
    ensures 0.0 <= dx * dx + dy * dy
    ensures dx != 0.0 || dy != 0.0 ==> dx * dx + dy * dy > 0.0
  {
    if dx != 0.0 {
      SquarePos(dx);
    }
    if dy != 0.0 {
      SquarePos(dy);
    }
  }

  /** `sqrt` is zero exactly at zero. */
  lemma SqrtOfZero(h: Host)
    requires IsSqrt(h)
    ensures h.sqrt(0.0) == 0.0
  {
    assert h.sqrt(0.0) * h.sqrt(0.0) == 0.0;
    SquareZero(h.sqrt(0.0));
  }

  lemma ProductSign(a: real, n: real)
    requires n > 0.0 && a * n >= 0.0
    ensures a >= 0.0
  {
  }

  /** Dividing by a positive count keeps a sum's per-item bounds. */
  lemma DivideBounds(sum: real, n: real, lo: real, hi: real)
    requires n > 0.0 && n * lo <= sum <= n * hi
    ensures lo <= sum / n <= hi
  {
    var q := sum / n;
    assert q * n == sum;
    assert (q - lo) * n == sum - n * lo;
    ProductSign(q - lo, n);
    assert (hi - q) * n == n * hi - sum;
    ProductSign(hi - q, n);
  }

  lemma ScaledSquare(q: real, len: real, d: real)
    requires q * len == d
    ensures (q * q) * (len * len) == d * d
  {
    assert (q * q) * (len * len) == (q * len) * (q * len);
  }

  /** (dx, dy) divided by its length is a unit vector. */
  lemma UnitVector(dx: real, dy: real, len: real)
    requires len != 0.0 && len * len == dx * dx + dy * dy
    ensures (dx / len) * (dx / len) + (dy / len) * (dy / len) == 1.0
  {
    var q, r := dx / len, dy / len;
    ScaledSquare(q, len, dx);
    ScaledSquare(r, len, dy);
    var p := q * q + r * r - 1.0;
    assert (p * len) * len == 0.0;
    ZeroFactor(p * len, len);
    ZeroFactor(p, len);
  }
}
