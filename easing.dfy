/** The easing polynomials written inline at the animation call sites, and the
    clamped linear interpolation that remotion's `interpolate` and
    framer-motion's `useTransform` perform there. */
module Easing {

  /** `v` lies between `a` and `b`, whichever of the two is larger. */
  predicate Between(v: real, a: real, b: real) {
    if a <= b then a <= v <= b else b <= v <= a
  }

  lemma {:induction false} SquareMonotone(a: real, b: real)
    requires 0.0 <= a <= b
    ensures a * a <= b * b
  {
    assert a * a <= a * b;
    assert a * b <= b * b;
  }

  lemma {:induction false} MulLeft(a: real, b: real, c: real)
    requires 0.0 <= a && b <= c
    ensures a * b <= a * c
  {
  }

  lemma {:induction false} MulRight(a: real, b: real, c: real)
    requires a <= b && 0.0 <= c
    ensures a * c <= b * c
  {
  }

  lemma {:induction false} MulRightStrict(a: real, b: real, c: real)
    requires a < b && 0.0 < c
    ensures a * c < b * c
  {
  }

  lemma {:induction false} MulRightNonpos(a: real, b: real, c: real)
    requires a <= b && c <= 0.0
    ensures b * c <= a * c
  {
    MulRight(a, b, -c);
  }

  /** `o + t * d` moves with `t` in the direction of `d`. */
  lemma {:induction false} AffineMonotone(o: real, t1: real, t2: real, d: real)
    requires t1 <= t2
    ensures 0.0 <= d ==> o + t1 * d <= o + t2 * d
    ensures d <= 0.0 ==> o + t2 * d <= o + t1 * d
  {
    if 0.0 <= d {
      MulRight(t1, t2, d);
    } else {
      MulRightNonpos(t1, t2, d);
    }
  }

  lemma {:induction false} AffineOrder(o: real, t1: real, t2: real, d: real, i1: real, i2: real)
    requires t1 <= t2 && i1 == o + t1 * d && i2 == o + t2 * d
    ensures 0.0 <= d ==> i1 <= i2
    ensures d <= 0.0 ==> i2 <= i1
  {
    AffineMonotone(o, t1, t2, d);
  }

  /** Scaling by a non-negative `m` keeps the order of `e1` and `e2`, and taking
      the larger share of `m` away leaves less; `v1` and `v2` name the values
      being compared. */
  lemma {:induction false} ScaledOrder(e1: real, e2: real, m: real, v1: real, v2: real)
    requires e1 <= e2 && 0.0 <= m && v1 == e1 * m && v2 == e2 * m
    ensures v1 <= v2
  {
    MulRight(e1, e2, m);
  }

  lemma {:induction false} ShareOrder(e1: real, e2: real, m: real, v1: real, v2: real)
    requires e1 <= e2 && 0.0 <= m && v1 == m - e1 * m && v2 == m - e2 * m
    ensures v2 <= v1
  {
    MulRight(e1, e2, m);
  }

  lemma {:induction false} ComplementOrder(e1: real, e2: real, m: real, v1: real, v2: real)
    requires e1 <= e2 && 0.0 <= m && v1 == m * (1.0 - e1) && v2 == m * (1.0 - e2)
    ensures v2 <= v1
  {
    MulLeft(m, 1.0 - e2, 1.0 - e1);
  }

  lemma {:induction false} MulNonneg(a: real, b: real)
    requires 0.0 <= a && 0.0 <= b
    ensures 0.0 <= a * b
  {
  }

  lemma {:induction false} CubeMonotone(a: real, b: real)
    requires 0.0 <= a <= b
    ensures a * a * a <= b * b * b
  {
    SquareMonotone(a, b);
    assert a * a * a <= a * a * b;
    assert a * a * b <= b * b * b;
  }

  lemma {:induction false} CubeUnit(t: real)
    ensures 0.0 <= t <= 1.0 ==> 0.0 <= t * t * t <= 1.0
    ensures 0.0 <= t < 1.0 ==> t * t * t < 1.0
    ensures 0.0 < t <= 1.0 ==> 0.0 < t * t * t
  {
    if 0.0 <= t <= 1.0 {
      CubeMonotone(t, 1.0);
      CubeMonotone(0.0, t);
      if t < 1.0 {
        assert t * t <= t;
        assert t * t * t <= t * t;
      }
    }
  }

  lemma {:induction false} SquareUnit(t: real, bound: real)
    ensures 0.0 <= t <= bound ==> t * t <= bound * bound
  {
    if 0.0 <= t <= bound { SquareMonotone(t, bound); }
  }

  /** Ease-out cubic, `1 - (1 - t)^3`: fast start, gentle arrival. */
  function EaseOutCubic(t: real): (r: real)
    ensures 0.0 <= t <= 1.0 ==> 0.0 <= r <= 1.0
    ensures 0.0 <= t < 1.0 ==> r < 1.0
    ensures t == 0.0 ==> r == 0.0
    ensures t == 1.0 ==> r == 1.0
  {
    var u := 1.0 - t;
    CubeUnit(u);
    1.0 - u * u * u
  }

  /** Ease-in cubic, `t^3`: gentle start, fast arrival. */
  function EaseInCubic(t: real): (r: real)
    ensures 0.0 <= t <= 1.0 ==> 0.0 <= r <= 1.0
    ensures t == 0.0 ==> r == 0.0
    ensures t == 1.0 ==> r == 1.0
  {
    CubeUnit(t);
    t * t * t
  }

  /** Ease-in-out quadratic: `2t^2` below one half, `1 - (2 - 2t)^2 / 2` from
      one half on. */
  function EaseInOutQuad(t: real): (r: real)
    ensures 0.0 <= t <= 1.0 ==> 0.0 <= r <= 1.0
    ensures t == 0.0 ==> r == 0.0
    ensures t == 0.5 ==> r == 0.5
    ensures t == 1.0 ==> r == 1.0
  {
    if t < 0.5 then
      SquareUnit(t, 0.5);
      2.0 * t * t
    else
      var u := -2.0 * t + 2.0;
      SquareUnit(u, 1.0);
      1.0 - u * u / 2.0
  }

  lemma {:induction false} EaseOutCubicMonotone(t1: real, t2: real)
    requires 0.0 <= t1 <= t2 <= 1.0
    ensures EaseOutCubic(t1) <= EaseOutCubic(t2)
  {
    CubeMonotone(1.0 - t2, 1.0 - t1);
  }

  lemma {:induction false} EaseInCubicMonotone(t1: real, t2: real)
    requires 0.0 <= t1 <= t2
    ensures EaseInCubic(t1) <= EaseInCubic(t2)
  {
    CubeMonotone(t1, t2);
  }

  lemma {:induction false} EaseInOutQuadMonotone(t1: real, t2: real)
    requires 0.0 <= t1 <= t2 <= 1.0
    ensures EaseInOutQuad(t1) <= EaseInOutQuad(t2)
  {
    if t2 < 0.5 {
      SquareMonotone(t1, t2);
    } else if 0.5 <= t1 {
      SquareMonotone(-2.0 * t2 + 2.0, -2.0 * t1 + 2.0);
    } else {
      SquareMonotone(t1, 0.5);
      SquareMonotone(-2.0 * t2 + 2.0, 1.0);
    }
  }

  /** The two branches of `EaseInOutQuad` meet at one half, and the curve is
      continuous there: it moves away from one half at most twice as fast as
      its argument does. */
  lemma {:induction false} EaseInOutQuadContinuousAtHalf(t: real)
    requires 0.0 <= t <= 1.0
    ensures 2.0 * 0.5 * 0.5 == 1.0 - (-2.0 * 0.5 + 2.0) * (-2.0 * 0.5 + 2.0) / 2.0
    ensures t <= 0.5 ==> 0.0 <= 0.5 - EaseInOutQuad(t) <= 2.0 * (0.5 - t)
    ensures 0.5 <= t ==> 0.0 <= EaseInOutQuad(t) - 0.5 <= 2.0 * (t - 0.5)
  {
    if t < 0.5 {
      assert EaseInOutQuad(t) == 2.0 * t * t;
      assert 0.5 - 2.0 * t * t == 2.0 * (0.5 - t) * (0.5 + t);
      MulNonneg(0.5 - t, 0.5 + t);
      MulLeft(0.5 - t, 0.5 + t, 1.0);
    } else {
      var u := -2.0 * t + 2.0;
      assert EaseInOutQuad(t) == 1.0 - u * u / 2.0;
      assert 1.0 - u * u / 2.0 - 0.5 == 2.0 * (t - 0.5) * (1.5 - t);
      MulNonneg(t - 0.5, 1.5 - t);
      MulLeft(t - 0.5, 1.5 - t, 1.0);
    }
  }

  /** `Math.min` of two numbers. */
  function Min(a: real, b: real): (m: real)
    ensures m <= a && m <= b && (m == a || m == b)
  {
    if a <= b then a else b
  }

  /** The position of `x` within `[inMin, inMax]` as a fraction, after
      clamping `x` into that range. */
  function ClampedFraction(x: real, inMin: real, inMax: real): (t: real)
    requires inMin < inMax
    ensures 0.0 <= t <= 1.0
    ensures x <= inMin ==> t == 0.0
    ensures x >= inMax ==> t == 1.0
    ensures inMin <= x <= inMax ==> t * (inMax - inMin) == x - inMin
  {
    var c := if x < inMin then inMin else if x > inMax then inMax else x;
    UnitFraction(c - inMin, inMax - inMin);
    (c - inMin) / (inMax - inMin)
  }

  lemma {:induction false} ClampedFractionMonotone(x1: real, x2: real, inMin: real, inMax: real)
    requires inMin < inMax && x1 <= x2
    ensures ClampedFraction(x1, inMin, inMax) <= ClampedFraction(x2, inMin, inMax)
  {
    var c1 := if x1 < inMin then inMin else if x1 > inMax then inMax else x1;
    var c2 := if x2 < inMin then inMin else if x2 > inMax then inMax else x2;
    var d := inMax - inMin;
    DivMonotone(c1 - inMin, c2 - inMin, d);
  }

  lemma {:induction false} DivMonotone(a: real, b: real, d: real)
    requires a <= b && 0.0 < d
    ensures a / d <= b / d
  {
    assert (b / d - a / d) * d == b - a;
  }

  /** remotion's `interpolate(x, [inMin, inMax], [outMin, outMax])` with
      `extrapolateLeft` and `extrapolateRight` both set to `'clamp'`, which is
      also framer-motion's default for `useTransform`. The library rejects an
      input range that is not strictly increasing. */
  function Interpolate(x: real, inMin: real, inMax: real, outMin: real, outMax: real): (r: real)
    requires inMin < inMax
    ensures Between(r, outMin, outMax)
    ensures x <= inMin ==> r == outMin
    ensures x >= inMax ==> r == outMax
  {
    var t := ClampedFraction(x, inMin, inMax);
    ScaleUnit(t, outMax - outMin);
    outMin + t * (outMax - outMin)
  }

  lemma {:induction false} UnitFraction(a: real, d: real)
    requires 0.0 <= a <= d && 0.0 < d
    ensures 0.0 <= a / d <= 1.0
    ensures a == 0.0 ==> a / d == 0.0
    ensures a == d ==> a / d == 1.0
  {
    assert a / d * d == a;
  }

  lemma {:induction false} ScaleUnit(t: real, delta: real)
    requires 0.0 <= t <= 1.0
    ensures 0.0 <= delta ==> 0.0 <= t * delta <= delta
    ensures delta <= 0.0 ==> delta <= t * delta <= 0.0
  {
    if 0.0 <= delta {
      assert t * delta <= 1.0 * delta;
    } else {
      assert t * delta >= 1.0 * delta;
    }
  }

  /** A larger input never moves the output against the direction of the
      output range. */
  lemma {:induction false} InterpolateMonotone(x1: real, x2: real, inMin: real, inMax: real, outMin: real, outMax: real)
    requires inMin < inMax && x1 <= x2
    ensures outMin <= outMax ==> Interpolate(x1, inMin, inMax, outMin, outMax) <= Interpolate(x2, inMin, inMax, outMin, outMax)
    ensures outMax <= outMin ==> Interpolate(x2, inMin, inMax, outMin, outMax) <= Interpolate(x1, inMin, inMax, outMin, outMax)
  {
    var t1 := ClampedFraction(x1, inMin, inMax);
    var t2 := ClampedFraction(x2, inMin, inMax);
    ClampedFractionMonotone(x1, x2, inMin, inMax);
    var i1 := Interpolate(x1, inMin, inMax, outMin, outMax);
    var i2 := Interpolate(x2, inMin, inMax, outMin, outMax);
    InterpolateValue(x1, inMin, inMax, outMin, outMax);
    InterpolateValue(x2, inMin, inMax, outMin, outMax);
    AffineOrder(outMin, t1, t2, outMax - outMin, i1, i2);
  }

  lemma {:induction false} InterpolateValue(x: real, inMin: real, inMax: real, outMin: real, outMax: real)
    requires inMin < inMax
    ensures Interpolate(x, inMin, inMax, outMin, outMax)
            == outMin + ClampedFraction(x, inMin, inMax) * (outMax - outMin)
  {
  }

  /** Within the input range the output is the affine image of the input:
      equal steps of input give equal steps of output. */
  lemma {:induction false} InterpolateAffine(x: real, inMin: real, inMax: real, outMin: real, outMax: real)
    requires inMin <= x <= inMax && inMin < inMax
    ensures (Interpolate(x, inMin, inMax, outMin, outMax) - outMin) * (inMax - inMin) == (x - inMin) * (outMax - outMin)
  {
    var d := inMax - inMin;
    var t := ClampedFraction(x, inMin, inMax);
    calc {
      (Interpolate(x, inMin, inMax, outMin, outMax) - outMin) * d;
      == t * (outMax - outMin) * d;
      == (t * d) * (outMax - outMin);
    }
  }

}
