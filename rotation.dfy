/** The pizza's rotation from tilted to flat, written out in both
    remotion/PizzaExplode.tsx and remotion/PizzaDrop.tsx: the frame is mapped
    to a clamped progress over the rotate phase, eased in and out, and turned
    into a tilt angle and a perspective scale. */
module Rotation {

  import opened Easing

  /** `interpolate(frame, [start, end], [0, 1])`, clamped. */
  function RotationProgress(frame: int, start: int, end: int): (p: real)
    requires start < end
    ensures 0.0 <= p <= 1.0
    ensures frame <= start ==> p == 0.0
    ensures frame >= end ==> p == 1.0
  {
    Interpolate(frame as real, start as real, end as real, 0.0, 1.0)
  }

  /** `maxTilt - eased * maxTilt`: the pizza starts tilted by `maxTilt`
      degrees and ends flat. */
  function TiltAngle(frame: int, start: int, end: int, maxTilt: real): (tilt: real)
    requires start < end && 0.0 <= maxTilt
    ensures 0.0 <= tilt <= maxTilt
    ensures frame <= start ==> tilt == maxTilt
    ensures frame >= end ==> tilt == 0.0
  {
    var eased := EaseInOutQuad(RotationProgress(frame, start, end));
    ScaleUnit(eased, maxTilt);
    maxTilt - eased * maxTilt
  }

  /** The tilt never increases as the frames advance. */
  lemma {:induction false} TiltAngleMonotone(f1: int, f2: int, start: int, end: int, maxTilt: real)
    requires start < end && 0.0 <= maxTilt && f1 <= f2
    ensures TiltAngle(f2, start, end, maxTilt) <= TiltAngle(f1, start, end, maxTilt)
  {
    var p1, p2 := RotationProgress(f1, start, end), RotationProgress(f2, start, end);
    InterpolateMonotone(f1 as real, f2 as real, start as real, end as real, 0.0, 1.0);
    EaseInOutQuadMonotone(p1, p2);
    TiltValue(f1, start, end, maxTilt);
    TiltValue(f2, start, end, maxTilt);
    ShareOrder(EaseInOutQuad(p1), EaseInOutQuad(p2), maxTilt,
               TiltAngle(f1, start, end, maxTilt), TiltAngle(f2, start, end, maxTilt));
  }

  lemma {:induction false} TiltValue(frame: int, start: int, end: int, maxTilt: real)
    requires start < end && 0.0 <= maxTilt
    ensures TiltAngle(frame, start, end, maxTilt)
            == maxTilt - EaseInOutQuad(RotationProgress(frame, start, end)) * maxTilt
  {
  }

  /** `interpolate(tilt, [0, maxTilt], [1, minScale])`, clamped: the tilted
      pizza is drawn smaller. */
  function PerspectiveScale(tilt: real, maxTilt: real, minScale: real): (s: real)
    requires 0.0 < maxTilt
    ensures Between(s, minScale, 1.0)
    ensures tilt <= 0.0 ==> s == 1.0
    ensures tilt >= maxTilt ==> s == minScale
  {
    Interpolate(tilt, 0.0, maxTilt, 1.0, minScale)
  }

  /** As the pizza flattens, its perspective scale grows back towards 1. */
  lemma {:induction false} PerspectiveScaleMonotone(f1: int, f2: int, start: int, end: int, maxTilt: real, minScale: real)
    requires start < end && 0.0 < maxTilt && minScale <= 1.0 && f1 <= f2
    ensures PerspectiveScale(TiltAngle(f1, start, end, maxTilt), maxTilt, minScale)
         <= PerspectiveScale(TiltAngle(f2, start, end, maxTilt), maxTilt, minScale)
  {
    TiltAngleMonotone(f1, f2, start, end, maxTilt);
    InterpolateMonotone(TiltAngle(f2, start, end, maxTilt), TiltAngle(f1, start, end, maxTilt), 0.0, maxTilt, 1.0, minScale);
  }

}
