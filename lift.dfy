/** The per-slice lift evaluator shared by remotion/components/Pepperoni.tsx
    and the inner `Pepperoni` of remotion/PizzaExplode.tsx: the frame selects
    the LIFT, HOVER or DESCEND phase, the local progress within that phase is
    eased, and the shadow is derived from the lift. The two copies differ only
    in their hover amplitude and shadow constants, which are parameters here. */
module Lift {

  import opened Trig
  import opened Easing
  import opened PepperoniConfig

  predicate InLift(b: PhaseBounds, frame: int) {
    b.liftStart <= frame < b.liftEnd
  }

  predicate InHover(b: PhaseBounds, frame: int) {
    b.hoverStart <= frame < b.hoverEnd
  }

  /** The descend branch includes its last frame. */
  predicate InDescend(b: PhaseBounds, frame: int) {
    b.descendStart <= frame <= b.descendEnd
  }

  /** `(frame - start) / (end - start)`. */
  function LocalProgress(frame: int, start: int, end: int): (t: real)
    requires start < end
    ensures start <= frame ==> 0.0 <= t
    ensures frame < end ==> t < 1.0
    ensures frame <= end ==> t <= 1.0
    ensures frame == start ==> t == 0.0
    ensures frame == end ==> t == 1.0
  {
    var d := (end - start) as real;
    var t := (frame - start) as real / d;
    assert t * d == (frame - start) as real;
    t
  }

  lemma {:induction false} LocalProgressMonotone(f1: int, f2: int, start: int, end: int)
    requires start < end && f1 <= f2
    ensures LocalProgress(f1, start, end) <= LocalProgress(f2, start, end)
  {
    DivMonotone((f1 - start) as real, (f2 - start) as real, (end - start) as real);
  }

  /** `hoverProgress * Math.PI * 2`: one full sine period over the hover
      phase. */
  function WobbleAngle(hoverProgress: real, trig: Trig): (angle: real)
    ensures hoverProgress == 0.0 ==> angle == 0.0
    ensures hoverProgress == 1.0 ==> angle == 2.0 * trig.pi
  {
    hoverProgress * trig.pi * 2.0
  }

  /** The vertical lift of a slice at `frame`: ease-out cubic up to
      `liftHeight` while lifting, a sine wobble of `amplitude` around
      `liftHeight` while hovering, ease-in cubic back down while descending,
      and zero otherwise. The pieces join up: the slice is on the pizza when
      the lift starts and when the descent ends, and at `liftHeight` where
      the hover and the descent begin. */
  function LiftAmount(b: PhaseBounds, frame: int, liftHeight: real, amplitude: real, trig: Trig): (lift: real)
    requires b.Contiguous()
    ensures frame < b.liftStart || frame > b.descendEnd ==> lift == 0.0
    ensures frame == b.liftStart ==> lift == 0.0
    ensures trig.Valid() && frame == b.hoverStart ==> lift == liftHeight
    ensures frame == b.descendStart ==> lift == liftHeight
    ensures frame == b.descendEnd ==> lift == 0.0
  {
    if InLift(b, frame) then
      var t := LocalProgress(frame, b.liftStart, b.liftEnd);
      EaseOutCubic(t) * liftHeight
    else if InHover(b, frame) then
      var hoverProgress := LocalProgress(frame, b.hoverStart, b.hoverEnd);
      liftHeight + trig.Sin(WobbleAngle(hoverProgress, trig)) * amplitude
    else if InDescend(b, frame) then
      var t := LocalProgress(frame, b.descendStart, b.descendEnd);
      liftHeight * (1.0 - EaseInCubic(t))
    else
      0.0
  }

  /** The three branch conditions never overlap, so the if/else-if chain never
      hides a phase behind an earlier one. */
  lemma BranchesDisjoint(b: PhaseBounds, frame: int)
    requires b.Contiguous()
    ensures !(InLift(b, frame) && InHover(b, frame))
    ensures !(InLift(b, frame) && InDescend(b, frame))
    ensures !(InHover(b, frame) && InDescend(b, frame))
  {
  }

  /** While lifting, a slice starts on the pizza and rises towards, without
      reaching, `liftHeight`. */
  lemma {:induction false} LiftPhaseRange(b: PhaseBounds, frame: int, liftHeight: real, amplitude: real, trig: Trig)
    requires b.Contiguous() && InLift(b, frame) && 0.0 < liftHeight
    ensures 0.0 <= LiftAmount(b, frame, liftHeight, amplitude, trig) < liftHeight
    ensures frame == b.liftStart ==> LiftAmount(b, frame, liftHeight, amplitude, trig) == 0.0
  {
    var t := LocalProgress(frame, b.liftStart, b.liftEnd);
    assert 0.0 <= t < 1.0;
    var e := EaseOutCubic(t);
    assert 0.0 <= e < 1.0;
    LiftValue(b, frame, liftHeight, amplitude, trig);
    MulNonneg(e, liftHeight);
    MulRightStrict(e, 1.0, liftHeight);
  }

  /** The lift never goes down during the lift phase. */
  lemma {:induction false} LiftPhaseRises(b: PhaseBounds, f1: int, f2: int, liftHeight: real, amplitude: real, trig: Trig)
    requires b.Contiguous() && InLift(b, f1) && InLift(b, f2) && f1 <= f2 && 0.0 <= liftHeight
    ensures LiftAmount(b, f1, liftHeight, amplitude, trig) <= LiftAmount(b, f2, liftHeight, amplitude, trig)
  {
    var t1 := LocalProgress(f1, b.liftStart, b.liftEnd);
    var t2 := LocalProgress(f2, b.liftStart, b.liftEnd);
    LocalProgressMonotone(f1, f2, b.liftStart, b.liftEnd);
    EaseOutCubicMonotone(t1, t2);
    LiftValue(b, f1, liftHeight, amplitude, trig);
    LiftValue(b, f2, liftHeight, amplitude, trig);
    ScaledOrder(EaseOutCubic(t1), EaseOutCubic(t2), liftHeight,
                LiftAmount(b, f1, liftHeight, amplitude, trig), LiftAmount(b, f2, liftHeight, amplitude, trig));
  }

  lemma {:induction false} LiftValue(b: PhaseBounds, frame: int, liftHeight: real, amplitude: real, trig: Trig)
    requires b.Contiguous() && InLift(b, frame)
    ensures LiftAmount(b, frame, liftHeight, amplitude, trig)
            == EaseOutCubic(LocalProgress(frame, b.liftStart, b.liftEnd)) * liftHeight
  {
  }

  /** While hovering, a slice stays within `amplitude` of `liftHeight`, and it
      is exactly at `liftHeight` on the first hover frame. */
  lemma {:induction false} HoverPhaseRange(b: PhaseBounds, frame: int, liftHeight: real, amplitude: real, trig: Trig)
    requires b.Contiguous() && InHover(b, frame) && 0.0 <= amplitude && trig.Valid()
    ensures liftHeight - amplitude <= LiftAmount(b, frame, liftHeight, amplitude, trig) <= liftHeight + amplitude
    ensures frame == b.hoverStart ==> LiftAmount(b, frame, liftHeight, amplitude, trig) == liftHeight
  {
    var s := trig.Sin(WobbleAngle(LocalProgress(frame, b.hoverStart, b.hoverEnd), trig));
    HoverValue(b, frame, liftHeight, amplitude, trig);
    WobbleBound(liftHeight, s, amplitude);
  }

  lemma {:induction false} HoverValue(b: PhaseBounds, frame: int, liftHeight: real, amplitude: real, trig: Trig)
    requires b.Contiguous() && InHover(b, frame)
    ensures LiftAmount(b, frame, liftHeight, amplitude, trig)
            == liftHeight + trig.Sin(WobbleAngle(LocalProgress(frame, b.hoverStart, b.hoverEnd), trig)) * amplitude
  {
  }

  /** A wobble of a sine value scaled by `a` stays within `a` of `h`. */
  lemma {:induction false} WobbleBound(h: real, s: real, a: real)
    requires -1.0 <= s <= 1.0 && 0.0 <= a
    ensures h - a <= h + s * a <= h + a
  {
    MulRight(-1.0, s, a);
    MulRight(s, 1.0, a);
  }

  /** While descending, a slice falls from `liftHeight` on the first descend
      frame back onto the pizza on the last. */
  lemma {:induction false} DescendPhaseRange(b: PhaseBounds, frame: int, liftHeight: real, amplitude: real, trig: Trig)
    requires b.Contiguous() && InDescend(b, frame) && 0.0 <= liftHeight
    ensures 0.0 <= LiftAmount(b, frame, liftHeight, amplitude, trig) <= liftHeight
    ensures frame == b.descendStart ==> LiftAmount(b, frame, liftHeight, amplitude, trig) == liftHeight
    ensures frame == b.descendEnd ==> LiftAmount(b, frame, liftHeight, amplitude, trig) == 0.0
  {
    var e := EaseInCubic(LocalProgress(frame, b.descendStart, b.descendEnd));
    DescendValue(b, frame, liftHeight, amplitude, trig);
    MulNonneg(liftHeight, 1.0 - e);
    MulLeft(liftHeight, 1.0 - e, 1.0);
  }

  lemma {:induction false} DescendValue(b: PhaseBounds, frame: int, liftHeight: real, amplitude: real, trig: Trig)
    requires b.Contiguous() && InDescend(b, frame)
    ensures LiftAmount(b, frame, liftHeight, amplitude, trig)
            == liftHeight * (1.0 - EaseInCubic(LocalProgress(frame, b.descendStart, b.descendEnd)))
  {
  }

  /** The lift never goes up during the descent. */
  lemma {:induction false} DescendPhaseFalls(b: PhaseBounds, f1: int, f2: int, liftHeight: real, amplitude: real, trig: Trig)
    requires b.Contiguous() && InDescend(b, f1) && InDescend(b, f2) && f1 <= f2 && 0.0 <= liftHeight
    ensures LiftAmount(b, f2, liftHeight, amplitude, trig) <= LiftAmount(b, f1, liftHeight, amplitude, trig)
  {
    var t1 := LocalProgress(f1, b.descendStart, b.descendEnd);
    var t2 := LocalProgress(f2, b.descendStart, b.descendEnd);
    LocalProgressMonotone(f1, f2, b.descendStart, b.descendEnd);
    EaseInCubicMonotone(t1, t2);
    DescendValue(b, f1, liftHeight, amplitude, trig);
    DescendValue(b, f2, liftHeight, amplitude, trig);
    ComplementOrder(EaseInCubic(t1), EaseInCubic(t2), liftHeight,
                    LiftAmount(b, f1, liftHeight, amplitude, trig), LiftAmount(b, f2, liftHeight, amplitude, trig));
  }

  /** The constants of one shadow: it interpolates from opacity 0, blur 2 and
      scale 1 on the pizza to these values at full lift. */
  datatype ShadowStyle = ShadowStyle(maxOpacity: real, maxBlur: real, maxScale: real) {
    predicate Grows() {
      0.0 <= maxOpacity && 2.0 <= maxBlur && 1.0 <= maxScale
    }
  }

  datatype Shadow = Shadow(opacity: real, blur: real, scale: real)

  /** The shadow cast by a slice lifted by `lift`, each parameter clamped to
      its range. */
  function ShadowFor(lift: real, liftHeight: real, style: ShadowStyle): (s: Shadow)
    requires 0.0 < liftHeight
    ensures Between(s.opacity, 0.0, style.maxOpacity)
    ensures Between(s.blur, 2.0, style.maxBlur)
    ensures Between(s.scale, 1.0, style.maxScale)
    ensures lift <= 0.0 ==> s == Shadow(0.0, 2.0, 1.0)
    ensures lift >= liftHeight ==> s == Shadow(style.maxOpacity, style.maxBlur, style.maxScale)
  {
    Shadow(Interpolate(lift, 0.0, liftHeight, 0.0, style.maxOpacity),
           Interpolate(lift, 0.0, liftHeight, 2.0, style.maxBlur),
           Interpolate(lift, 0.0, liftHeight, 1.0, style.maxScale))
  }

  /** A higher slice casts a fainter-edged, wider, darker shadow: no shadow
      parameter decreases as the lift increases. */
  lemma {:induction false} ShadowMonotone(l1: real, l2: real, liftHeight: real, style: ShadowStyle)
    requires 0.0 < liftHeight && l1 <= l2 && style.Grows()
    ensures ShadowFor(l1, liftHeight, style).opacity <= ShadowFor(l2, liftHeight, style).opacity
    ensures ShadowFor(l1, liftHeight, style).blur <= ShadowFor(l2, liftHeight, style).blur
    ensures ShadowFor(l1, liftHeight, style).scale <= ShadowFor(l2, liftHeight, style).scale
  {
    InterpolateMonotone(l1, l2, 0.0, liftHeight, 0.0, style.maxOpacity);
    InterpolateMonotone(l1, l2, 0.0, liftHeight, 2.0, style.maxBlur);
    InterpolateMonotone(l1, l2, 0.0, liftHeight, 1.0, style.maxScale);
  }

}
