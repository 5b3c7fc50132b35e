/** remotion/components/Pepperoni.tsx: one slice of the radial layout, lifted
    along the Z axis by the shared timeline, with a shadow left on the pizza
    surface while it is in the air. */
module Pepperoni {

  import opened Options
  import opened Trig
  import opened Easing
  import opened PepperoniConfig
  import Lift

  const HOVER_AMPLITUDE: real := 8.0
  const SHADOW_STYLE: Lift.ShadowStyle := Lift.ShadowStyle(0.4, 20.0, 1.2)
  const SIZE_FACTOR: real := 45.0
  const BASE_FACTOR: real := 0.85

  /** The lift of a slice on the timeline of frames 75 to 150. */
  function LiftAmount(frame: int, liftHeight: real, trig: Trig): (lift: real)
    ensures frame < 75 || frame > 150 ==> lift == 0.0
    ensures frame == 75 || frame == 150 ==> lift == 0.0
    ensures trig.Valid() && frame == 105 ==> lift == liftHeight
    ensures frame == 126 ==> lift == liftHeight
  {
    Lift.LiftAmount(TIMELINE.Phases(), frame, liftHeight, HOVER_AMPLITUDE, trig)
  }

  /** What the lift is in each stretch of the timeline: on the pizza before
      frame 75 and after frame 150, rising from 0 below `liftHeight` over
      [75, 105), wobbling within 8 of `liftHeight` over [105, 126), and falling
      from `liftHeight` back to 0 over [126, 150]. */
  lemma {:induction false} LiftByPhase(frame: int, liftHeight: real, trig: Trig)
    requires 0.0 < liftHeight && trig.Valid()
    ensures frame < 75 || frame > 150 ==> LiftAmount(frame, liftHeight, trig) == 0.0
    ensures 75 <= frame < 105 ==> 0.0 <= LiftAmount(frame, liftHeight, trig) < liftHeight
    ensures 105 <= frame < 126 ==>
      liftHeight - 8.0 <= LiftAmount(frame, liftHeight, trig) <= liftHeight + 8.0
    ensures 126 <= frame <= 150 ==> 0.0 <= LiftAmount(frame, liftHeight, trig) <= liftHeight
    ensures LiftAmount(75, liftHeight, trig) == 0.0 && LiftAmount(105, liftHeight, trig) == liftHeight
    ensures LiftAmount(126, liftHeight, trig) == liftHeight && LiftAmount(150, liftHeight, trig) == 0.0
  {
    var b := TIMELINE.Phases();
    if 75 <= frame < 105 {
      Lift.LiftPhaseRange(b, frame, liftHeight, HOVER_AMPLITUDE, trig);
    } else if 105 <= frame < 126 {
      Lift.HoverPhaseRange(b, frame, liftHeight, HOVER_AMPLITUDE, trig);
    } else if 126 <= frame <= 150 {
      Lift.DescendPhaseRange(b, frame, liftHeight, HOVER_AMPLITUDE, trig);
    }
  }

  /** Halfway through the lift (frame 90) the ease-out cubic has covered
      `1 - 0.5^3 = 0.875` of the height. */
  lemma LiftMidway(liftHeight: real, trig: Trig)
    ensures LiftAmount(90, liftHeight, trig) == 0.875 * liftHeight
  {
    assert Lift.LocalProgress(90, 75, 105) == 0.5;
  }

  /** The slice only rises over [75, 105) and only falls over [126, 150]. */
  lemma {:induction false} LiftMonotoneInPhases(f1: int, f2: int, liftHeight: real, trig: Trig)
    requires 0.0 < liftHeight && f1 <= f2
    ensures 75 <= f1 && f2 < 105 ==> LiftAmount(f1, liftHeight, trig) <= LiftAmount(f2, liftHeight, trig)
    ensures 126 <= f1 && f2 <= 150 ==> LiftAmount(f2, liftHeight, trig) <= LiftAmount(f1, liftHeight, trig)
  {
    var b := TIMELINE.Phases();
    if 75 <= f1 && f2 < 105 {
      Lift.LiftPhaseRises(b, f1, f2, liftHeight, HOVER_AMPLITUDE, trig);
    }
    if 126 <= f1 && f2 <= 150 {
      Lift.DescendPhaseFalls(b, f1, f2, liftHeight, HOVER_AMPLITUDE, trig);
    }
  }

  /** The rendered geometry of one slice: the box's offset from the pizza's
      centre, its size, its lift along Z, its rotation, and the shadow that is
      drawn under the same box. */
  datatype View = View(left: real, top: real, size: real, translateZ: real, rotation: int,
                       shadow: Option<Lift.Shadow>)

  /** The `Pepperoni` component at `frame`. */
  function Render(slice: Slice, pizzaRadius: real, liftHeight: real, frame: int, trig: Trig): (v: View)
    requires 0.0 < liftHeight
    ensures v.translateZ == LiftAmount(frame, liftHeight, trig)
    ensures v.shadow.Some? <==> v.translateZ > 0.0
    ensures v.shadow.Some? ==>
      && 0.0 <= v.shadow.value.opacity <= 0.4
      && 2.0 <= v.shadow.value.blur <= 20.0
      && 1.0 <= v.shadow.value.scale <= 1.2
    ensures v.shadow.Some? ==> v.shadow.value == Lift.ShadowFor(v.translateZ, liftHeight, SHADOW_STYLE)
    ensures v.left + v.size / 2.0 == slice.x * pizzaRadius * BASE_FACTOR
    ensures v.top + v.size / 2.0 == slice.y * pizzaRadius * BASE_FACTOR
    ensures v.size == SIZE_FACTOR * slice.scale && v.rotation == slice.rotation
  {
    var baseX := slice.x * pizzaRadius * 0.85;
    var baseY := slice.y * pizzaRadius * 0.85;
    var size := 45.0 * slice.scale;
    var liftAmount := LiftAmount(frame, liftHeight, trig);
    var shadow := Lift.ShadowFor(liftAmount, liftHeight, SHADOW_STYLE);
    View(baseX - size / 2.0, baseY - size / 2.0, size, liftAmount, slice.rotation,
         if liftAmount > 0.0 then Some(shadow) else None)
  }

  /** A slice in the air casts a shadow that grows with its height. */
  lemma {:induction false} ShadowGrowsWithLift(slice: Slice, pizzaRadius: real, liftHeight: real, f1: int, f2: int, trig: Trig)
    requires 0.0 < liftHeight
    requires Render(slice, pizzaRadius, liftHeight, f1, trig).shadow.Some?
    requires LiftAmount(f1, liftHeight, trig) <= LiftAmount(f2, liftHeight, trig)
    ensures Render(slice, pizzaRadius, liftHeight, f2, trig).shadow.Some?
    ensures
      var s1 := Render(slice, pizzaRadius, liftHeight, f1, trig).shadow.value;
      var s2 := Render(slice, pizzaRadius, liftHeight, f2, trig).shadow.value;
      s1.opacity <= s2.opacity && s1.blur <= s2.blur && s1.scale <= s2.scale
  {
    Lift.ShadowMonotone(LiftAmount(f1, liftHeight, trig), LiftAmount(f2, liftHeight, trig), liftHeight, SHADOW_STYLE);
  }

}
