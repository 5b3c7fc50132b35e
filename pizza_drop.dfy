/** remotion/PizzaDrop.tsx: the pizza image rotates from a 60 degree tilt to
    flat, carrying the radial pepperoni layout, which lifts off by 250 pixels
    above a pizza of radius 280. */
module PizzaDrop {

  import opened Trig
  import opened PepperoniConfig
  import Rotation
  import Pepperoni

  const MAX_TILT: real := 60.0
  const MIN_SCALE: real := 0.85
  const PIZZA_RADIUS: real := 280.0
  const EXPLOSION_LIFT_HEIGHT: real := 250.0

  datatype Scene = Scene(currentTilt: real, perspectiveScale: real)

  /** The `PizzaDrop` composition's transform at `frame`, driven by the shared
      timeline's rotate phase. */
  function SceneAt(frame: int): (s: Scene)
    ensures 0.0 <= s.currentTilt <= MAX_TILT && MIN_SCALE <= s.perspectiveScale <= 1.0
    ensures frame <= TIMELINE.rotateStart ==> s.currentTilt == MAX_TILT && s.perspectiveScale == MIN_SCALE
    ensures frame >= TIMELINE.rotateEnd ==> s.currentTilt == 0.0 && s.perspectiveScale == 1.0
  {
    var currentTilt := Rotation.TiltAngle(frame, TIMELINE.rotateStart, TIMELINE.rotateEnd, 60.0);
    Scene(currentTilt, Rotation.PerspectiveScale(currentTilt, 60.0, 0.85))
  }

  /** Over the video the pizza only flattens, and it grows as it does. */
  lemma {:induction false} SceneFlattens(f1: int, f2: int)
    requires f1 <= f2
    ensures SceneAt(f2).currentTilt <= SceneAt(f1).currentTilt
    ensures SceneAt(f1).perspectiveScale <= SceneAt(f2).perspectiveScale
  {
    Rotation.TiltAngleMonotone(f1, f2, TIMELINE.rotateStart, TIMELINE.rotateEnd, MAX_TILT);
    Rotation.PerspectiveScaleMonotone(f1, f2, TIMELINE.rotateStart, TIMELINE.rotateEnd, MAX_TILT, MIN_SCALE);
  }

  /** The explosion layer: the 16 generated slices rendered for a pizza of
      radius 280 with a lift height of 250, so no slice ever rises above 258
      or sinks below the pizza. */
  function Explosion(frame: int, trig: Trig): (views: seq<Pepperoni.View>)
    requires trig.Valid()
    ensures |views| == 16
    ensures forall k :: 0 <= k < |views| ==>
      views[k] == Pepperoni.Render(Layout(trig)[k], PIZZA_RADIUS, EXPLOSION_LIFT_HEIGHT, frame, trig)
    ensures forall k :: 0 <= k < |views| ==> 0.0 <= views[k].translateZ <= 258.0
  {
    Pepperoni.LiftByPhase(frame, 250.0, trig);
    var slices := Layout(trig);
    seq(16, k requires 0 <= k < 16 => Pepperoni.Render(slices[k], 280.0, 250.0, frame, trig))
  }

}
