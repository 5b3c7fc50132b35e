/** remotion/PizzaExplode.tsx: a pizza that rotates from a 55 degree tilt to
    flat while 22 pepperoni at fixed positions lift off, hover and land. The
    file carries its own copy of the timeline and of the lift logic. */
module PizzaExplode {

  import opened Options
  import opened Trig
  import opened Easing
  import PepperoniConfig
  import Lift
  import Rotation

  /** The file's local `TIMELINE` record; it has no TILT_START, TOTAL_FRAMES or
      FPS entry. */
  datatype ExplodeTimeline = ExplodeTimeline(tiltEnd: int, rotateStart: int, rotateEnd: int,
                                             liftStart: int, liftEnd: int, hoverStart: int, hoverEnd: int,
                                             descendStart: int, descendEnd: int)
  {
    function Phases(): PepperoniConfig.PhaseBounds {
      PepperoniConfig.PhaseBounds(liftStart, liftEnd, hoverStart, hoverEnd, descendStart, descendEnd)
    }
  }

  const TIMELINE: ExplodeTimeline := ExplodeTimeline(45, 45, 75, 75, 105, 105, 126, 126, 150)

  /** The local copy agrees with the shared timeline on every boundary it
      has. */
  lemma TimelineMatchesShared()
    ensures TIMELINE.Phases() == PepperoniConfig.TIMELINE.Phases()
    ensures TIMELINE.tiltEnd == PepperoniConfig.TIMELINE.tiltEnd
    ensures TIMELINE.rotateStart == PepperoniConfig.TIMELINE.rotateStart
    ensures TIMELINE.rotateEnd == PepperoniConfig.TIMELINE.rotateEnd
    ensures TIMELINE.Phases().Contiguous()
  {
  }

  /** A pepperoni position traced from the pizza image, normalised to the
      pizza's radius. */
  datatype Position = Position(x: real, y: real, scale: real)

  const PEPPERONI_POSITIONS: seq<Position> := [
    // inner ring
    Position(-0.15, -0.2, 0.9), Position(0.2, -0.15, 0.95), Position(0.1, 0.2, 0.85), Position(-0.2, 0.15, 0.9),
    // middle ring
    Position(-0.35, -0.1, 1.0), Position(-0.25, -0.35, 0.95), Position(0.1, -0.4, 0.9), Position(0.35, -0.2, 1.0),
    Position(0.4, 0.1, 0.95), Position(0.25, 0.35, 0.9), Position(-0.1, 0.4, 1.0), Position(-0.38, 0.2, 0.95),
    // outer ring
    Position(-0.5, -0.25, 0.85), Position(-0.35, -0.5, 0.9), Position(0.0, -0.55, 0.85), Position(0.35, -0.45, 0.9),
    Position(0.55, -0.1, 0.85), Position(0.5, 0.25, 0.9), Position(0.3, 0.5, 0.85), Position(-0.05, 0.55, 0.9),
    Position(-0.4, 0.45, 0.85), Position(-0.55, 0.1, 0.9)
  ]

  /** The table holds 22 positions, each within [-0.55, 0.55] on both axes
      and with a scale in [0.85, 1.0]; after the 0.85 inset every slice's
      centre is strictly inside the pizza. */
  lemma PositionsInRange()
    ensures |PEPPERONI_POSITIONS| == 22
    ensures forall k :: 0 <= k < |PEPPERONI_POSITIONS| ==>
      var p := PEPPERONI_POSITIONS[k];
      -0.55 <= p.x <= 0.55 && -0.55 <= p.y <= 0.55 && 0.85 <= p.scale <= 1.0
    ensures forall k :: 0 <= k < |PEPPERONI_POSITIONS| ==>
      var p := PEPPERONI_POSITIONS[k];
      (p.x * 0.85) * (p.x * 0.85) + (p.y * 0.85) * (p.y * 0.85) < 1.0
  {
  }

  const HOVER_AMPLITUDE: real := 6.0
  const SHADOW_STYLE: Lift.ShadowStyle := Lift.ShadowStyle(0.35, 18.0, 1.15)
  const SIZE_FACTOR: real := 38.0

  /** The lift of a slice on the timeline of frames 75 to 150. */
  function LiftAmount(frame: int, liftHeight: real, trig: Trig): (lift: real)
    ensures frame < 75 || frame > 150 ==> lift == 0.0
    ensures frame == 75 || frame == 150 ==> lift == 0.0
    ensures trig.Valid() && frame == 105 ==> lift == liftHeight
    ensures frame == 126 ==> lift == liftHeight
  {
    Lift.LiftAmount(TIMELINE.Phases(), frame, liftHeight, HOVER_AMPLITUDE, trig)
  }

  /** The same piecewise lift as the shared Pepperoni component, except that
      the hover stays within 6 of `liftHeight`. */
  lemma {:induction false} LiftByPhase(frame: int, liftHeight: real, trig: Trig)
    requires 0.0 < liftHeight && trig.Valid()
    ensures frame < 75 || frame > 150 ==> LiftAmount(frame, liftHeight, trig) == 0.0
    ensures 75 <= frame < 105 ==> 0.0 <= LiftAmount(frame, liftHeight, trig) < liftHeight
    ensures 105 <= frame < 126 ==>
      liftHeight - 6.0 <= LiftAmount(frame, liftHeight, trig) <= liftHeight + 6.0
    ensures 126 <= frame <= 150 ==> 0.0 <= LiftAmount(frame, liftHeight, trig) <= liftHeight
    ensures LiftAmount(75, liftHeight, trig) == 0.0 && LiftAmount(105, liftHeight, trig) == liftHeight
    ensures LiftAmount(126, liftHeight, trig) == liftHeight && LiftAmount(150, liftHeight, trig) == 0.0
  {
    var b := TIMELINE.Phases();
    if 75 <= frame < 105 {
      Lift.LiftPhaseRange(b, frame, liftHeight, HOVER_AMPLITUDE, trig);
    } else if 105 <= frame < 126 {
      Lift.HoverPhaseRange(b, frame, liftHeight, HOVER_AMPLITUDE, trig);
    } else if 126 <= frame <= 150 {
      Lift.DescendPhaseRange(b, frame, liftHeight, HOVER_AMPLITUDE, trig);
    }
  }

  /** One rendered slice: its box offset from the pizza's centre (the lift
      moves it up the screen instead of along Z), its size, and its shadow. */
  datatype View = View(left: real, top: real, size: real, lift: real, shadow: Option<Lift.Shadow>)

  /** The inner `Pepperoni` component at `frame`. */
  function Render(p: Position, pizzaRadius: real, liftHeight: real, frame: int, trig: Trig): (v: View)
    requires 0.0 < liftHeight
    ensures v.lift == LiftAmount(frame, liftHeight, trig)
    ensures v.shadow.Some? <==> v.lift > 0.0
    ensures v.shadow.Some? ==>
      && 0.0 <= v.shadow.value.opacity <= 0.35
      && 2.0 <= v.shadow.value.blur <= 18.0
      && 1.0 <= v.shadow.value.scale <= 1.15
    ensures v.shadow.Some? ==> v.shadow.value == Lift.ShadowFor(v.lift, liftHeight, SHADOW_STYLE)
    ensures v.left + v.size / 2.0 == p.x * pizzaRadius * 0.85
    ensures v.top + v.size / 2.0 + v.lift == p.y * pizzaRadius * 0.85
    ensures v.size == SIZE_FACTOR * p.scale
  {
    var baseX := p.x * pizzaRadius * 0.85;
    var baseY := p.y * pizzaRadius * 0.85;
    var size := 38.0 * p.scale;
    var liftAmount := LiftAmount(frame, liftHeight, trig);
    var shadow := Lift.ShadowFor(liftAmount, liftHeight, SHADOW_STYLE);
    View(baseX - size / 2.0, baseY - size / 2.0 - liftAmount, size, liftAmount,
         if liftAmount > 0.0 then Some(shadow) else None)
  }

  /** The composition-level parameters of one frame. */
  datatype Scene = Scene(tiltAngle: real, perspectiveScale: real, pizzaSize: real, pizzaRadius: real,
                         liftHeight: real)

  const MAX_TILT: real := 55.0
  const MIN_SCALE: real := 0.88


  /** The `PizzaExplode` composition at `frame` for a `width` x `height`
      video. */
  function SceneAt(frame: int, width: int, height: int): (s: Scene)
    requires 0 < width && 0 < height
    ensures 0.0 <= s.tiltAngle <= MAX_TILT && MIN_SCALE <= s.perspectiveScale <= 1.0
    ensures frame <= TIMELINE.rotateStart ==> s.tiltAngle == MAX_TILT && s.perspectiveScale == MIN_SCALE
    ensures frame >= TIMELINE.rotateEnd ==> s.tiltAngle == 0.0 && s.perspectiveScale == 1.0
    ensures s.pizzaSize <= 0.75 * width as real && s.pizzaSize <= 0.75 * height as real
    ensures s.pizzaSize == 0.75 * width as real || s.pizzaSize == 0.75 * height as real
    ensures 0.0 < s.pizzaRadius && 2.0 * s.pizzaRadius == s.pizzaSize
    ensures s.liftHeight == 0.4 * s.pizzaSize && 0.0 < s.liftHeight
  {
    var tiltAngle := Rotation.TiltAngle(frame, TIMELINE.rotateStart, TIMELINE.rotateEnd, 55.0);
    var perspectiveScale := Rotation.PerspectiveScale(tiltAngle, 55.0, 0.88);
    var pizzaSize := Min(width as real, height as real) * 0.75;
    Scene(tiltAngle, perspectiveScale, pizzaSize, pizzaSize / 2.0, pizzaSize * 0.4)
  }

  /** Over the video the pizza only flattens, and it grows as it does. */
  lemma {:induction false} SceneFlattens(f1: int, f2: int, width: int, height: int)
    requires 0 < width && 0 < height && f1 <= f2
    ensures SceneAt(f2, width, height).tiltAngle <= SceneAt(f1, width, height).tiltAngle
    ensures SceneAt(f1, width, height).perspectiveScale <= SceneAt(f2, width, height).perspectiveScale
  {
    Rotation.TiltAngleMonotone(f1, f2, TIMELINE.rotateStart, TIMELINE.rotateEnd, MAX_TILT);
    Rotation.PerspectiveScaleMonotone(f1, f2, TIMELINE.rotateStart, TIMELINE.rotateEnd, MAX_TILT, MIN_SCALE);
  }

  /** All 22 slices of one frame, in table order; the largest is 38 pixels
      across and the smallest 85% of that. */
  function Pepperoni(frame: int, width: int, height: int, trig: Trig): (views: seq<View>)
    requires 0 < width && 0 < height
    ensures |views| == |PEPPERONI_POSITIONS|
    ensures forall k :: 0 <= k < |views| ==>
      views[k] == Render(PEPPERONI_POSITIONS[k], SceneAt(frame, width, height).pizzaRadius,
                         SceneAt(frame, width, height).liftHeight, frame, trig)
    ensures forall k :: 0 <= k < |views| ==> 38.0 * 0.85 <= views[k].size <= 38.0
  {
    PositionsInRange();
    var scene := SceneAt(frame, width, height);
    seq(|PEPPERONI_POSITIONS|, k requires 0 <= k < |PEPPERONI_POSITIONS| =>
      Render(PEPPERONI_POSITIONS[k], scene.pizzaRadius, scene.liftHeight, frame, trig))
  }

}
