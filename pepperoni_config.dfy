/** remotion/utils/pepperoniConfig.ts: the radial pepperoni layout and the
    shared animation timeline. */
module PepperoniConfig {

  import opened Trig

  /** One pepperoni slice: its position on the pizza in normalised coordinates,
      its size factor and its rotation in degrees. */
  datatype Slice = Slice(id: int, x: real, y: real, scale: real, rotation: int)

  const INNER_RADIUS: real := 0.25
  const MIDDLE_RADIUS: real := 0.5
  const OUTER_RADIUS: real := 0.75

  const INNER_COUNT: nat := 3
  const MIDDLE_COUNT: nat := 5
  const OUTER_COUNT: nat := 8

  /** The angles, in radians, of the `i`-th slice of each ring. */
  function InnerAngle(trig: Trig, i: nat): real {
    (i as real / 3.0) * trig.pi * 2.0 + trig.pi / 6.0
  }

  function MiddleAngle(trig: Trig, i: nat): real {
    (i as real / 5.0) * trig.pi * 2.0
  }

  function OuterAngle(trig: Trig, i: nat): real {
    (i as real / 8.0) * trig.pi * 2.0 + trig.pi / 8.0
  }

  /** The `i`-th slice of the inner ring, with the id it gets when pushed
      first. */
  function InnerSlice(trig: Trig, i: nat): Slice {
    var angle := InnerAngle(trig, i);
    Slice(i, trig.Cos(angle) * INNER_RADIUS, trig.Sin(angle) * INNER_RADIUS,
          0.95 + trig.Sin(i as real * 1.5) * 0.1, (i * 37) % 360)
  }

  /** The `i`-th slice of the middle ring, pushed after the inner ring. */
  function MiddleSlice(trig: Trig, i: nat): Slice {
    var angle := MiddleAngle(trig, i);
    Slice(INNER_COUNT + i, trig.Cos(angle) * MIDDLE_RADIUS, trig.Sin(angle) * MIDDLE_RADIUS,
          0.9 + trig.Cos(i as real * 2.1) * 0.15, (i * 53) % 360)
  }

  /** The `i`-th slice of the outer ring, pushed after the other two rings. */
  function OuterSlice(trig: Trig, i: nat): Slice {
    var angle := OuterAngle(trig, i);
    Slice(INNER_COUNT + MIDDLE_COUNT + i, trig.Cos(angle) * OUTER_RADIUS, trig.Sin(angle) * OUTER_RADIUS,
          0.85 + trig.Sin(i as real * 1.7) * 0.1, (i * 41) % 360)
  }

  function InnerRing(trig: Trig): seq<Slice> {
    seq(INNER_COUNT, i requires 0 <= i => InnerSlice(trig, i))
  }

  function MiddleRing(trig: Trig): seq<Slice> {
    seq(MIDDLE_COUNT, i requires 0 <= i => MiddleSlice(trig, i))
  }

  function OuterRing(trig: Trig): seq<Slice> {
    seq(OUTER_COUNT, i requires 0 <= i => OuterSlice(trig, i))
  }

  /** The layout as a value: inner ring, then middle ring, then outer ring,
      each slice's id being its position. */
  function Layout(trig: Trig): (slices: seq<Slice>)
    ensures |slices| == 16
    ensures forall k :: 0 <= k < |slices| ==> slices[k].id == k
  {
    InnerRing(trig) + MiddleRing(trig) + OuterRing(trig)
  }

  /** `generatePepperoniSlices`: three loops that push onto `slices`, each
      slice taking `slices.length` as its id. The `count` argument is accepted
      and never read. */
  method GenerateSlices(trig: Trig, count: int) returns (slices: seq<Slice>)
    ensures slices == Layout(trig)
    ensures |slices| == INNER_COUNT + MIDDLE_COUNT + OUTER_COUNT == 16
  {
    slices := [];

    var innerRadius := 0.25;
    for i := 0 to 3
      invariant slices == InnerRing(trig)[..i]
    {
      var angle := InnerAngle(trig, i);
      var slice := Slice(|slices|, trig.Cos(angle) * innerRadius, trig.Sin(angle) * innerRadius,
                         0.95 + trig.Sin(i as real * 1.5) * 0.1, (i * 37) % 360);
      slices := slices + [slice];
      assert InnerRing(trig)[..i + 1] == InnerRing(trig)[..i] + [InnerSlice(trig, i)];
    }
    assert InnerRing(trig)[..3] == InnerRing(trig);

    var middleRadius := 0.5;
    for i := 0 to 5
      invariant slices == InnerRing(trig) + MiddleRing(trig)[..i]
    {
      var angle := MiddleAngle(trig, i);
      slices := slices + [Slice(|slices|, trig.Cos(angle) * middleRadius, trig.Sin(angle) * middleRadius,
                                0.9 + trig.Cos(i as real * 2.1) * 0.15, (i * 53) % 360)];
      assert MiddleRing(trig)[..i + 1] == MiddleRing(trig)[..i] + [MiddleSlice(trig, i)];
    }
    assert MiddleRing(trig)[..5] == MiddleRing(trig);

    var outerRadius := 0.75;
    for i := 0 to 8
      invariant slices == InnerRing(trig) + MiddleRing(trig) + OuterRing(trig)[..i]
    {
      var angle := OuterAngle(trig, i);
      slices := slices + [Slice(|slices|, trig.Cos(angle) * outerRadius, trig.Sin(angle) * outerRadius,
                                0.85 + trig.Sin(i as real * 1.7) * 0.1, (i * 41) % 360)];
      assert |InnerRing(trig) + MiddleRing(trig) + OuterRing(trig)[..i]| == 8 + i;
      assert OuterRing(trig)[..i + 1] == OuterRing(trig)[..i] + [OuterSlice(trig, i)];
    }
    assert OuterRing(trig)[..8] == OuterRing(trig);
  }

  /** The radius of the ring that the slice at position `k` of the layout
      belongs to. */
  function RingRadius(k: nat): real {
    if k < INNER_COUNT then INNER_RADIUS
    else if k < INNER_COUNT + MIDDLE_COUNT then MIDDLE_RADIUS
    else OUTER_RADIUS
  }

  /** The slice's centre lies on the circle of radius `r` around the pizza's
      centre. */
  predicate OnCircle(s: Slice, r: real) {
    s.x * s.x + s.y * s.y == r * r
  }

  lemma {:induction false} PolarOnCircle(trig: Trig, angle: real, r: real, s: Slice)
    requires trig.Valid()
    requires s.x == trig.Cos(angle) * r && s.y == trig.Sin(angle) * r
    ensures OnCircle(s, r)
  {
    var c, n := trig.Cos(angle), trig.Sin(angle);
    assert n * n + c * c == 1.0;
    calc {
      s.x * s.x + s.y * s.y;
      == (c * r) * (c * r) + (n * r) * (n * r);
      == (c * c + n * n) * (r * r);
      == r * r;
    }
  }

  /** The slices come ring by ring, from the inside out, and every slice lies
      on the circle of its ring. */
  lemma {:induction false} LayoutOnRings(trig: Trig)
    requires trig.Valid()
    ensures forall k, j :: 0 <= k <= j < 16 ==> RingRadius(k) <= RingRadius(j)
    ensures forall k :: 0 <= k < |Layout(trig)| ==> OnCircle(Layout(trig)[k], RingRadius(k))
  {
    var l := Layout(trig);
    forall k | 0 <= k < |l|
      ensures OnCircle(l[k], RingRadius(k))
    {
      if k < 3 {
        assert l[k] == InnerSlice(trig, k);
        PolarOnCircle(trig, InnerAngle(trig, k), INNER_RADIUS, l[k]);
      } else if k < 8 {
        assert l[k] == MiddleSlice(trig, k - 3);
        PolarOnCircle(trig, MiddleAngle(trig, k - 3), MIDDLE_RADIUS, l[k]);
      } else {
        assert l[k] == OuterSlice(trig, k - 8);
        PolarOnCircle(trig, OuterAngle(trig, k - 8), OUTER_RADIUS, l[k]);
      }
    }
  }

  /** Rotations stay within a turn; for rings this small the `% 360` never
      wraps, so each rotation is the ring index times the ring's step. */
  lemma LayoutRotations(trig: Trig)
    ensures forall k :: 0 <= k < |Layout(trig)| ==> 0 <= Layout(trig)[k].rotation < 360
    ensures forall k :: 0 <= k < 3 ==> Layout(trig)[k].rotation == k * 37
    ensures forall k :: 3 <= k < 8 ==> Layout(trig)[k].rotation == (k - 3) * 53
    ensures forall k :: 8 <= k < 16 ==> Layout(trig)[k].rotation == (k - 8) * 41
  {
  }

  /** The sinusoidal size jitter keeps each ring within its band. */
  lemma LayoutScales(trig: Trig)
    requires trig.Valid()
    ensures forall k :: 0 <= k < 3 ==> 0.85 <= Layout(trig)[k].scale <= 1.05
    ensures forall k :: 3 <= k < 8 ==> 0.75 <= Layout(trig)[k].scale <= 1.05
    ensures forall k :: 8 <= k < 16 ==> 0.75 <= Layout(trig)[k].scale <= 0.95
  {
  }

  /** The lift part of a timeline: the frames at which the pepperoni lift,
      hover and descend. */
  datatype PhaseBounds = PhaseBounds(liftStart: int, liftEnd: int, hoverStart: int, hoverEnd: int,
                                     descendStart: int, descendEnd: int)
  {
    /** Each phase ends where the next begins, and none is empty. */
    predicate Contiguous() {
      liftStart < liftEnd == hoverStart < hoverEnd == descendStart < descendEnd
    }
  }

  /** The named phase boundaries of the `TIMELINE` record, in frames. */
  datatype Timeline = Timeline(tiltStart: int, tiltEnd: int, rotateStart: int, rotateEnd: int,
                               liftStart: int, liftEnd: int, hoverStart: int, hoverEnd: int,
                               descendStart: int, descendEnd: int, totalFrames: int, fps: int)
  {
    function Phases(): PhaseBounds {
      PhaseBounds(liftStart, liftEnd, hoverStart, hoverEnd, descendStart, descendEnd)
    }

    /** The five phases tile `[0, totalFrames)` in order. */
    predicate Contiguous() {
      0 == tiltStart < tiltEnd == rotateStart < rotateEnd == liftStart
        < liftEnd == hoverStart < hoverEnd == descendStart < descendEnd == totalFrames
    }
  }

  const TIMELINE: Timeline := Timeline(0, 45, 45, 75, 75, 105, 105, 126, 126, 150, 150, 30)

  datatype Phase = Tilting | Rotating | Lifting | Hovering | Descending

  function Span(t: Timeline, p: Phase): (int, int) {
    match p
    case Tilting => (t.tiltStart, t.tiltEnd)
    case Rotating => (t.rotateStart, t.rotateEnd)
    case Lifting => (t.liftStart, t.liftEnd)
    case Hovering => (t.hoverStart, t.hoverEnd)
    case Descending => (t.descendStart, t.descendEnd)
  }

  predicate InPhase(t: Timeline, p: Phase, frame: int) {
    Span(t, p).0 <= frame < Span(t, p).1
  }

  lemma TimelineIsContiguous()
    ensures TIMELINE.Contiguous() && TIMELINE.Phases().Contiguous()
    ensures TIMELINE.descendEnd == TIMELINE.totalFrames == 150
  {
  }

  /** In a contiguous timeline every frame of the composition belongs to
      exactly one phase, and frames outside it to none. */
  lemma {:induction false} PhasesPartitionFrames(t: Timeline, frame: int)
    requires t.Contiguous()
    ensures 0 <= frame < t.totalFrames <==> exists p :: InPhase(t, p, frame)
    ensures forall p, q :: InPhase(t, p, frame) && InPhase(t, q, frame) ==> p == q
  {
    if 0 <= frame < t.totalFrames {
      var p :=
        if frame < t.tiltEnd then Tilting
        else if frame < t.rotateEnd then Rotating
        else if frame < t.liftEnd then Lifting
        else if frame < t.hoverEnd then Hovering
        else Descending;
      assert InPhase(t, p, frame);
    }
  }

}
