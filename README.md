# Pizza website: frame-driven animation arithmetic, in Dafny

This project models the arithmetic behind the pizza website's animations, and proves properties of that model. The arithmetic turns an integer frame number, or a scroll fraction, into deterministic visual parameters:

- **The remotion video compositions.**
  - The radial pepperoni layout and its shared phase timeline (`pepperoniConfig.ts`).
  - The per-slice lift and shadow evaluator. It exists in two copies with different constants: `components/Pepperoni.tsx` and the inner `Pepperoni` of `PizzaExplode.tsx`.
  - The tilt-to-flat rotation of `PizzaExplode` (55°) and `PizzaDrop` (60°).
  - The looping image index of `PizzaSpin`.
- **The scroll-driven hero of the landing page (`ParallaxHero.tsx`).**
  - The preloading counter, in which errors count as loads.
  - The 383-slot forward-then-mirrored frame sequence.
  - The scroll-to-frame map.
  - The guard and contain-fit placement of `drawImage`.
  - Canvas sizing on resize.
- **The batch script `process_pepperoni_pizza.py`.** It filters and sorts the photographed frames by name, renumbers them by rank, skips outputs that already exist, keeps going after a failed file, and clears the bottom 12% of each image in place.

Modules, leaf first:

| file | module | models |
|---|---|---|
| options.dfy | `Options` | `Option` |
| trig.dfy | `Trig` | `Math.sin`, `Math.cos`, `Math.PI` as a parameter with their axioms |
| easing.dfy | `Easing` | the inline easing polynomials and the clamped `interpolate` / `useTransform` |
| decimal.dfy | `Decimal` | decimal rendering of frame numbers and `frame_<n><ext>` names |
| pepperoni_config.dfy | `PepperoniConfig` | `generatePepperoniSlices`, `TIMELINE` |
| lift.dfy | `Lift` | the lift piecewise function and shadow, generic in amplitude and shadow constants |
| pepperoni.dfy | `Pepperoni` | `components/Pepperoni.tsx` |
| rotation.dfy | `Rotation` | rotation progress, ease-in-out, tilt and perspective scale |
| pizza_explode.dfy | `PizzaExplode` | `PizzaExplode.tsx` |
| pizza_drop.dfy | `PizzaDrop` | `PizzaDrop.tsx` |
| pizza_spin.dfy | `PizzaSpin` | `PizzaSpin.tsx` |
| parallax_hero.dfy | `ParallaxHero` | `ParallaxHero.tsx` |
| lex_order.dfy | `LexOrder` | Python's `str` ordering and `sorted` |
| process_frames.dfy | `ProcessFrames` | `process_pepperoni_pizza.py` |

Modelling choices:

- **Numbers.** All arithmetic is over `real`; integers are unbounded. JavaScript's truncating `%` is written out (`PizzaSpin.JsRemainder`). `Math.floor` is `.Floor` and `Math.ceil` is `ParallaxHero.Ceil`.
- **Trigonometry.** `Math.sin`, `Math.cos` and `Math.PI` are fields of a `Trig.Trig` value passed to every operation that uses them. Its ghost `Valid()` states the axioms: |sin| ≤ 1, |cos| ≤ 1, sin² + cos² = 1 and sin 0 = 0. Lemmas that need them require `trig.Valid()`.
- **Interpolation.** remotion's `interpolate`, called with `extrapolateLeft` and `extrapolateRight` set to `'clamp'`, is re-implemented as `Easing.Interpolate`. So is framer-motion's `useTransform`, which clamps by default. Shadow functions therefore require `liftHeight > 0`.
- **Image slots.** The hero's sparse image arrays are `seq<Option<Picture>>`. A hole, or an index past the end, reads as `None` (`ParallaxHero.Slot`). A `Picture` has either both natural dimensions zero (it failed to decode) or both positive, as a browser reports them. The placement therefore never divides by zero.
- **Image callbacks.** Image load and error callbacks are a sequence of `LoadEvent`s delivered to `ParallaxHero.Preloader`, in the order the browser fires them.
- **Python I/O.** The Python script's I/O is a set of parameters:
  - `listing` is `os.listdir(input_dir)`.
  - `existing` is the set of names already in the output directory.
  - `decoded` maps each input that opens to the RGBA image that `rembg.remove`, `Image.open` and `convert("RGBA")` produce. An input missing from `decoded` raises inside the `try`.
- **Pixel access.** PIL's `pixels[x, y]` is an `array2<Pixel>` indexed `[y, x]`, so dimension 0 is the image height.

Two edge cases of the code:

- The descend branch of both lift functions includes its last frame (`frame <= DESCEND_END`), so the phases are not all half-open.
- remotion's `interpolate` throws on an empty input range, so `Easing.Interpolate` requires `inMin < inMax`. The rotation call sites pass constant ranges: the rotation frames and `[0, maxTilt]`. The shadow call sites pass `[0, liftHeight]`, where `liftHeight` is a prop or derived from the video size, so the shadow functions require `liftHeight > 0`.

## Model

| member | source | states |
|---|---|---|
| Easing.EaseOutCubic | remotion/components/Pepperoni.tsx:30 | ease-out cubic maps [0,1] into [0,1], stays below 1 before t = 1, fixes 0 and 1 |
| Easing.EaseInCubic | remotion/components/Pepperoni.tsx:40 | ease-in cubic maps [0,1] into [0,1] and fixes 0 and 1 |
| Easing.EaseInOutQuad | remotion/PizzaExplode.tsx:153-155 | ease-in-out quad maps [0,1] into [0,1] and sends 0, 0.5, 1 to 0, 0.5, 1 |
| Easing.EaseOutCubicMonotone | remotion/components/Pepperoni.tsx:30 | ease-out cubic is non-decreasing on [0,1] |
| Easing.EaseInCubicMonotone | remotion/components/Pepperoni.tsx:40 | ease-in cubic is non-decreasing on t ≥ 0 |
| Easing.EaseInOutQuadMonotone | remotion/PizzaDrop.tsx:18-20 | ease-in-out quad is non-decreasing on [0,1] |
| Easing.EaseInOutQuadContinuousAtHalf | remotion/PizzaDrop.tsx:17-20 | the two branches agree at 0.5 and the curve moves away from 0.5 at most twice as fast as t (continuity at the seam) |
| Easing.ClampedFraction | remotion/PizzaExplode.tsx:147-152 | the clamped position of x in [inMin,inMax] lies in [0,1], is 0 / 1 outside the range, and scales back to x - inMin inside it |
| Easing.ClampedFractionMonotone | remotion/PizzaExplode.tsx:147-152 | the clamped fraction is non-decreasing in x |
| Easing.Interpolate | remotion/components/Pepperoni.tsx:45-56 | clamped interpolation stays between outMin and outMax and equals outMin at or below inMin and outMax at or above inMax |
| Easing.InterpolateMonotone | remotion/components/Pepperoni.tsx:45-56 | clamped interpolation follows the direction of its output range: non-decreasing for rising outputs, non-increasing for falling ones |
| Easing.InterpolateAffine | remotion/PizzaExplode.tsx:159-162 | inside the input range the output is the affine image of the input |
| Decimal.NatToString | remotion/PizzaSpin.tsx:12 | a numeral is a non-empty digit string with no leading zero unless the number is 0 |
| Decimal.DigitsValueOfNatToString | remotion/PizzaSpin.tsx:12 | reading back the numeral gives the number (round trip) |
| Decimal.NatToStringInjective | remotion/PizzaSpin.tsx:12 | different numbers have different numerals |
| Decimal.FrameFileName | process_pepperoni_pizza.py:20 | `frame_<n><ext>` starts with `frame_`, ends with the extension and has their lengths plus the numeral's |
| Decimal.FrameFileNameInjective | remotion/PizzaSpin.tsx:12 | equal frame file names carry equal numbers |
| Decimal.FrameFileNamesDiffer | process_pepperoni_pizza.py:20 | different ranks give different output names |
| PepperoniConfig.GenerateSlices | remotion/utils/pepperoniConfig.ts:16-60 | the three push loops return exactly the inner, middle and outer rings in order, 16 slices, whatever `count` is |
| PepperoniConfig.Layout | remotion/utils/pepperoniConfig.ts:16-60 | the layout has 16 slices and each slice's id is its index in the result |
| PepperoniConfig.PolarOnCircle | remotion/utils/pepperoniConfig.ts:26-27 | (cos a · r, sin a · r) lies on the circle of radius r |
| PepperoniConfig.LayoutOnRings | remotion/utils/pepperoniConfig.ts:21-53 | slices come inner ring first, then middle, then outer, and each satisfies x² + y² = r² for its ring radius 0.25, 0.5 or 0.75 |
| PepperoniConfig.LayoutRotations | remotion/utils/pepperoniConfig.ts:29-55 | all rotations lie in [0,360) and equal i·37, i·53, i·41 without wrap-around |
| PepperoniConfig.LayoutScales | remotion/utils/pepperoniConfig.ts:28-54 | ring scales lie in [0.85,1.05], [0.75,1.05] and [0.75,0.95] |
| PepperoniConfig.TimelineIsContiguous | remotion/utils/pepperoniConfig.ts:63-87 | the phases run 0, 45, 75, 105, 126, 150 with each end equal to the next start and DESCEND_END = TOTAL_FRAMES |
| PepperoniConfig.PhasesPartitionFrames | remotion/utils/pepperoniConfig.ts:63-87 | in a contiguous timeline a frame belongs to some phase exactly when it lies in [0, TOTAL_FRAMES), and to at most one |
| Lift.LocalProgress | remotion/components/Pepperoni.tsx:29 | local progress is 0 at the phase start, 1 at its end and within [0,1) inside it |
| Lift.LocalProgressMonotone | remotion/components/Pepperoni.tsx:29 | local progress is non-decreasing in the frame |
| Lift.WobbleAngle | remotion/components/Pepperoni.tsx:35 | the wobble angle runs from 0 at the start of the hover to 2π at its end: one full sine period |
| Lift.BranchesDisjoint | remotion/components/Pepperoni.tsx:27-42 | the LIFT, HOVER and DESCEND conditions are pairwise disjoint |
| Lift.LiftAmount | remotion/components/Pepperoni.tsx:25-42 | in a contiguous timeline the lift is 0 before LIFT_START, after DESCEND_END, at LIFT_START and at DESCEND_END, and liftHeight at HOVER_START and DESCEND_START, so the three pieces join up |
| Lift.LiftPhaseRange | remotion/components/Pepperoni.tsx:27-31 | while lifting the lift lies in [0, liftHeight) and is 0 on the first frame |
| Lift.LiftPhaseRises | remotion/components/Pepperoni.tsx:27-31 | while lifting the lift is non-decreasing |
| Lift.HoverPhaseRange | remotion/components/Pepperoni.tsx:32-36 | while hovering the lift stays within the amplitude of liftHeight and equals liftHeight on the first frame |
| Lift.DescendPhaseRange | remotion/components/Pepperoni.tsx:37-42 | while descending (last frame included) the lift lies in [0, liftHeight], equals liftHeight first and 0 last |
| Lift.DescendPhaseFalls | remotion/components/Pepperoni.tsx:37-42 | while descending the lift is non-increasing |
| Lift.ShadowFor | remotion/components/Pepperoni.tsx:45-56 | each shadow parameter is clamped into its range, is at its resting value when the slice is down and at its maximum at full lift |
| Lift.ShadowMonotone | remotion/components/Pepperoni.tsx:45-56 | no shadow parameter decreases as the lift increases |
| Pepperoni.LiftAmount | remotion/components/Pepperoni.tsx:25-42 | on frames 75 to 150 the lift is 0 outside [75,150] and at 75 and 150, and liftHeight at 105 and 126 |
| Pepperoni.LiftByPhase | remotion/components/Pepperoni.tsx:25-42 | with amplitude 8: 0 outside [75,150], [0,h) on [75,105), [h-8,h+8] on [105,126), [0,h] on [126,150]; h at 105 and 126, 0 at 75 and 150 |
| Pepperoni.LiftMidway | remotion/components/Pepperoni.tsx:27-31 | at frame 90 the lift is 0.875 · liftHeight |
| Pepperoni.LiftMonotoneInPhases | remotion/components/Pepperoni.tsx:27-42 | the slice only rises on [75,105) and only falls on [126,150] |
| Pepperoni.Render | remotion/components/Pepperoni.tsx:18-88 | the slice box is centred on slice · radius · 0.85, is 45 · scale wide, lifts by the lift amount, and has a shadow exactly when the lift is positive; that shadow is the shadow of the lift, within [0,0.4], [2,20], [1,1.2] |
| Pepperoni.ShadowGrowsWithLift | remotion/components/Pepperoni.tsx:44-61 | a higher slice keeps its shadow and the shadow parameters do not shrink |
| Rotation.RotationProgress | remotion/PizzaDrop.tsx:11-16 | rotation progress lies in [0,1], is 0 up to ROTATE_START and 1 from ROTATE_END |
| Rotation.TiltAngle | remotion/PizzaDrop.tsx:22 | tilt lies in [0, maxTilt], is maxTilt up to ROTATE_START and 0 from ROTATE_END |
| Rotation.TiltAngleMonotone | remotion/PizzaExplode.tsx:156 | the tilt never increases as frames advance |
| Rotation.PerspectiveScale | remotion/PizzaExplode.tsx:159-162 | the perspective scale lies between minScale and 1, is 1 at tilt 0 and minScale at full tilt |
| Rotation.PerspectiveScaleMonotone | remotion/PizzaExplode.tsx:159-162 | the perspective scale never decreases as frames advance |
| PizzaExplode.TimelineMatchesShared | remotion/PizzaExplode.tsx:4-19 | the local timeline's boundaries equal the shared ones |
| PizzaExplode.PositionsInRange | remotion/PizzaExplode.tsx:23-49 | 22 positions, coordinates in [-0.55,0.55], scales in [0.85,1.0], every inset centre strictly inside the pizza |
| PizzaExplode.LiftAmount | remotion/PizzaExplode.tsx:66-81 | the lift is 0 outside [75,150] and at 75 and 150, and liftHeight at 105 and 126 |
| PizzaExplode.LiftByPhase | remotion/PizzaExplode.tsx:67-81 | 0 outside [75,150], [0,h) on [75,105), [h-6,h+6] on [105,126), [0,h] on [126,150]; h at 105 and 126, 0 at 75 and 150 |
| PizzaExplode.Render | remotion/PizzaExplode.tsx:59-138 | size 38 · scale, box centred horizontally on the base point and raised by the lift, shadow exactly when lift > 0, equal to the shadow of the lift and within [0,0.35], [2,18], [1,1.15] |
| PizzaExplode.SceneAt | remotion/PizzaExplode.tsx:143-169 | tilt in [0,55], scale in [0.88,1], 55/0.88 up to frame 45 and 0/1 from frame 75; pizzaSize = 0.75 · min(width,height), radius = size/2, liftHeight = 0.4 · size |
| PizzaExplode.SceneFlattens | remotion/PizzaExplode.tsx:147-162 | the tilt never increases and the perspective scale never decreases over the video |
| PizzaExplode.Pepperoni | remotion/PizzaExplode.tsx:218-227 | one rendered slice per position, in table order, each between 32.3 and 38 pixels wide |
| PizzaDrop.SceneAt | remotion/PizzaDrop.tsx:11-30 | tilt in [0,60] and scale in [0.85,1]; 60/0.85 up to frame 45 and 0/1 from frame 75 |
| PizzaDrop.SceneFlattens | remotion/PizzaDrop.tsx:11-30 | the tilt never increases and the perspective scale never decreases over the video |
| PizzaDrop.Explosion | remotion/PizzaDrop.tsx:87-90 | 16 slices rendered for radius 280 and lift height 250, every lift within [0,258] |
| PizzaSpin.JsRemainder | remotion/PizzaSpin.tsx:11 | JavaScript `%` lies in [0,n) for non-negative dividends and in (-n,0] for negative ones |
| PizzaSpin.JsRemainderIsRemainder | remotion/PizzaSpin.tsx:11 | the dividend equals the truncated quotient times the divisor plus the remainder, so `%` is the remainder of truncating division |
| PizzaSpin.PizzaFrame | remotion/PizzaSpin.tsx:11 | for every frame ≥ 0 the image number lies in [1,192] and is one more than the frame modulo 192 |
| PizzaSpin.PizzaFramePeriodic | remotion/PizzaSpin.tsx:11 | the image number repeats every 192 frames |
| PizzaSpin.FirstLoopInOrder | remotion/PizzaSpin.tsx:11 | over frames 0 to 191 the image number is frame + 1 |
| PizzaSpin.NegativeFrameMisses | remotion/PizzaSpin.tsx:11 | frame -1 would ask for image 0 |
| PizzaSpin.ImagePath | remotion/PizzaSpin.tsx:12 | the path lies in the turntable directory and ends in `.png` |
| PizzaSpin.ImagePathsExist | remotion/PizzaSpin.tsx:12 | the requested path names an image in [1,192], never frame_0.png or frame_193.png |
| ParallaxHero.TotalFramesIsRoundTrip | src/components/ParallaxHero.tsx:6-7 | TOTAL_FRAMES = 2 · 192 - 1 = 383 |
| ParallaxHero.Reversed | src/components/ParallaxHero.tsx:46-48 | the reversal has the same length and holds the k-th element from the end at position k |
| ParallaxHero.IsRoundTrip | src/components/ParallaxHero.tsx:43-49 | the slot-by-slot description of the round trip (empty slot 0, photographs 1..192, then 191..1) holds exactly when the sequence is the forward run followed by the reversed run |
| ParallaxHero.BuildFullSequence | src/components/ParallaxHero.tsx:43-49 | the two loops fill slots 1..192 with the photographs and slots 193..383 with photographs 191..1, which is the forward run followed by its reversal |
| ParallaxHero.RoundTripMirror | src/components/ParallaxHero.tsx:43-49 | full[k] = full[384 - k] for 1 ≤ k ≤ 383, and full[383] = full[1] = photograph 1 |
| ParallaxHero.RoundTripComplete | src/components/ParallaxHero.tsx:43-49 | with every photograph stored the sequence is defined exactly on [1,383] |
| ParallaxHero.Preloader.constructor | src/components/ParallaxHero.tsx:12-31 | nothing is stored, the counter is 0, `images` is empty and `isLoaded` is false |
| ParallaxHero.Preloader.HandleLoad | src/components/ParallaxHero.tsx:37-53 | stores the photograph in its slot, adds one to the counter, and sets `images` to the round trip and `isLoaded` exactly when the counter reaches 192 |
| ParallaxHero.Preloader.HandleError | src/components/ParallaxHero.tsx:55-58 | an error does exactly what a load does: the slot is taken and the counter advances |
| ParallaxHero.Preloader.Deliver | src/components/ParallaxHero.tsx:33-62 | the counter advances once per callback; a reported slot holds the picture of the last callback for it, and slots without a callback are untouched; when each photograph reports once, the hero ends loaded with every frame 1..383 present |
| ParallaxHero.FrameIndex | src/components/ParallaxHero.tsx:22 | the frame index lies in [1,383], is 1 at progress ≤ 0 and 383 at progress ≥ 1 |
| ParallaxHero.FrameIndexMonotone | src/components/ParallaxHero.tsx:22 | scrolling down never selects an earlier frame |
| ParallaxHero.FrameIndexReaches | src/components/ParallaxHero.tsx:22 | every frame of [1,383] is selected at progress (k-1)/382 |
| ParallaxHero.Placement | src/components/ParallaxHero.tsx:80-92 | the rectangle is centred horizontally and sits 20 (narrow) or 40 (wide) below the vertical centre |
| ParallaxHero.PlacementFits | src/components/ParallaxHero.tsx:80-92 | aspect ratio kept, size within margin · canvas on both axes and equal to it on one |
| ParallaxHero.DrawnRect | src/components/ParallaxHero.tsx:69-103 | a frame is painted exactly when its slot is filled, the image is complete and naturalWidth > 0, at the contain-fit placement |
| ParallaxHero.OnScroll | src/components/ParallaxHero.tsx:106-108 | a scroll change paints exactly when the selected slot is filled with a complete, decoded image, at its contain-fit placement |
| ParallaxHero.ScrollPaints | src/components/ParallaxHero.tsx:106-108 | nothing is painted before loading; after a full load of decoded photographs every scroll position paints; a broken photograph is skipped in both halves of the round trip |
| ParallaxHero.Ceil | src/components/ParallaxHero.tsx:121-122 | the ceiling is the least integer at or above its argument |
| ParallaxHero.Canvas.HandleResize | src/components/ParallaxHero.tsx:118-128 | the canvas becomes ceil(innerWidth) × ceil(innerHeight) and repaints at the new size only when the current frame's slot exists |
| LexOrder.LexLe | process_pepperoni_pizza.py:14 | Python string order (prefix first, then first differing character) |
| LexOrder.LexLeReflexive | process_pepperoni_pizza.py:14 | the order is reflexive |
| LexOrder.LexLeTotal | process_pepperoni_pizza.py:14 | any two strings are comparable |
| LexOrder.LexLeAntisymmetric | process_pepperoni_pizza.py:14 | strings ordered both ways are equal |
| LexOrder.LexLeTransitive | process_pepperoni_pizza.py:14 | the order is transitive |
| LexOrder.LexLeCommonPrefix | process_pepperoni_pizza.py:14 | a shared prefix does not change the comparison |
| LexOrder.FrameTenBeforeFrameTwo | process_pepperoni_pizza.py:14 | `frame_10.jpg` sorts before `frame_2.jpg` and not the other way |
| LexOrder.Insert | process_pepperoni_pizza.py:14 | inserting into a sorted list keeps it sorted and adds exactly the element |
| LexOrder.Sort | process_pepperoni_pizza.py:14 | `sorted` returns a sorted permutation of its input |
| LexOrder.SortedUnique | process_pepperoni_pizza.py:14 | two sorted permutations of the same list are equal, so any correct sort agrees with `Sort` |
| ProcessFrames.IsFrameJpg | process_pepperoni_pizza.py:14 | a name that passes the filter is `frame_`, a stem and `.jpg`, at least 10 characters long: prefix and suffix cannot overlap |
| ProcessFrames.FrameJpgOfStem | process_pepperoni_pizza.py:14 | every name `frame_<stem>.jpg` passes the filter |
| ProcessFrames.FrameFiles | process_pepperoni_pizza.py:14 | the filter keeps exactly the names that start with `frame_` and end with `.jpg`, with their multiplicities |
| ProcessFrames.Frames | process_pepperoni_pizza.py:14 | the processed names are sorted and are exactly the listing's frame photographs |
| ProcessFrames.MaskHeight | process_pepperoni_pizza.py:39 | the band height is ⌊0.12 · height⌋, within [0, height] |
| ProcessFrames.MaskHeightMonotone | process_pepperoni_pizza.py:39 | a taller image never gets a thinner band |
| ProcessFrames.Masked | process_pepperoni_pizza.py:41-44 | an image with the same dimensions whose bottom band is transparent and whose other pixels are unchanged |
| ProcessFrames.RowsOf | process_pepperoni_pizza.py:41 | the rows of a pixel buffer, pixel for pixel |
| ProcessFrames.LoadPixels | process_pepperoni_pizza.py:41 | a fresh pixel buffer holding exactly the image |
| ProcessFrames.MaskBottomBand | process_pepperoni_pizza.py:41-44 | the nested loops set every pixel of rows [h - m, h) to (0,0,0,0) and leave all rows above unchanged |
| ProcessFrames.ProcessOne | process_pepperoni_pizza.py:19-50 | skipped exactly when the output exists, failed exactly when it does not and opening raises, otherwise writes the masked image |
| ProcessFrames.NextNameIsFresh | process_pepperoni_pizza.py:18-20 | no earlier rank used the next rank's output name |
| ProcessFrames.RenumberedStep | process_pepperoni_pizza.py:18-50 | one more turn of the loop keeps the record of steps and saved images faithful |
| ProcessFrames.RenumberAll | process_pepperoni_pizza.py:18-50 | the loop visits every photograph once, in order |
| ProcessFrames.ProcessFrames | process_pepperoni_pizza.py:14-50 | the k-th name in sorted order is written to `frame_k.png`. It is skipped exactly when that file existed before the run and fails exactly when it cannot be opened. Otherwise it is saved with its bottom band cleared, a failure does not stop the rest, and nothing else is saved |

## Left out

- Rendering: JSX, CSS strings, gradients, `calc(...)` text and `translate`/`rotateX` transform strings are not modelled. Only the numbers that feed them are.
- Floating point: all arithmetic is exact `real`.
- ProcessFrames.MaskHeight: models `int(height * 0.12)` as ⌊12 · height / 100⌋. IEEE rounding of `0.12` is not modelled.
- `Math.sin`, `Math.cos`, `Math.PI` and `Math.pow`: beyond the four trigonometric axioms, no actual values are modelled. `Math.pow(x, 3)` is written as `x * x * x`.
- The remotion and framer-motion runtimes are not modelled; these functions are identified with the frame or progress parameter of each model function:
  - `useCurrentFrame`;
  - `useScroll`;
  - motion-value subscriptions.
- `useVideoConfig` is not modelled: the `width` and `height` it returns are the parameters of `PizzaExplode.SceneAt`.
- `staticFile` is not modelled: `PizzaSpin.ImagePath` returns the path inside the public directory that it is given.
- React state and hooks are not modelled: `useState`, `useEffect`, `useMemo`, cleanup of event listeners, and re-running the resize effect when `images` changes.
- Asynchrony: image loading is a sequence of `LoadEvent`s. What the browser does between callbacks is not modelled.
- ParallaxHero.DrawnRect: leaves out the `canvasRef.current` null check and the `getContext('2d')` null check. Both are taken to succeed. The white `fillRect` and the pixels `drawImage` writes are left out; the result is the destination rectangle.
- ParallaxHero.Canvas.HandleResize: the `canvasRef.current` check before sizing is left out, as are `history.scrollRestoration` and `window.scrollTo(0, 0)`.
- The hero's text-overlay `useTransform`s (opacity, scale, y of the two captions) are not modelled; they drive no frame logic.
- Python: `os.makedirs`, `tqdm` and the progress and error `print`s are not modelled. `os.path.exists` and `rembg.remove` / `Image.open` / `convert` are inputs: the `existing` set and the `decoded` map. The effect of `img.save` is the record of saved images (`saved`).
- ProcessFrames.ProcessOne: a failure is modelled as raising before anything is saved. A partially written file on a failing `img.save` is not modelled.
- ProcessFrames.IsFrameJpg: names come from `os.listdir`. A directory whose name passes the filter is not distinguished from a file.
- The other files of the repository are not part of this model: page layout, header, footer, menu highlights, the background-removal and vectorising scripts, and composition registration.
