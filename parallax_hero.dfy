/** src/components/ParallaxHero.tsx: the scroll-driven hero, which preloads
    192 photographs, arranges them as a 383-frame round trip (forward, then
    back again) and paints the frame that the scroll position selects onto a
    full-viewport canvas. */
module ParallaxHero {

  import opened Options
  import opened Easing

  const FRAME_COUNT: nat := 192
  const TOTAL_FRAMES: nat := FRAME_COUNT + (FRAME_COUNT - 1)

  lemma TotalFramesIsRoundTrip()
    ensures TOTAL_FRAMES == 2 * FRAME_COUNT - 1 == 383
  {
  }

  /** An `HTMLImageElement` after its load or error event. A browser reports
      both natural dimensions as 0 for an image it could not decode and both
      positive for one it could. */
  datatype ImageElement = ImageElement(complete: bool, naturalWidth: int, naturalHeight: int)

  type Picture = img: ImageElement
    | 0 <= img.naturalWidth && 0 <= img.naturalHeight && (img.naturalWidth == 0 <==> img.naturalHeight == 0)
    witness ImageElement(true, 0, 0)

  /** `arr[index]` on a sparse JavaScript array: a hole and an index outside
      the array both read as `undefined`. */
  function Slot(arr: seq<Option<Picture>>, index: int): Option<Picture> {
    if 0 <= index < |arr| then arr[index] else None
  }

  // ---------------------------------------------------------------------------
  // The round-trip sequence
  // ---------------------------------------------------------------------------

  /** `s` back to front. */
  function Reversed<T>(s: seq<T>): (r: seq<T>)
    ensures |r| == |s|
    ensures forall i :: 0 <= i < |s| ==> r[i] == s[|s| - 1 - i]
  {
    if s == [] then [] else Reversed(s[1..]) + [s[0]]
  }

  /** The round trip as a whole: a hole, the photographs forward, then the
      photographs back again without repeating the turning point. */
  function RoundTripOf(unique: seq<Option<Picture>>): seq<Option<Picture>>
    requires |unique| == FRAME_COUNT + 1
  {
    [None] + unique[1..] + Reversed(unique[1..FRAME_COUNT])
  }

  lemma {:induction false} RoundTripOfSlots(unique: seq<Option<Picture>>)
    requires |unique| == FRAME_COUNT + 1
    ensures |RoundTripOf(unique)| == TOTAL_FRAMES + 1 && RoundTripOf(unique)[0] == None
    ensures forall k :: 1 <= k <= FRAME_COUNT ==> RoundTripOf(unique)[k] == unique[k]
    ensures forall k :: FRAME_COUNT < k <= TOTAL_FRAMES ==> RoundTripOf(unique)[k] == unique[2 * FRAME_COUNT - k]
  {
    var back := Reversed(unique[1..FRAME_COUNT]);
    assert forall k :: FRAME_COUNT < k <= TOTAL_FRAMES ==> RoundTripOf(unique)[k] == back[k - FRAME_COUNT - 1];
  }

  /** `full` is `fullSequence` built from `unique`: slot 0 is a hole, slots 1
      to 192 hold the photographs in order and slots 193 to 383 hold photographs
      191 down to 1. */
  predicate IsRoundTrip(full: seq<Option<Picture>>, unique: seq<Option<Picture>>): (b: bool)
    requires |unique| == FRAME_COUNT + 1
    ensures b <==> full == RoundTripOf(unique)
  {
    RoundTripOfSlots(unique);
    && |full| == TOTAL_FRAMES + 1
    && full[0] == None
    && (forall k :: 1 <= k <= FRAME_COUNT ==> full[k] == unique[k])
    && (forall k :: FRAME_COUNT < k <= TOTAL_FRAMES ==> full[k] == unique[2 * FRAME_COUNT - k])
  }

  /** The two loops of `handleLoad` that fill `fullSequence`, on an array of
      the 384 slots they reach. */
  method BuildFullSequence(unique: seq<Option<Picture>>) returns (full: seq<Option<Picture>>)
    requires |unique| == FRAME_COUNT + 1
    ensures IsRoundTrip(full, unique)
    ensures full == RoundTripOf(unique)
  {
    var fullSequence := new Option<Picture>[TOTAL_FRAMES + 1](_ => None);
    for j := 1 to FRAME_COUNT + 1
      invariant fullSequence[0] == None
      invariant forall k :: 1 <= k < j ==> fullSequence[k] == unique[k]
    {
      fullSequence[j] := unique[j];
    }
    for j := 1 to FRAME_COUNT
      invariant fullSequence[0] == None
      invariant forall k :: 1 <= k <= FRAME_COUNT ==> fullSequence[k] == unique[k]
      invariant forall k :: FRAME_COUNT < k < FRAME_COUNT + j ==> fullSequence[k] == unique[2 * FRAME_COUNT - k]
    {
      fullSequence[FRAME_COUNT + j] := unique[FRAME_COUNT - j];
    }
    full := fullSequence[..];
  }

  /** The round trip reads the same backwards: frame `k` and frame `384 - k`
      show the same photograph, the turning point (frame 192) appears once,
      and the last frame returns to the first photograph. */
  lemma {:induction false} RoundTripMirror(full: seq<Option<Picture>>, unique: seq<Option<Picture>>)
    requires |unique| == FRAME_COUNT + 1 && IsRoundTrip(full, unique)
    ensures forall k :: 1 <= k <= TOTAL_FRAMES ==> full[k] == full[2 * FRAME_COUNT - k]
    ensures full[FRAME_COUNT] == unique[FRAME_COUNT]
    ensures full[TOTAL_FRAMES] == unique[1] && full[1] == unique[1]
  {
    forall k | 1 <= k <= TOTAL_FRAMES
      ensures full[k] == full[2 * FRAME_COUNT - k]
    {
      if k <= FRAME_COUNT {
        assert full[k] == unique[k];
        if k < FRAME_COUNT {
          assert full[2 * FRAME_COUNT - k] == unique[k];
        }
      } else {
        assert full[2 * FRAME_COUNT - k] == unique[2 * FRAME_COUNT - k];
      }
    }
  }

  /** Once every photograph has a slot, the round trip is defined exactly on
      frames 1 to 383. */
  lemma {:induction false} RoundTripComplete(full: seq<Option<Picture>>, unique: seq<Option<Picture>>)
    requires |unique| == FRAME_COUNT + 1 && IsRoundTrip(full, unique)
    requires forall i :: 1 <= i <= FRAME_COUNT ==> unique[i].Some?
    ensures forall k :: Slot(full, k).Some? <==> 1 <= k <= TOTAL_FRAMES
  {
    forall k
      ensures Slot(full, k).Some? <==> 1 <= k <= TOTAL_FRAMES
    {
      if 1 <= k <= FRAME_COUNT {
        assert full[k] == unique[k];
      } else if FRAME_COUNT < k <= TOTAL_FRAMES {
        assert full[k] == unique[2 * FRAME_COUNT - k];
      }
    }
  }

  // ---------------------------------------------------------------------------
  // Preloading
  // ---------------------------------------------------------------------------

  /** One callback of an image: `onload` or `onerror`, for photograph
      `index`. */
  datatype LoadEvent = Load(index: int, img: Picture) | Error(index: int, img: Picture)

  /** Some callback in `events` is for photograph `i`. */
  predicate Reports(events: seq<LoadEvent>, i: int) {
    exists k :: 0 <= k < |events| && events[k].index == i
  }

  /** The first `j` callbacks of `events` are all for photographs. */
  predicate InFrames(events: seq<LoadEvent>, j: int) {
    0 <= j <= |events| && forall k :: 0 <= k < |events| ==> 1 <= events[k].index <= FRAME_COUNT
  }

  /** Callback `k` is the last of the first `j` for its photograph. */
  predicate LastFor(events: seq<LoadEvent>, j: int, k: int)
    requires 0 <= k < j <= |events|
  {
    forall k2 :: k < k2 < j ==> events[k2].index != events[k].index
  }

  /** After the first `j` callbacks every reported slot is filled. */
  ghost predicate FilledSlots(events: seq<LoadEvent>, j: int, slots: seq<Option<Picture>>)
    requires InFrames(events, j) && |slots| == FRAME_COUNT + 1
  {
    forall k :: 0 <= k < j ==> slots[events[k].index].Some?
  }

  /** After the first `j` callbacks a reported slot holds the picture of its
      last callback. */
  ghost predicate LastPictures(events: seq<LoadEvent>, j: int, slots: seq<Option<Picture>>)
    requires InFrames(events, j) && |slots| == FRAME_COUNT + 1
  {
    forall k :: 0 <= k < j && LastFor(events, j, k) ==> slots[events[k].index] == Some(events[k].img)
  }

  /** After the first `j` callbacks a slot without a callback is as it was. */
  ghost predicate UntouchedSlots(events: seq<LoadEvent>, j: int, start: seq<Option<Picture>>,
                                 slots: seq<Option<Picture>>)
    requires InFrames(events, j) && |start| == |slots| == FRAME_COUNT + 1
  {
    forall i :: 1 <= i <= FRAME_COUNT && (forall k :: 0 <= k < j ==> events[k].index != i) ==>
      slots[i] == start[i]
  }

  /** One more callback keeps every reported slot filled. */
  lemma {:induction false} FilledStep(events: seq<LoadEvent>, j: int, slots: seq<Option<Picture>>)
    requires InFrames(events, j) && j < |events| && |slots| == FRAME_COUNT + 1
    requires FilledSlots(events, j, slots)
    ensures FilledSlots(events, j + 1, slots[events[j].index := Some(events[j].img)])
  {
    var next := slots[events[j].index := Some(events[j].img)];
    forall k | 0 <= k < j + 1
      ensures next[events[k].index].Some?
    {
      if events[k].index != events[j].index {
        assert next[events[k].index] == slots[events[k].index];
      }
    }
  }

  /** One more callback stores its own picture and keeps the slots whose
      last callback came earlier. */
  lemma {:induction false} LastPicturesStep(events: seq<LoadEvent>, j: int, slots: seq<Option<Picture>>)
    requires InFrames(events, j) && j < |events| && |slots| == FRAME_COUNT + 1
    requires LastPictures(events, j, slots)
    ensures LastPictures(events, j + 1, slots[events[j].index := Some(events[j].img)])
  {
    var next := slots[events[j].index := Some(events[j].img)];
    forall k | 0 <= k < j + 1 && LastFor(events, j + 1, k)
      ensures next[events[k].index] == Some(events[k].img)
    {
      if k < j {
        assert events[j].index != events[k].index;
        assert LastFor(events, j, k);
      }
    }
  }

  /** One more callback leaves every slot without a callback as it was. */
  lemma {:induction false} UntouchedStep(events: seq<LoadEvent>, j: int, start: seq<Option<Picture>>,
                                         slots: seq<Option<Picture>>)
    requires InFrames(events, j) && j < |events| && |start| == |slots| == FRAME_COUNT + 1
    requires UntouchedSlots(events, j, start, slots)
    ensures UntouchedSlots(events, j + 1, start, slots[events[j].index := Some(events[j].img)])
  {
    var next := slots[events[j].index := Some(events[j].img)];
    forall i | 1 <= i <= FRAME_COUNT && (forall k :: 0 <= k < j + 1 ==> events[k].index != i)
      ensures next[i] == start[i]
    {
      assert events[j].index != i;
    }
  }

  /** The state of the preload effect (`uniqueImages`, `uniqueLoadedCount`)
      together with the component state it sets (`images`, `isLoaded`). */
  class Preloader {
    var uniqueImages: seq<Option<Picture>>
    var uniqueLoadedCount: nat
    var images: seq<Option<Picture>>
    var isLoaded: bool
    /** `uniqueImages` as it was when the counter reached 192. */
    ghost var snapshot: seq<Option<Picture>>

    ghost predicate Valid()
      reads this
    {
      && |uniqueImages| == FRAME_COUNT + 1
      && uniqueImages[0] == None
      && |snapshot| == FRAME_COUNT + 1
      && (isLoaded <==> uniqueLoadedCount >= FRAME_COUNT)
      && (!isLoaded ==> images == [])
      && (isLoaded ==> IsRoundTrip(images, snapshot))
      && (uniqueLoadedCount == FRAME_COUNT ==> snapshot == uniqueImages)
    }

    constructor ()
      ensures Valid()
      ensures uniqueLoadedCount == 0 && !isLoaded && images == []
      ensures forall i :: 0 <= i < |uniqueImages| ==> uniqueImages[i] == None
    {
      uniqueImages := seq(FRAME_COUNT + 1, _ => None);
      uniqueLoadedCount := 0;
      images := [];
      isLoaded := false;
      snapshot := seq(FRAME_COUNT + 1, _ => None);
    }

    /** `handleLoad` for photograph `i`: store it, count it, and publish the
        round trip when the count reaches exactly 192. */
    method HandleLoad(i: int, img: Picture)
      requires Valid() && 1 <= i <= FRAME_COUNT
      modifies this
      ensures Valid()
      ensures uniqueImages == old(uniqueImages)[i := Some(img)]
      ensures uniqueLoadedCount == old(uniqueLoadedCount) + 1
      ensures uniqueLoadedCount == FRAME_COUNT ==> isLoaded && IsRoundTrip(images, uniqueImages)
      ensures uniqueLoadedCount != FRAME_COUNT ==> images == old(images) && isLoaded == old(isLoaded)
    {
      uniqueImages := uniqueImages[i := Some(img)];
      uniqueLoadedCount := uniqueLoadedCount + 1;
      if uniqueLoadedCount == FRAME_COUNT {
        var fullSequence := BuildFullSequence(uniqueImages);
        images := fullSequence;
        isLoaded := true;
        snapshot := uniqueImages;
      }
    }

    /** `handleError` for photograph `i`: it logs and then does exactly what
        `handleLoad` does, so a broken image still counts and still takes its
        slot. */
    method HandleError(i: int, img: Picture)
      requires Valid() && 1 <= i <= FRAME_COUNT
      modifies this
      ensures Valid()
      ensures uniqueImages == old(uniqueImages)[i := Some(img)]
      ensures uniqueLoadedCount == old(uniqueLoadedCount) + 1
      ensures uniqueLoadedCount == FRAME_COUNT ==> isLoaded && IsRoundTrip(images, uniqueImages)
      ensures uniqueLoadedCount != FRAME_COUNT ==> images == old(images) && isLoaded == old(isLoaded)
    {
      HandleLoad(i, img);
    }

    /** Runs a sequence of image callbacks in the order the browser fires
        them. When the 192 photographs each report once, by load or by error,
        the hero ends up loaded with every frame from 1 to 383 in place. */
    method Deliver(events: seq<LoadEvent>)
      requires Valid()
      requires forall k :: 0 <= k < |events| ==> 1 <= events[k].index <= FRAME_COUNT
      modifies this
      ensures Valid()
      ensures uniqueLoadedCount == old(uniqueLoadedCount) + |events|
      ensures forall k :: 0 <= k < |events| ==> uniqueImages[events[k].index].Some?
      ensures forall k :: 0 <= k < |events| && (forall k2 :: k < k2 < |events| ==> events[k2].index != events[k].index) ==>
        uniqueImages[events[k].index] == Some(events[k].img)
      ensures forall i :: 1 <= i <= FRAME_COUNT && (forall k :: 0 <= k < |events| ==> events[k].index != i) ==>
        uniqueImages[i] == old(uniqueImages)[i]
      ensures old(uniqueLoadedCount) == 0 && |events| == FRAME_COUNT &&
              (forall i :: 1 <= i <= FRAME_COUNT ==> Reports(events, i)) ==>
                isLoaded && forall k :: Slot(images, k).Some? <==> 1 <= k <= TOTAL_FRAMES
    {
      var j := 0;
      while j < |events|
        invariant 0 <= j <= |events|
        invariant Valid()
        invariant uniqueLoadedCount == old(uniqueLoadedCount) + j
        invariant InFrames(events, j) && |old(uniqueImages)| == FRAME_COUNT + 1
        invariant FilledSlots(events, j, uniqueImages)
        invariant LastPictures(events, j, uniqueImages)
        invariant UntouchedSlots(events, j, old(uniqueImages), uniqueImages)
      {
        FilledStep(events, j, uniqueImages);
        LastPicturesStep(events, j, uniqueImages);
        UntouchedStep(events, j, old(uniqueImages), uniqueImages);
        match events[j] {
          case Load(i, img) => HandleLoad(i, img);
          case Error(i, img) => HandleError(i, img);
        }
        j := j + 1;
      }
      if old(uniqueLoadedCount) == 0 && |events| == FRAME_COUNT &&
         (forall i :: 1 <= i <= FRAME_COUNT ==> Reports(events, i))
      {
        forall i | 1 <= i <= FRAME_COUNT
          ensures uniqueImages[i].Some?
        {
          assert Reports(events, i);
          var k :| 0 <= k < |events| && events[k].index == i;
        }
        RoundTripComplete(images, uniqueImages);
      }
    }
  }

  // ---------------------------------------------------------------------------
  // Scroll position to frame
  // ---------------------------------------------------------------------------

  /** `Math.floor` of `useTransform(scrollYProgress, [0, 1], [1, 383])`,
      which clamps outside the input range. */
  function FrameIndex(progress: real): (index: int)
    ensures 1 <= index <= TOTAL_FRAMES
    ensures progress <= 0.0 ==> index == 1
    ensures progress >= 1.0 ==> index == TOTAL_FRAMES
  {
    Interpolate(progress, 0.0, 1.0, 1.0, TOTAL_FRAMES as real).Floor
  }

  /** Scrolling down never goes back to an earlier frame. */
  lemma {:induction false} FrameIndexMonotone(p1: real, p2: real)
    requires p1 <= p2
    ensures FrameIndex(p1) <= FrameIndex(p2)
  {
    InterpolateMonotone(p1, p2, 0.0, 1.0, 1.0, TOTAL_FRAMES as real);
  }

  /** Every frame of the round trip is reached at some scroll position. */
  lemma {:induction false} FrameIndexReaches(k: int)
    requires 1 <= k <= TOTAL_FRAMES
    ensures var p := (k - 1) as real / (TOTAL_FRAMES - 1) as real;
      0.0 <= p <= 1.0 && FrameIndex(p) == k
  {
    var p := (k - 1) as real / (TOTAL_FRAMES - 1) as real;
    UnitFraction((k - 1) as real, (TOTAL_FRAMES - 1) as real);
    InterpolateAffine(p, 0.0, 1.0, 1.0, TOTAL_FRAMES as real);
    assert p * (TOTAL_FRAMES - 1) as real == (k - 1) as real;
    assert Interpolate(p, 0.0, 1.0, 1.0, TOTAL_FRAMES as real) == k as real;
  }

  // ---------------------------------------------------------------------------
  // Painting
  // ---------------------------------------------------------------------------

  /** A destination rectangle of `context.drawImage`. */
  datatype Rect = Rect(x: real, y: real, width: real, height: real)

  /** Narrow canvases (under 768 pixels) keep 92% of the space, wider ones
      88%. */
  function MarginFactor(canvasWidth: int): real {
    if canvasWidth < 768 then 0.92 else 0.88
  }

  /** The picture sits 20 pixels (narrow) or 40 pixels (wide) below centre. */
  function VerticalOffset(canvasWidth: int): real {
    if canvasWidth < 768 then 20.0 else 40.0
  }


  /** The contain-fit placement that `drawImage` computes: centred
      horizontally, and dropped below the centre by the vertical offset. */
  function Placement(canvasWidth: int, canvasHeight: int, img: Picture): (r: Rect)
    requires 0 < img.naturalWidth
    ensures r.x + r.width / 2.0 == canvasWidth as real / 2.0
    ensures r.y + r.height / 2.0 == canvasHeight as real / 2.0 + VerticalOffset(canvasWidth)
  {
    var widthRatio := canvasWidth as real / img.naturalWidth as real;
    var heightRatio := canvasHeight as real / img.naturalHeight as real;
    var scale := Min(widthRatio, heightRatio) * MarginFactor(canvasWidth);
    var destWidth := img.naturalWidth as real * scale;
    var destHeight := img.naturalHeight as real * scale;
    Rect(canvasWidth as real / 2.0 - destWidth / 2.0,
         canvasHeight as real / 2.0 - destHeight / 2.0 + VerticalOffset(canvasWidth),
         destWidth, destHeight)
  }

  /** The placement keeps the photograph's aspect ratio, fits it inside the
      margin on both axes and fills the margin on at least one. */
  lemma {:induction false} PlacementFits(canvasWidth: int, canvasHeight: int, img: Picture)
    requires 0 < img.naturalWidth
    ensures var r := Placement(canvasWidth, canvasHeight, img);
      && r.width * img.naturalHeight as real == r.height * img.naturalWidth as real
      && r.width <= MarginFactor(canvasWidth) * canvasWidth as real
      && r.height <= MarginFactor(canvasWidth) * canvasHeight as real
      && (r.width == MarginFactor(canvasWidth) * canvasWidth as real ||
          r.height == MarginFactor(canvasWidth) * canvasHeight as real)
  {
    var cw, ch := canvasWidth as real, canvasHeight as real;
    var nw, nh := img.naturalWidth as real, img.naturalHeight as real;
    var m := MarginFactor(canvasWidth);
    var wr, hr := cw / nw, ch / nh;
    var s := Min(wr, hr);
    var r := Placement(canvasWidth, canvasHeight, img);
    assert wr * nw == cw;
    assert hr * nh == ch;
    assert r.width == nw * (s * m) && r.height == nh * (s * m);
    assert r.width * nh == r.height * nw by {
      assert nw * (s * m) * nh == nh * (s * m) * nw;
    }
    assert 0.0 < nh && 0.0 <= m && s <= wr && s <= hr;
    SideFits(nw, s, wr, cw, m);
    SideFits(nh, s, hr, ch, m);
    assert r.width == m * (nw * s) && r.height == m * (nh * s);
    if s == wr {
      assert nw * s == cw;
    } else {
      assert nh * s == ch;
    }
  }

  /** A side of `n` pixels scaled by `s`, no more than the ratio that maps it
      onto `side`, fits within `m` times `side`. */
  lemma {:induction false} SideFits(n: real, s: real, ratio: real, side: real, m: real)
    requires 0.0 < n && s <= ratio && ratio * n == side && 0.0 <= m
    ensures n * s <= side
    ensures m * (n * s) <= m * side
  {
    MulLeft(n, s, ratio);
    assert n * ratio == side;
    MulLeft(m, n * s, side);
  }

  /** `drawImage(index)`: the rectangle painted, or `None` when the guard
      skips the frame because its slot is empty, the image is not complete or
      it has no natural width (a photograph that failed to load). */
  function DrawnRect(images: seq<Option<Picture>>, index: int, canvasWidth: int, canvasHeight: int): (r: Option<Rect>)
    ensures r.Some? <==>
      Slot(images, index).Some? && Slot(images, index).value.complete && Slot(images, index).value.naturalWidth > 0
    ensures r.Some? ==> r.value == Placement(canvasWidth, canvasHeight, Slot(images, index).value)
  {
    match Slot(images, index)
    case None => None
    case Some(img) =>
      if img.complete && img.naturalWidth > 0 then Some(Placement(canvasWidth, canvasHeight, img)) else None
  }

  /** The `change` handler of the frame index: paint the frame the scroll
      position selects. */
  function OnScroll(images: seq<Option<Picture>>, progress: real, canvasWidth: int, canvasHeight: int): (r: Option<Rect>)
    ensures var k := FrameIndex(progress);
      r.Some? <==> Slot(images, k).Some? && Slot(images, k).value.complete && Slot(images, k).value.naturalWidth > 0
    ensures var k := FrameIndex(progress);
      r.Some? ==> r.value == Placement(canvasWidth, canvasHeight, Slot(images, k).value)
  {
    DrawnRect(images, FrameIndex(progress), canvasWidth, canvasHeight)
  }

  /** Before the sequence has loaded nothing is painted; once a round trip of
      decoded photographs has loaded, every scroll position paints one, and a
      photograph that failed to load is skipped wherever it appears. */
  lemma {:induction false} ScrollPaints(full: seq<Option<Picture>>, unique: seq<Option<Picture>>, progress: real,
                                        canvasWidth: int, canvasHeight: int)
    requires |unique| == FRAME_COUNT + 1 && IsRoundTrip(full, unique)
    ensures OnScroll([], progress, canvasWidth, canvasHeight) == None
    ensures (forall i :: 1 <= i <= FRAME_COUNT ==> unique[i].Some? && unique[i].value.complete && unique[i].value.naturalWidth > 0)
      ==> OnScroll(full, progress, canvasWidth, canvasHeight).Some?
    ensures forall i :: 1 <= i <= FRAME_COUNT && unique[i].Some? && unique[i].value.naturalWidth == 0 ==>
      DrawnRect(full, i, canvasWidth, canvasHeight) == None && DrawnRect(full, 2 * FRAME_COUNT - i, canvasWidth, canvasHeight) == None
  {
    var k := FrameIndex(progress);
    RoundTripMirror(full, unique);
    if k <= FRAME_COUNT {
      assert full[k] == unique[k];
    } else {
      assert full[k] == unique[2 * FRAME_COUNT - k];
    }
  }

  // ---------------------------------------------------------------------------
  // Resizing
  // ---------------------------------------------------------------------------

  /** `Math.ceil`. */
  function Ceil(x: real): (c: int)
    ensures x <= c as real < x + 1.0
  {
    -((-x).Floor)
  }

  /** The hero's canvas element, whose backing-store size the resize handler
      sets. */
  class Canvas {
    var width: int
    var height: int

    constructor (width: int, height: int)
      ensures this.width == width && this.height == height
    {
      this.width := width;
      this.height := height;
    }

    /** `handleResize`: size the canvas to the viewport, rounded up to whole
        pixels, and repaint straight away, but only when the current frame's
        slot is filled. */
    method HandleResize(innerWidth: real, innerHeight: real, images: seq<Option<Picture>>, progress: real)
      returns (drawn: Option<Rect>)
      modifies this
      ensures width == Ceil(innerWidth) && height == Ceil(innerHeight)
      ensures Slot(images, FrameIndex(progress)).None? ==> drawn == None
      ensures Slot(images, FrameIndex(progress)).Some? ==> drawn == DrawnRect(images, FrameIndex(progress), width, height)
    {
      width := Ceil(innerWidth);
      height := Ceil(innerHeight);
      drawn := None;
      if Slot(images, FrameIndex(progress)).Some? {
        drawn := DrawnRect(images, FrameIndex(progress), width, height);
      }
    }
  }

}
