/** remotion/PizzaSpin.tsx: the turntable video, which shows the 192 cut-out
    photographs of the pizza in a loop, one per video frame. */
module PizzaSpin {

  import opened Decimal

  const FRAME_COUNT: int := 192
  const IMAGE_DIRECTORY: string := "images/pepperoni-pizza-no-background/"

  /** JavaScript's `%`, whose result takes the sign of the dividend (Dafny's
      `%` is Euclidean and never negative). */
  function JsRemainder(a: int, n: int): (r: int)
    requires 0 < n
    ensures 0 <= a ==> 0 <= r < n
    ensures a < 0 ==> -n < r <= 0
  {
    if 0 <= a then a % n else -((-a) % n)
  }

  /** JavaScript's `/` followed by truncation towards zero. */
  function TruncatedQuotient(a: int, n: int): int
    requires 0 < n
  {
    if 0 <= a then a / n else -((-a) / n)
  }

  /** `JsRemainder` is the remainder of truncating division: the dividend is
      the truncated quotient times the divisor plus the remainder. */
  lemma JsRemainderIsRemainder(a: int, n: int)
    requires 0 < n
    ensures a == TruncatedQuotient(a, n) * n + JsRemainder(a, n)
  {
  }

  /** The 1-based image number shown at video frame `frame`. */
  function PizzaFrame(frame: int): (image: int)
    ensures 0 <= frame ==> 1 <= image <= FRAME_COUNT
    ensures 0 <= frame ==> image - 1 == frame % FRAME_COUNT
  {
    JsRemainder(frame, FRAME_COUNT) + 1
  }

  /** The images repeat with a period of 192 frames. */
  lemma {:induction false} PizzaFramePeriodic(frame: int)
    requires 0 <= frame
    ensures PizzaFrame(frame + FRAME_COUNT) == PizzaFrame(frame)
  {
    assert (frame + FRAME_COUNT) % FRAME_COUNT == frame % FRAME_COUNT;
  }

  /** Over the composition's 192 frames each image is shown exactly once, in
      order. */
  lemma FirstLoopInOrder(frame: int)
    requires 0 <= frame < FRAME_COUNT
    ensures PizzaFrame(frame) == frame + 1
  {
  }

  /** A negative frame would reach image 0, which does not exist; remotion
      never asks for one. */
  lemma NegativeFrameMisses()
    ensures PizzaFrame(-1) == 0
  {
  }

  /** The `staticFile` argument: a `.png` in the turntable directory. */
  function ImagePath(frame: int): (path: string)
    requires 0 <= frame
    ensures IMAGE_DIRECTORY <= path
    ensures |path| >= |IMAGE_DIRECTORY| + 4 && path[|path| - 4..] == ".png"
  {
    IMAGE_DIRECTORY + FrameFileName(PizzaFrame(frame), ".png")
  }

  /** The only files the composition requests are `frame_1.png` to
      `frame_192.png`; in particular never `frame_0.png` or
      `frame_193.png`. */
  lemma {:induction false} ImagePathsExist(frame: int)
    requires 0 <= frame
    ensures forall n: nat :: ImagePath(frame) == IMAGE_DIRECTORY + FrameFileName(n, ".png") ==> 1 <= n <= FRAME_COUNT
    ensures ImagePath(frame) != IMAGE_DIRECTORY + FrameFileName(0, ".png")
    ensures ImagePath(frame) != IMAGE_DIRECTORY + FrameFileName(193, ".png")
  {
    var p := PizzaFrame(frame);
    forall n: nat | ImagePath(frame) == IMAGE_DIRECTORY + FrameFileName(n, ".png")
      ensures 1 <= n <= FRAME_COUNT
    {
      var a, b := FrameFileName(p, ".png"), FrameFileName(n, ".png");
      assert (IMAGE_DIRECTORY + a)[|IMAGE_DIRECTORY|..] == a;
      assert (IMAGE_DIRECTORY + b)[|IMAGE_DIRECTORY|..] == b;
      FrameFileNameInjective(p, n, ".png");
    }
  }

}
