/** process_pepperoni_pizza.py: the one-off batch job that renumbers the
    photographed frames by their rank in sorted order, cuts each one out, and
    clears the bottom 12% of every image to hide a watermark. */
module ProcessFrames {

  import opened LexOrder
  import opened Decimal

  /** `name.startswith("frame_") and name.endswith(".jpg")`, case-sensitive
      as `str` methods are. The prefix and the suffix cannot overlap, so such
      a name is `frame_`, a stem, then `.jpg`. */
  predicate IsFrameJpg(name: string): (b: bool)
    ensures b ==> |name| >= 10 && name == "frame_" + name[6..|name| - 4] + ".jpg"
  {
    if |name| >= 6 && name[..6] == "frame_" && |name| >= 4 && name[|name| - 4..] == ".jpg" then
      PrefixSuffixApart(name);
      true
    else
      false
  }

  lemma {:induction false} PrefixSuffixApart(name: string)
    requires |name| >= 6 && name[..6] == "frame_" && |name| >= 4 && name[|name| - 4..] == ".jpg"
    ensures |name| >= 10 && name == "frame_" + name[6..|name| - 4] + ".jpg"
  {
    assert forall j :: 0 <= j < 6 ==> name[j] == name[..6][j] != '.';
    assert name[|name| - 4] == name[|name| - 4..][0] == '.';
    assert name == name[..6] + name[6..|name| - 4] + name[|name| - 4..];
  }

  /** Conversely, every name of that shape passes the filter. */
  lemma {:induction false} FrameJpgOfStem(stem: string)
    ensures IsFrameJpg("frame_" + stem + ".jpg")
  {
    var name := "frame_" + stem + ".jpg";
    assert name[..6] == "frame_";
    assert name[|name| - 4..] == ".jpg";
  }

  /** The list comprehension over `os.listdir`: the frame photographs, in
      directory order. */
  function FrameFiles(listing: seq<string>): (r: seq<string>)
    ensures forall name :: multiset(r)[name] == if IsFrameJpg(name) then multiset(listing)[name] else 0
    ensures forall k :: 0 <= k < |r| ==> IsFrameJpg(r[k])
    decreases |listing|
  {
    if listing == [] then []
    else
      assert listing == [listing[0]] + listing[1..];
      if IsFrameJpg(listing[0]) then [listing[0]] + FrameFiles(listing[1..]) else FrameFiles(listing[1..])
  }

  /** `frames`: the frame photographs in Python's string order. */
  function Frames(listing: seq<string>): (frames: seq<string>)
    ensures Sorted(frames)
    ensures forall name :: name in frames <==> name in listing && IsFrameJpg(name)
    ensures forall name :: multiset(frames)[name] == if IsFrameJpg(name) then multiset(listing)[name] else 0
  {
    Sort(FrameFiles(listing))
  }

  // ---------------------------------------------------------------------------
  // Pixel buffers
  // ---------------------------------------------------------------------------

  newtype byte = x: int | 0 <= x < 256

  /** An RGBA pixel, as `convert("RGBA")` leaves it. */
  datatype Pixel = Pixel(r: byte, g: byte, b: byte, a: byte)

  const TRANSPARENT: Pixel := Pixel(0, 0, 0, 0)

  predicate Rectangular(rows: seq<seq<Pixel>>) {
    forall y :: 0 <= y < |rows| ==> |rows[y]| == |rows[0]|
  }

  /** An image as its rows, top first. */
  type Bitmap = rows: seq<seq<Pixel>> | Rectangular(rows) witness []

  /** `int(height * 0.12)`: 12% of the height, rounded down. */
  function MaskHeight(height: nat): (m: nat)
    ensures m <= height
    ensures m * 100 <= height * 12 < (m + 1) * 100
  {
    height * 12 / 100
  }

  /** A taller image never gets a thinner band. */
  lemma {:induction false} MaskHeightMonotone(h1: nat, h2: nat)
    requires h1 <= h2
    ensures MaskHeight(h1) <= MaskHeight(h2)
  {
    var m1, m2 := MaskHeight(h1), MaskHeight(h2);
    assert m1 * 100 < (m2 + 1) * 100;
  }

  /** The image with its bottom `MaskHeight` rows made transparent and the
      rows above left as they were. */
  function Masked(rows: Bitmap): (r: Bitmap)
    ensures |r| == |rows| && forall y :: 0 <= y < |r| ==> |r[y]| == |rows[y]|
    ensures forall y, x :: 0 <= y < |rows| && 0 <= x < |rows[y]| ==>
      r[y][x] == if y >= |rows| - MaskHeight(|rows|) then TRANSPARENT else rows[y][x]
  {
    var band := |rows| - MaskHeight(|rows|);
    seq(|rows|, y requires 0 <= y < |rows| => if y < band then rows[y] else seq(|rows[y]|, _ => TRANSPARENT))
  }

  /** The rows of a pixel buffer indexed `[y, x]`. */
  function RowsOf(pixels: array2<Pixel>): (rows: Bitmap)
    reads pixels
    ensures |rows| == pixels.Length0
    ensures forall y :: 0 <= y < |rows| ==> |rows[y]| == pixels.Length1
    ensures forall y, x :: 0 <= y < pixels.Length0 && 0 <= x < pixels.Length1 ==> rows[y][x] == pixels[y, x]
  {
    seq(pixels.Length0, y requires 0 <= y < pixels.Length0 reads pixels =>
      seq(pixels.Length1, x requires 0 <= x < pixels.Length1 reads pixels => pixels[y, x]))
  }

  /** The pixel access object of `img.load()`. */
  method LoadPixels(rows: Bitmap) returns (pixels: array2<Pixel>)
    ensures fresh(pixels) && RowsOf(pixels) == rows
  {
    var width := if |rows| == 0 then 0 else |rows[0]|;
    pixels := new Pixel[|rows|, width]((y, x) requires 0 <= y < |rows| && 0 <= x < width => rows[y][x]);
    assert forall y :: 0 <= y < |rows| ==> RowsOf(pixels)[y] == rows[y];
  }

  /** The masking loops: every pixel of the bottom `MaskHeight` rows becomes
      transparent black, in place, and every other pixel keeps its value. */
  method MaskBottomBand(pixels: array2<Pixel>)
    modifies pixels
    ensures forall y, x :: 0 <= y < pixels.Length0 && 0 <= x < pixels.Length1 ==>
      pixels[y, x] == if y >= pixels.Length0 - MaskHeight(pixels.Length0) then TRANSPARENT else old(pixels[y, x])
    ensures RowsOf(pixels) == Masked(old(RowsOf(pixels)))
  {
    ghost var before := RowsOf(pixels);
    var height, width := pixels.Length0, pixels.Length1;
    var maskHeight := MaskHeight(height);
    for y := height - maskHeight to height
      invariant forall yy, x :: 0 <= yy < height && 0 <= x < width ==>
        pixels[yy, x] == if height - maskHeight <= yy < y then TRANSPARENT else old(pixels[yy, x])
    {
      for x := 0 to width
        invariant forall yy, xx :: 0 <= yy < height && 0 <= xx < width ==>
          pixels[yy, xx] == if height - maskHeight <= yy < y || (yy == y && xx < x) then TRANSPARENT else old(pixels[yy, xx])
      {
        pixels[y, x] := TRANSPARENT;
      }
    }
    assert forall y :: 0 <= y < height ==> RowsOf(pixels)[y] == Masked(before)[y];
  }

  // ---------------------------------------------------------------------------
  // The batch loop
  // ---------------------------------------------------------------------------

  datatype Outcome = Skipped | Written | Failed

  /** What the loop did with one photograph: its input name, the output name
      it was given, and whether it was skipped, saved or reported as an
      error. */
  datatype Step = Step(input: string, output: string, outcome: Outcome)

  /** The body of the loop for one photograph: skip it when its output name
      is already taken; otherwise open it, clear the band and produce the
      image to save, or fail when opening raises. */
  method ProcessOne(filename: string, outputPath: string, outputDir: set<string>, decoded: map<string, Bitmap>)
    returns (outcome: Outcome, image: Bitmap)
    ensures outcome == Skipped <==> outputPath in outputDir
    ensures outcome == Failed <==> outputPath !in outputDir && filename !in decoded
    ensures outcome == Written ==> filename in decoded && image == Masked(decoded[filename])
  {
    image := [];
    if outputPath in outputDir {
      outcome := Skipped;
    } else if filename in decoded {
      var pixels := LoadPixels(decoded[filename]);
      MaskBottomBand(pixels);
      image := RowsOf(pixels);
      outcome := Written;
    } else {
      outcome := Failed;
    }
  }

  /** `steps` records the loop over the first `|steps|` photographs of
      `frames`: each has the output name of its rank, is skipped exactly when
      that name was taken before the run, and fails exactly when it was not
      skipped and cannot be opened. */
  predicate StepsRecorded(frames: seq<string>, existing: set<string>, decoded: map<string, Bitmap>,
                          steps: seq<Step>)
  {
    && |steps| <= |frames|
    && (forall k :: 0 <= k < |steps| ==>
          steps[k].input == frames[k] && steps[k].output == FrameFileName(k + 1, ".png"))
    && (forall k :: 0 <= k < |steps| ==> (steps[k].outcome == Skipped <==> steps[k].output in existing))
    && (forall k :: 0 <= k < |steps| ==>
          (steps[k].outcome == Failed <==> steps[k].output !in existing && steps[k].input !in decoded))
  }

  /** Every written step has its masked image in `saved`, which holds
      nothing else. */
  predicate SavedMatches(decoded: map<string, Bitmap>, steps: seq<Step>, saved: map<string, Bitmap>)
  {
    && (forall k :: 0 <= k < |steps| && steps[k].outcome == Written ==>
          steps[k].input in decoded && steps[k].output in saved && saved[steps[k].output] == Masked(decoded[steps[k].input]))
    && (forall name :: name in saved ==>
          exists k :: 0 <= k < |steps| && steps[k].outcome == Written && steps[k].output == name)
  }

  predicate Renumbered(frames: seq<string>, existing: set<string>, decoded: map<string, Bitmap>,
                       steps: seq<Step>, saved: map<string, Bitmap>)
  {
    StepsRecorded(frames, existing, decoded, steps) && SavedMatches(decoded, steps, saved)
  }

  /** No earlier step used the output name of the next rank. */
  lemma {:induction false} NextNameIsFresh(frames: seq<string>, existing: set<string>, decoded: map<string, Bitmap>,
                                           steps: seq<Step>, saved: map<string, Bitmap>)
    requires Renumbered(frames, existing, decoded, steps, saved)
    ensures forall k :: 0 <= k < |steps| ==> steps[k].output != FrameFileName(|steps| + 1, ".png")
    ensures FrameFileName(|steps| + 1, ".png") !in saved
  {
    forall k | 0 <= k < |steps|
      ensures steps[k].output != FrameFileName(|steps| + 1, ".png")
    {
      FrameFileNamesDiffer(k + 1, |steps| + 1, ".png");
    }
  }

  /** One more turn of the loop keeps the record faithful. */
  lemma {:induction false} RenumberedStep(frames: seq<string>, existing: set<string>, decoded: map<string, Bitmap>,
                                          steps: seq<Step>, saved: map<string, Bitmap>,
                                          outcome: Outcome, image: Bitmap)
    requires Renumbered(frames, existing, decoded, steps, saved) && |steps| < |frames|
    requires var output := FrameFileName(|steps| + 1, ".png");
      && (outcome == Skipped <==> output in existing + saved.Keys)
      && (outcome == Failed <==> output !in existing + saved.Keys && frames[|steps|] !in decoded)
      && (outcome == Written ==> frames[|steps|] in decoded && image == Masked(decoded[frames[|steps|]]))
    ensures var output := FrameFileName(|steps| + 1, ".png");
      Renumbered(frames, existing, decoded, steps + [Step(frames[|steps|], output, outcome)],
                 if outcome == Written then saved[output := image] else saved)
  {
    NextNameIsFresh(frames, existing, decoded, steps, saved);
    var output := FrameFileName(|steps| + 1, ".png");
    var step := Step(frames[|steps|], output, outcome);
    assert output !in saved;
    StepsRecordedStep(frames, existing, decoded, steps, step);
    SavedMatchesStep(decoded, steps, saved, step, image);
  }

  lemma {:induction false} StepsRecordedStep(frames: seq<string>, existing: set<string>, decoded: map<string, Bitmap>,
                                             steps: seq<Step>, step: Step)
    requires StepsRecorded(frames, existing, decoded, steps) && |steps| < |frames|
    requires step.input == frames[|steps|] && step.output == FrameFileName(|steps| + 1, ".png")
    requires step.outcome == Skipped <==> step.output in existing
    requires step.outcome == Failed <==> step.output !in existing && step.input !in decoded
    ensures StepsRecorded(frames, existing, decoded, steps + [step])
  {
    var steps' := steps + [step];
    assert forall k :: 0 <= k < |steps| ==> steps'[k] == steps[k];
    assert steps'[|steps|] == step;
  }

  lemma {:induction false} SavedMatchesStep(decoded: map<string, Bitmap>, steps: seq<Step>, saved: map<string, Bitmap>,
                                            step: Step, image: Bitmap)
    requires SavedMatches(decoded, steps, saved)
    requires forall k :: 0 <= k < |steps| ==> steps[k].output != step.output
    requires step.outcome == Written ==> step.input in decoded && image == Masked(decoded[step.input])
    ensures SavedMatches(decoded, steps + [step], if step.outcome == Written then saved[step.output := image] else saved)
  {
    var steps' := steps + [step];
    var saved' := if step.outcome == Written then saved[step.output := image] else saved;
    assert forall k :: 0 <= k < |steps| ==> steps'[k] == steps[k];
    assert steps'[|steps|] == step;
    forall k | 0 <= k < |steps'| && steps'[k].outcome == Written
      ensures steps'[k].input in decoded && steps'[k].output in saved'
      ensures saved'[steps'[k].output] == Masked(decoded[steps'[k].input])
    {
      if k < |steps| {
        assert steps'[k] == steps[k];
      }
    }
    forall name | name in saved'
      ensures exists k :: 0 <= k < |steps'| && steps'[k].outcome == Written && steps'[k].output == name
    {
      if step.outcome == Written && name == step.output {
        assert steps'[|steps|].output == name;
      } else {
        var k :| 0 <= k < |steps| && steps[k].outcome == Written && steps[k].output == name;
        assert steps'[k] == steps[k];
      }
    }
  }

  /** The loop itself, over the photographs in the order it visits them. */
  method RenumberAll(frames: seq<string>, existing: set<string>, decoded: map<string, Bitmap>)
    returns (steps: seq<Step>, saved: map<string, Bitmap>)
    ensures |steps| == |frames| && Renumbered(frames, existing, decoded, steps, saved)
  {
    var outputDir := existing;
    steps := [];
    saved := map[];
    for i := 0 to |frames|
      invariant |steps| == i
      invariant outputDir == existing + saved.Keys
      invariant Renumbered(frames, existing, decoded, steps, saved)
    {
      var filename := frames[i];
      var outputFilename := FrameFileName(i + 1, ".png");
      var outcome, image := ProcessOne(filename, outputFilename, outputDir, decoded);
      RenumberedStep(frames, existing, decoded, steps, saved, outcome, image);
      if outcome == Written {
        saved := saved[outputFilename := image];
        outputDir := outputDir + {outputFilename};
      }
      steps := steps + [Step(filename, outputFilename, outcome)];
    }
  }

  /** The main loop of the script over the input `listing`. `existing` names
      the files already in the output directory; `decoded` gives, for each
      input that opens, the cut-out image that background removal and
      `convert("RGBA")` produce, and an input without an entry raises inside
      the `try`. The result lists one step per frame and the images saved. */
  method ProcessFrames(listing: seq<string>, existing: set<string>, decoded: map<string, Bitmap>)
    returns (steps: seq<Step>, saved: map<string, Bitmap>)
    ensures |steps| == |Frames(listing)|
    ensures forall k :: 0 <= k < |steps| ==>
      steps[k].input == Frames(listing)[k] && steps[k].output == FrameFileName(k + 1, ".png")
    ensures forall k :: 0 <= k < |steps| ==> (steps[k].outcome == Skipped <==> steps[k].output in existing)
    ensures forall k :: 0 <= k < |steps| ==>
      (steps[k].outcome == Failed <==> steps[k].output !in existing && steps[k].input !in decoded)
    ensures forall k :: 0 <= k < |steps| && steps[k].outcome == Written ==>
      steps[k].input in decoded && steps[k].output in saved && saved[steps[k].output] == Masked(decoded[steps[k].input])
    ensures forall name :: name in saved ==>
      exists k :: 0 <= k < |steps| && steps[k].outcome == Written && steps[k].output == name
  {
    steps, saved := RenumberAll(Frames(listing), existing, decoded);
  }

}
