/**
 * Auto-reframing: every decoded picture is cropped to a region of interest (ROI) that
 * follows the picture's content, the crop being sized to the output aspect ratio.
 *
 * OpenCV's part (grey conversion, blur, Canny edges, `boundingRect`) is an input: each
 * picture frame carries the bounding rectangle of its edge map. The pixels of the crop and
 * the resize to the target size are not modelled; a recorded picture is the source region
 * that is resized. Sizes and coordinates are integers, the scale factors exact reals.
 */
module AutoReframe {
  import opened Wrappers
  import opened JavaNum
  import opened AiConfig

  /** An OpenCV `Rect`: origin plus a size that is never negative. */
  datatype Rect = Rect(x: int, y: int, width: nat, height: nat) {
    /** The test `width() == 0 || height() == 0` by which the service recognises an edge map with no edges. */
    predicate Empty() { width == 0 || height == 0 }

    /** The rectangle lies inside a `cols` by `rows` picture. */
    predicate Within(cols: int, rows: int) {
      0 <= x && 0 <= y && x + width <= cols && y + height <= rows
    }
  }

  /**
   * A grabbed frame: one without an image (audio, data), or a picture with its own `cols` by `rows`
   * size and the bounding box of its edges.
   */
  datatype VideoFrame = NonImage(id: nat) | Picture(cols: nat, rows: nat, edges: Rect)

  /** The input as the grabber reports it: existence on disk, frame rate, the stream's picture size, frames in order. */
  datatype Video = Video(fileExists: bool, frameRate: real, width: nat, height: nat, frames: seq<VideoFrame>)

  /** What the recorder receives for one grabbed frame. */
  datatype Written = Forwarded(frame: VideoFrame) | Cropped(region: Rect)

  /** The service's `ReframeResult`: the output path and the processed duration in milliseconds. */
  datatype ReframeResult = ReframeResult(output: string, processedDurationMillis: int)

  /** Everything one run produces: the result, the recorder's picture size and what was recorded. */
  datatype Reframed = Reframed(result: ReframeResult, targetWidth: nat, targetHeight: nat, recorded: seq<Written>)

  /**
   * The output picture size for a source of `sourceWidth` by `sourceHeight` and a target aspect
   * `width / height`. A source wider than the target keeps its height, otherwise its width; the
   * other side is rounded from the aspect. A source without a picture (a zero side) gives 0 by 0,
   * which is what the double arithmetic yields there.
   */
  function TargetSize(sourceWidth: nat, sourceHeight: nat, aspect: real): (r: (nat, nat))
    requires aspect > 0.0
    ensures r.0 <= sourceWidth && r.1 <= sourceHeight
    ensures sourceWidth == 0 || sourceHeight == 0 ==> r == (0, 0)
    ensures sourceWidth > 0 && sourceHeight > 0 ==>
      (r.1 == sourceHeight && r.0 as real - 1.0 / 2.0 <= sourceHeight as real * aspect < r.0 as real + 1.0 / 2.0)
      || (r.0 == sourceWidth && r.1 as real - 1.0 / 2.0 <= sourceWidth as real / aspect < r.1 as real + 1.0 / 2.0)
  {
    if sourceWidth == 0 || sourceHeight == 0 then (0, 0)
    else if sourceWidth as real / sourceHeight as real > aspect then
      WiderSource(sourceWidth as real, sourceHeight as real, aspect);
      RoundAtMost(sourceHeight as real * aspect, sourceWidth);
      (Round(sourceHeight as real * aspect), sourceHeight)
    else
      NarrowerSource(sourceWidth as real, sourceHeight as real, aspect);
      RoundAtMost(sourceWidth as real / aspect, sourceHeight);
      (sourceWidth, Round(sourceWidth as real / aspect))
  }

  lemma WiderSource(w: real, h: real, aspect: real)
    requires h > 0.0 && w / h > aspect
    ensures h * aspect < w
  {
    assert w == (w / h) * h;
  }

  lemma NarrowerSource(w: real, h: real, aspect: real)
    requires h > 0.0 && aspect > 0.0 && w / h <= aspect
    ensures w / aspect <= h
  {
    assert w == (w / h) * h;
    assert w <= aspect * h;
  }

  lemma RoundAtMost(x: real, n: int)
    requires 0.0 <= x <= n as real
    ensures 0 <= Round(x) <= n
  {
  }

  /** A 1920 by 1080 source reframed to 9:16 is recorded at 608 by 1080. */
  lemma TargetSizeExample()
    ensures TargetSize(1920, 1080, Vertical9x16(false).Aspect()) == (608, 1080)
  {
    assert 1080.0 * (9.0 / 16.0) == 607.5;
  }

  function BlendComponent(previous: nat, detected: nat): (r: nat)
    ensures Min(previous, detected) <= r <= Max(previous, detected)
    ensures previous == detected ==> r == previous
  {
    Round(previous as real * 0.7 + detected as real * 0.3)
  }

  /** `blendRoi`: every component moves 30% of the way from the previous ROI towards the detected one. */
  function BlendRoi(previous: Rect, detected: Rect): (r: Rect)
    ensures Min(previous.x, detected.x) <= r.x <= Max(previous.x, detected.x)
    ensures Min(previous.y, detected.y) <= r.y <= Max(previous.y, detected.y)
    ensures Min(previous.width, detected.width) <= r.width <= Max(previous.width, detected.width)
    ensures Min(previous.height, detected.height) <= r.height <= Max(previous.height, detected.height)
    ensures previous == detected ==> r == previous
  {
    var x := Round(previous.x as real * 0.7 + detected.x as real * 0.3);
    var y := Round(previous.y as real * 0.7 + detected.y as real * 0.3);
    Rect(x, y, BlendComponent(previous.width, detected.width), BlendComponent(previous.height, detected.height))
  }

  /**
   * The ROI used when the first picture has no edges: centred, 60% of the picture's width
   * (truncated) and of the target aspect, moved and cut so that it stays inside the picture.
   */
  function FallbackRoi(cols: nat, rows: nat, aspect: real): (r: Rect)
    requires aspect > 0.0
    ensures r.Within(cols, rows)
    ensures r.width == Trunc(cols as real * 0.6)
    ensures r.x == cols / 2 - Trunc(cols as real * 0.6) / 2
    ensures Trunc(Trunc(cols as real * 0.6) as real / aspect) <= rows ==>
      r.height == Trunc(Trunc(cols as real * 0.6) as real / aspect) && r.y == rows / 2 - r.height / 2
  {
    var centerX := cols / 2;
    var centerY := rows / 2;
    var width: nat := Trunc(cols as real * 0.6);
    var height: nat := Trunc(width as real / aspect);
    assert width <= cols;
    Rect(Max(0, centerX - width / 2), Max(0, centerY - height / 2), Min(width, cols), Min(height, rows))
  }

  /** `initialRoi`: the bounding box of the first picture's edges, or the fallback when there are none. */
  function InitialRoi(edges: Rect, cols: nat, rows: nat, aspect: real): (r: Rect)
    requires aspect > 0.0
    ensures !edges.Empty() ==> r == edges
    ensures edges.Empty() ==> r == FallbackRoi(cols, rows, aspect) && r.Within(cols, rows)
  {
    if edges.Empty() then FallbackRoi(cols, rows, aspect) else edges
  }

  /** `detectSubject`: the bounding box of the edges, or the previous ROI when there are none. */
  function DetectSubject(edges: Rect, fallback: Rect): (r: Rect)
    ensures r == (if edges.Empty() then fallback else edges)
  {
    if edges.Empty() then fallback else edges
  }

  /** The ROI after one more picture: the initial ROI for the first, the blend with the detected subject afterwards. */
  function NextRoi(previous: Option<Rect>, edges: Rect, cols: nat, rows: nat, aspect: real): Rect
    requires aspect > 0.0
  {
    match previous
    case None => InitialRoi(edges, cols, rows, aspect)
    case Some(roi) => BlendRoi(roi, DetectSubject(edges, roi))
  }

  /** A picture without edges leaves an established ROI where it was. */
  lemma NoEdgesKeepsRoi(roi: Rect, edges: Rect, cols: nat, rows: nat, aspect: real)
    requires aspect > 0.0 && edges.Empty()
    ensures NextRoi(Some(roi), edges, cols, rows, aspect) == roi
  {
  }

  /**
   * `min(targetWidth / roi.width, targetHeight / roi.height)` as a finite positive number. A zero
   * ROI side divides to +Infinity, which never wins the minimum; the scale is missing when both
   * sides are zero or the target has a zero side, where the double arithmetic yields no usable size.
   */
  function Scale(roi: Rect, targetWidth: nat, targetHeight: nat): (r: Option<real>)
    ensures r.Some? <==> targetWidth > 0 && targetHeight > 0 && (roi.width > 0 || roi.height > 0)
    ensures r.Some? ==> r.value > 0.0
    ensures r.Some? && roi.width > 0 ==> r.value <= targetWidth as real / roi.width as real
    ensures r.Some? && roi.height > 0 ==> r.value <= targetHeight as real / roi.height as real
  {
    if targetWidth == 0 || targetHeight == 0 then None
    else if roi.width > 0 && roi.height > 0 then
      var byWidth := targetWidth as real / roi.width as real;
      var byHeight := targetHeight as real / roi.height as real;
      Some(if byWidth <= byHeight then byWidth else byHeight)
    else if roi.height > 0 then Some(targetHeight as real / roi.height as real)
    else if roi.width > 0 then Some(targetWidth as real / roi.width as real)
    else None
  }

  /** The crop size `round(target / scale)` and its centred origin, before clamping to the picture. */
  function CropBox(roi: Rect, targetWidth: nat, targetHeight: nat, scale: real): Rect
    requires scale > 0.0
  {
    var cropWidth := Round(targetWidth as real / scale);
    var cropHeight := Round(targetHeight as real / scale);
    var x := Round(roi.x as real + roi.width as real / 2.0 - cropWidth as real / 2.0);
    var y := Round(roi.y as real + roi.height as real / 2.0 - cropHeight as real / 2.0);
    Rect(x, y, cropWidth, cropHeight)
  }

  /** A crop scaled by the limiting side covers the ROI in both directions and matches it on that side. */
  lemma {:induction false} CropCoversRoi(roi: Rect, targetWidth: nat, targetHeight: nat)
    requires roi.width > 0 && roi.height > 0 && targetWidth > 0 && targetHeight > 0
    ensures var box := CropBox(roi, targetWidth, targetHeight, Scale(roi, targetWidth, targetHeight).value);
      box.width >= roi.width && box.height >= roi.height && (box.width == roi.width || box.height == roi.height)
  {
    var sx := targetWidth as real / roi.width as real;
    var sy := targetHeight as real / roi.height as real;
    var s := Scale(roi, targetWidth, targetHeight).value;
    if sx <= sy {
      assert s == sx;
      assert targetWidth as real / s == roi.width as real;
      assert targetHeight as real / s == targetHeight as real * roi.width as real / targetWidth as real;
      assert targetHeight as real / roi.height as real >= targetWidth as real / roi.width as real;
      assert targetHeight as real * roi.width as real >= targetWidth as real * roi.height as real;
      assert targetHeight as real / s >= roi.height as real;
    } else {
      assert s == sy;
      assert targetHeight as real / s == roi.height as real;
      assert targetWidth as real / s == targetWidth as real * roi.height as real / targetHeight as real;
      assert targetWidth as real * roi.height as real > targetHeight as real * roi.width as real;
      assert targetWidth as real / s >= roi.width as real;
    }
  }

  /** Moves a box inside a `cols` by `rows` picture and cuts what still sticks out. */
  function Clamp(box: Rect, cols: nat, rows: nat): (r: (int, int, int, int))
    ensures 0 <= r.0 && 0 <= r.1 && r.0 + r.2 <= cols && r.1 + r.3 <= rows
    ensures box.Within(cols, rows) ==> r == (box.x, box.y, box.width, box.height)
    ensures box.width <= cols && box.height <= rows ==> r.2 == box.width && r.3 == box.height
  {
    var x := Max(0, Min(box.x, cols - box.width));
    var y := Max(0, Min(box.y, rows - box.height));
    (x, y, Min(box.width, cols - x), Min(box.height, rows - y))
  }

  /**
   * `cropToAspect`: the region of the picture that is resized to the target size. OpenCV
   * rejects an empty region, so a missing scale or an empty clamped box is a failure.
   */
  function CropToAspect(cols: nat, rows: nat, roi: Rect, targetWidth: nat, targetHeight: nat): (r: Result<Rect>)
    ensures Scale(roi, targetWidth, targetHeight).None? ==> r == Err(DegenerateRegion)
    ensures r.Err? ==> r.error == DegenerateRegion
    ensures r.Ok? ==> r.value.Within(cols, rows) && r.value.width > 0 && r.value.height > 0
    ensures r.Ok? ==> var box := CropBox(roi, targetWidth, targetHeight, Scale(roi, targetWidth, targetHeight).value);
      (box.Within(cols, rows) ==> r.value == box)
      && (box.width <= cols && box.height <= rows ==> r.value.width == box.width && r.value.height == box.height)
  {
    match Scale(roi, targetWidth, targetHeight)
    case None => Err(DegenerateRegion)
    case Some(scale) =>
      var c := Clamp(CropBox(roi, targetWidth, targetHeight, scale), cols, rows);
      if c.2 <= 0 || c.3 <= 0 then Err(DegenerateRegion) else Ok(Rect(c.0, c.1, c.2, c.3))
  }

  /** The grabber's frame rate, or 30 when it reports none. */
  function EffectiveRate(frameRate: real): (r: real)
    ensures r > 0.0
    ensures frameRate > 0.0 ==> r == frameRate
  {
    if frameRate > 0.0 then frameRate else 30.0
  }

  /** `(long) (processedFrames / frameRate * 1000)`. */
  function ProcessedMillis(processedFrames: nat, frameRate: real): int
    requires frameRate > 0.0
  {
    Trunc(processedFrames as real / frameRate * 1000.0)
  }

  /** The duration grows with the number of processed pictures and is positive once one was processed at no more than 1000 fps. */
  lemma ProcessedMillisBounds(n: nat, m: nat, frameRate: real)
    requires frameRate > 0.0 && n <= m
    ensures 0 <= ProcessedMillis(n, frameRate) <= ProcessedMillis(m, frameRate)
    ensures 1 <= n && frameRate <= 1000.0 ==> ProcessedMillis(n, frameRate) > 0
  {
    var p := n as real / frameRate;
    var q := m as real / frameRate;
    assert p <= q by {
      assert q - p == (m - n) as real / frameRate;
    }
    assert p * 1000.0 <= q * 1000.0;
    if 1 <= n && frameRate <= 1000.0 {
      assert p * frameRate == n as real;
      assert 1000.0 <= n as real * 1000.0;
      assert frameRate <= p * 1000.0 * frameRate;
      assert p * 1000.0 >= 1.0;
    }
  }

  /** The loop's variables: the current ROI (null before the first picture), the picture count, the recording so far. */
  datatype State = State(roi: Option<Rect>, processedFrames: nat, recorded: seq<Written>)

  /** Parameters fixed for one run. */
  datatype Run = Run(aspect: real, targetWidth: nat, targetHeight: nat) {
    predicate Valid() { aspect > 0.0 }
  }

  /**
   * One grabbed frame: a frame without image is forwarded; a picture moves the ROI and records one
   * crop. The fallback region and the clamp use the picture's own size, not the stream's.
   */
  function Step(st: State, f: VideoFrame, p: Run): Result<State>
    requires p.Valid()
  {
    match f
    case NonImage(_) => Ok(State(st.roi, st.processedFrames, st.recorded + [Forwarded(f)]))
    case Picture(cols, rows, edges) =>
      var roi := NextRoi(st.roi, edges, cols, rows, p.aspect);
      var crop :- CropToAspect(cols, rows, roi, p.targetWidth, p.targetHeight);
      Ok(State(Some(roi), st.processedFrames + 1, st.recorded + [Cropped(crop)]))
  }

  /** The grab loop from state `st` over the remaining frames, stopping at the first failing crop. */
  function Process(st: State, frames: seq<VideoFrame>, p: Run): Result<State>
    requires p.Valid()
    decreases |frames|
  {
    if frames == [] then Ok(st)
    else
      var next :- Step(st, frames[0], p);
      Process(next, frames[1..], p)
  }

  /** The whole of `reframe` as a value: argument checks, then the target size, then the grab loop. */
  function Reframing(config: ReframeConfig, input: Option<Video>, output: Option<string>): Result<Reframed>
    requires config.Valid()
  {
    if input.None? || output.None? then Err(NullArgument)
    else if !input.value.fileExists then Err(InputNotFound)
    else
      var v := input.value;
      var size := TargetSize(v.width, v.height, config.Aspect());
      var st :- Process(State(None, 0, []), v.frames, Run(config.Aspect(), size.0, size.1));
      Ok(Reframed(ReframeResult(output.value, ProcessedMillis(st.processedFrames, EffectiveRate(v.frameRate))),
        size.0, size.1, st.recorded))
  }

  /** `reframe`: the frame loop with the service's locals `roi`, `processedFrames` and the recorder's input. */
  method Reframe(config: ReframeConfig, input: Option<Video>, output: Option<string>) returns (r: Result<Reframed>)
    requires config.Valid()
    ensures r == Reframing(config, input, output)
  {
    if input.None? || output.None? {
      return Err(NullArgument);
    }
    var v := input.value;
    if !v.fileExists {
      return Err(InputNotFound);
    }
    var frameRate := EffectiveRate(v.frameRate);
    var aspectRatio := config.Aspect();
    var size := TargetSize(v.width, v.height, aspectRatio);
    var p := Run(aspectRatio, size.0, size.1);
    ghost var goal := Process(State(None, 0, []), v.frames, p);
    var roi: Option<Rect> := None;
    var processedFrames: nat := 0;
    var recorded: seq<Written> := [];
    var i := 0;
    while i < |v.frames|
      invariant 0 <= i <= |v.frames|
      invariant Process(State(roi, processedFrames, recorded), v.frames[i..], p) == goal
    {
      var frame := v.frames[i];
      assert v.frames[i..][0] == frame && v.frames[i..][1..] == v.frames[i + 1..];
      if frame.NonImage? {
        recorded := recorded + [Forwarded(frame)];
      } else {
        if roi.None? {
          roi := Some(InitialRoi(frame.edges, frame.cols, frame.rows, aspectRatio));
        } else {
          roi := Some(BlendRoi(roi.value, DetectSubject(frame.edges, roi.value)));
        }
        var cropped := CropToAspect(frame.cols, frame.rows, roi.value, size.0, size.1);
        if cropped.Err? {
          return Err(cropped.error);
        }
        recorded := recorded + [Cropped(cropped.value)];
        processedFrames := processedFrames + 1;
      }
      i := i + 1;
    }
    assert v.frames[i..] == [];
    r := Ok(Reframed(ReframeResult(output.value, ProcessedMillis(processedFrames, frameRate)), size.0, size.1, recorded));
  }

  /** The number of grabbed frames that carry a picture. */
  function PictureCount(frames: seq<VideoFrame>): (n: nat)
    ensures n <= |frames|
  {
    if frames == [] then 0 else (if frames[0].Picture? then 1 else 0) + PictureCount(frames[1..])
  }

  /** What one frame turns into: a frame without image is forwarded as is, a picture becomes a non-empty crop inside that picture. */
  predicate Records(f: VideoFrame, w: Written) {
    (f.NonImage? ==> w == Forwarded(f))
    && (f.Picture? ==> w.Cropped? && w.region.Within(f.cols, f.rows) && w.region.width > 0 && w.region.height > 0)
  }

  /** The grab loop records one entry per frame, in order, and counts exactly the pictures. */
  lemma {:induction false} ProcessShape(st: State, frames: seq<VideoFrame>, p: Run)
    requires p.Valid() && Process(st, frames, p).Ok?
    ensures var e := Process(st, frames, p).value;
      e.processedFrames == st.processedFrames + PictureCount(frames)
      && |e.recorded| == |st.recorded| + |frames|
      && e.recorded[..|st.recorded|] == st.recorded
      && forall i :: 0 <= i < |frames| ==> Records(frames[i], e.recorded[|st.recorded| + i])
    decreases |frames|
  {
    if frames != [] {
      var next := Step(st, frames[0], p).value;
      assert Records(frames[0], next.recorded[|st.recorded|]);
      ProcessShape(next, frames[1..], p);
      var e := Process(st, frames, p).value;
      assert e == Process(next, frames[1..], p).value;
      assert e.recorded[..|next.recorded|] == next.recorded;
      assert e.recorded[..|st.recorded|] == next.recorded[..|st.recorded|];
      forall i | 0 <= i < |frames|
        ensures Records(frames[i], e.recorded[|st.recorded| + i])
      {
        if i == 0 {
          assert e.recorded[|st.recorded|] == next.recorded[|st.recorded|];
        } else {
          assert frames[i] == frames[1..][i - 1];
          assert |st.recorded| + i == |next.recorded| + (i - 1);
        }
      }
    }
  }

  /** Frames without image never fail: each is forwarded unchanged and none is counted. */
  lemma {:induction false} NonImageFramesNeverFail(st: State, frames: seq<VideoFrame>, p: Run)
    requires p.Valid() && forall i :: 0 <= i < |frames| ==> frames[i].NonImage?
    ensures Process(st, frames, p) == Ok(State(st.roi, st.processedFrames, st.recorded + Forwarding(frames)))
    decreases |frames|
  {
    if frames != [] {
      var next := Step(st, frames[0], p).value;
      assert next == State(st.roi, st.processedFrames, st.recorded + [Forwarded(frames[0])]);
      NonImageFramesNeverFail(next, frames[1..], p);
      assert Forwarding(frames) == [Forwarded(frames[0])] + Forwarding(frames[1..]);
      assert st.recorded + [Forwarded(frames[0])] + Forwarding(frames[1..])
        == st.recorded + Forwarding(frames);
    } else {
      assert st.recorded + Forwarding(frames) == st.recorded;
    }
  }

  function Forwarding(frames: seq<VideoFrame>): (r: seq<Written>)
    ensures |r| == |frames|
  {
    if frames == [] then [] else [Forwarded(frames[0])] + Forwarding(frames[1..])
  }

  /**
   * What `reframe` promises: null arguments and a missing input fail before any frame is read;
   * a successful run records every grabbed frame in order (frames without image unchanged,
   * pictures as non-empty crops inside that picture's own size), reports the recorder's size as the
   * target size computed from the stream's reported size, and
   * derives the processed duration from the number of pictures alone.
   */
  lemma ReframeProperties(config: ReframeConfig, input: Option<Video>, output: Option<string>)
    requires config.Valid()
    ensures input.None? || output.None? ==> Reframing(config, input, output) == Err(NullArgument)
    ensures input.Some? && output.Some? && !input.value.fileExists ==> Reframing(config, input, output) == Err(InputNotFound)
    ensures Reframing(config, input, output).Err? ==>
      Reframing(config, input, output).error in {NullArgument, InputNotFound, DegenerateRegion}
    ensures Reframing(config, input, output).Ok? ==>
      var v, e := input.value, Reframing(config, input, output).value;
      e.result.output == output.value
      && (e.targetWidth, e.targetHeight) == TargetSize(v.width, v.height, config.Aspect())
      && e.result.processedDurationMillis == ProcessedMillis(PictureCount(v.frames), EffectiveRate(v.frameRate))
      && |e.recorded| == |v.frames|
      && forall i :: 0 <= i < |v.frames| ==> Records(v.frames[i], e.recorded[i])
  {
    if input.Some? && output.Some? && input.value.fileExists {
      var v := input.value;
      var size := TargetSize(v.width, v.height, config.Aspect());
      var p := Run(config.Aspect(), size.0, size.1);
      ProcessErrors(State(None, 0, []), v.frames, p);
      if Process(State(None, 0, []), v.frames, p).Ok? {
        ProcessShape(State(None, 0, []), v.frames, p);
      }
    }
  }

  /** The only failure of the grab loop is an empty crop region. */
  lemma {:induction false} ProcessErrors(st: State, frames: seq<VideoFrame>, p: Run)
    requires p.Valid()
    ensures Process(st, frames, p).Err? ==> Process(st, frames, p).error == DegenerateRegion
    decreases |frames|
  {
    if frames != [] && Step(st, frames[0], p).Ok? {
      ProcessErrors(Step(st, frames[0], p).value, frames[1..], p);
    }
  }
}
