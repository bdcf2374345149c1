/**
 * Scene segmentation (`SceneDetectionService`). The decoder and the colour features are
 * inputs: the decoded frames in order, each with its presentation time in microseconds and
 * an opaque feature, and the scaled distance between two features (`euclidean(a, b) * 100`).
 */
module SceneDetection {
  import opened Wrappers
  import opened JavaNum
  import opened AiValues
  import opened AiConfig

  /** One decoded image frame: the grabber's timestamp (microseconds) and its feature vector. */
  datatype Frame<F> = Frame(timestampMicros: int, feature: F)

  /**
   * What the grabber reports about a media file: whether the path exists, the frame rate, the
   * decoded frames, the stream length and the grabber's timestamp after the last frame (microseconds).
   */
  datatype Media<F> = Media(fileExists: bool, frameRate: real, frames: seq<Frame<F>>, lengthMicros: int, endMicros: int)

  /** `Duration.ofMillis((long) (micros / 1000.0))`. */
  function MicrosToMillis(micros: int): int {
    Trunc(micros as real / 1000.0)
  }

  /** The sampling stride `max(1, round(max(1, frameRate) / 2))`. */
  function FrameStep(frameRate: real): (step: int)
    ensures step >= 1
    ensures frameRate <= 2.0 ==> step == 1
    ensures frameRate >= 1.0 ==> step == Max(1, Round(frameRate / 2.0))
  {
    var fr := if frameRate >= 1.0 then frameRate else 1.0;
    Max(1, Round(fr / 2.0))
  }

  lemma FrameStepExamples()
    ensures FrameStep(30.0) == 15 && FrameStep(25.0) == 13 && FrameStep(0.0) == 1
  {
  }

  // ---------------------------------------------------------------- the cut loop

  /** The loop state: the previous sampled feature, the open segment's start, the closed segments. */
  datatype Scan<F> = Scan(previous: Option<F>, segmentStart: int, segments: seq<SceneSegment>)

  /** One sampled frame: cut when the feature moved more than the threshold and the open segment is long enough. */
  function Step<F>(st: Scan<F>, f: Frame<F>, distance: (F, F) -> real, config: SceneDetectionConfig): Result<Scan<F>> {
    var t := MicrosToMillis(f.timestampMicros);
    if st.previous.Some? && distance(st.previous.value, f.feature) > config.threshold
       && t - st.segmentStart >= config.minimumSceneLength
    then
      var seg :- NewSceneSegment(st.segmentStart, t);
      Ok(Scan(Some(f.feature), t, st.segments + [seg]))
    else
      Ok(Scan(Some(f.feature), st.segmentStart, st.segments))
  }

  /** The state after the decoded frames `frames`, of which only the indices divisible by `step` are sampled. */
  function Run<F>(frames: seq<Frame<F>>, step: int, distance: (F, F) -> real, config: SceneDetectionConfig): Result<Scan<F>>
    requires step >= 1
  {
    if frames == [] then Ok(Scan(None, 0, []))
    else
      var st :- Run(frames[..|frames| - 1], step, distance, config);
      if (|frames| - 1) % step != 0 then Ok(st)
      else Step(st, frames[|frames| - 1], distance, config)
  }

  /** The end of the trailing segment: the stream length, else the last timestamp, else start plus the minimum. */
  function Total<F>(media: Media<F>, segmentStart: int, minimumLength: int): int {
    var byLength := MicrosToMillis(media.lengthMicros);
    if byLength != 0 then byLength
    else
      var byTimestamp := MicrosToMillis(media.endMicros);
      if byTimestamp != 0 then byTimestamp else segmentStart + minimumLength
  }

  /** The segments before merging: the cuts and the trailing segment. */
  function Segments<F>(media: Media<F>, distance: (F, F) -> real, config: SceneDetectionConfig): Result<seq<SceneSegment>> {
    var st :- Run(media.frames, FrameStep(media.frameRate), distance, config);
    var last :- NewSceneSegment(st.segmentStart, Total(media, st.segmentStart, config.minimumSceneLength));
    Ok(st.segments + [last])
  }

  /** `detect`: the existence check, the cut loop and the trailing segment, then merging of short segments. */
  function Detection<F>(media: Media<F>, distance: (F, F) -> real, config: SceneDetectionConfig): Result<seq<SceneSegment>> {
    if !media.fileExists then Err(InputNotFound)
    else
      var segments :- Segments(media, distance, config);
      Merge(segments, config.minimumSceneLength)
  }

  // ---------------------------------------------------------------- merging

  /** The merge loop from accumulator `current` with `rest` still to visit. */
  function MergeLoop(merged: seq<SceneSegment>, current: SceneSegment, rest: seq<SceneSegment>, minimumLength: int)
    : Result<seq<SceneSegment>>
    decreases |rest|
  {
    if rest == [] then Ok(merged + [current])
    else if current.Duration() < minimumLength then
      var joined :- NewSceneSegment(current.start, rest[0].end);
      MergeLoop(merged, joined, rest[1..], minimumLength)
    else
      MergeLoop(merged + [current], rest[0], rest[1..], minimumLength)
  }

  /** `mergeShortSegments`: a segment shorter than the minimum absorbs the one after it. */
  function Merge(segments: seq<SceneSegment>, minimumLength: int): Result<seq<SceneSegment>> {
    if segments == [] then Ok([]) else MergeLoop([], segments[0], segments[1..], minimumLength)
  }

  method MergeShortSegments(segments: seq<SceneSegment>, minimumLength: int) returns (r: Result<seq<SceneSegment>>)
    ensures r == Merge(segments, minimumLength)
  {
    if segments == [] {
      return Ok(segments);
    }
    var merged: seq<SceneSegment> := [];
    var current := segments[0];
    for i := 1 to |segments|
      invariant MergeLoop(merged, current, segments[i..], minimumLength) == Merge(segments, minimumLength)
    {
      var next := segments[i];
      assert segments[i..][1..] == segments[i + 1..];
      if current.Duration() < minimumLength {
        var joined := NewSceneSegment(current.start, next.end);
        if joined.Err? {
          return Err(joined.error);
        }
        current := joined.value;
      } else {
        merged := merged + [current];
        current := next;
      }
    }
    merged := merged + [current];
    return Ok(merged);
  }

  // ---------------------------------------------------------------- the detection loop

  /** `detect`, with the grabber loop over the decoded frames. */
  method Detect<F>(media: Media<F>, distance: (F, F) -> real, config: SceneDetectionConfig) returns (r: Result<seq<SceneSegment>>)
    ensures r == Detection(media, distance, config)
  {
    if !media.fileExists {
      return Err(InputNotFound);
    }
    var frames := media.frames;
    var previous: Option<F> := None;
    var segmentStart := 0;
    var segments: seq<SceneSegment> := [];
    var frameStep := FrameStep(media.frameRate);
    var frameIndex := 0;
    while frameIndex < |frames|
      invariant 0 <= frameIndex <= |frames|
      invariant Run(frames[..frameIndex], frameStep, distance, config) == Ok(Scan(previous, segmentStart, segments))
    {
      assert frames[..frameIndex + 1][..frameIndex] == frames[..frameIndex];
      if frameIndex % frameStep != 0 {
        frameIndex := frameIndex + 1;
        continue;
      }
      var frame := frames[frameIndex];
      var timestamp := MicrosToMillis(frame.timestampMicros);
      if previous.Some? {
        if distance(previous.value, frame.feature) > config.threshold && timestamp - segmentStart >= config.minimumSceneLength {
          var seg := NewSceneSegment(segmentStart, timestamp);
          if seg.Err? {
            RunStopsAtError(frames, frameIndex + 1, frameStep, distance, config);
            return Err(seg.error);
          }
          segments := segments + [seg.value];
          segmentStart := timestamp;
        }
      }
      previous := Some(frame.feature);
      frameIndex := frameIndex + 1;
    }
    assert frames[..|frames|] == frames;
    var total := MicrosToMillis(media.lengthMicros);
    if total == 0 {
      total := MicrosToMillis(media.endMicros);
    }
    if total == 0 {
      total := segmentStart + config.minimumSceneLength;
    }
    var last := NewSceneSegment(segmentStart, total);
    if last.Err? {
      return Err(last.error);
    }
    segments := segments + [last.value];
    r := MergeShortSegments(segments, config.minimumSceneLength);
  }

  /** Once the cut loop fails at some frame, it fails for every longer prefix (Java's exception leaves the loop). */
  lemma {:induction false} RunStopsAtError<F>(frames: seq<Frame<F>>, k: nat, step: int, distance: (F, F) -> real, config: SceneDetectionConfig)
    requires step >= 1 && k <= |frames|
    requires Run(frames[..k], step, distance, config).Err?
    ensures Run(frames, step, distance, config) == Run(frames[..k], step, distance, config)
    decreases |frames| - k
  {
    if k < |frames| {
      assert frames[..k + 1][..k] == frames[..k];
      RunStopsAtError(frames, k + 1, step, distance, config);
    } else {
      assert frames[..k] == frames;
    }
  }

  // ---------------------------------------------------------------- properties

  /** `segments` lead without gaps from `a` to `b`: the first starts at `a`, each starts where the previous ended. */
  predicate Chain(segments: seq<SceneSegment>, a: int, b: int)
    decreases |segments|
  {
    if segments == [] then a == b else segments[0].start == a && Chain(segments[1..], segments[0].end, b)
  }

  predicate AllValid(segments: seq<SceneSegment>) {
    forall i :: 0 <= i < |segments| ==> segments[i].Valid()
  }

  /** Every segment except possibly the last lasts at least `minimumLength`. */
  predicate LongExceptLast(segments: seq<SceneSegment>, minimumLength: int) {
    forall i :: 0 <= i < |segments| - 1 ==> segments[i].Duration() >= minimumLength
  }

  lemma {:induction false} ChainSnoc(segments: seq<SceneSegment>, a: int, b: int, seg: SceneSegment)
    requires Chain(segments, a, b) && seg.start == b
    ensures Chain(segments + [seg], a, seg.end)
    decreases |segments|
  {
    if segments == [] {
      assert [] + [seg] == [seg];
      assert [seg][1..] == [];
    } else {
      ChainSnoc(segments[1..], segments[0].end, b, seg);
      assert (segments + [seg])[1..] == segments[1..] + [seg];
    }
  }

  /** The segments of a chain of valid segments advance: the chain's end lies after its start. */
  lemma {:induction false} ChainAdvances(segments: seq<SceneSegment>, a: int, b: int)
    requires Chain(segments, a, b) && AllValid(segments)
    ensures segments != [] ==> a < b
    ensures a <= b
    decreases |segments|
  {
    if segments != [] {
      assert segments[0].Valid();
      assert AllValid(segments[1..]) by {
        forall i | 0 <= i < |segments[1..]| ensures segments[1..][i].Valid() {
          assert segments[1..][i] == segments[i + 1];
        }
      }
      ChainAdvances(segments[1..], segments[0].end, b);
    }
  }

  /**
   * The cut loop keeps its segments valid, contiguous from 0 to the open segment's start, and at
   * least the minimum long; the open segment never starts before 0.
   */
  lemma {:induction false} RunInvariant<F>(frames: seq<Frame<F>>, step: int, distance: (F, F) -> real, config: SceneDetectionConfig)
    requires step >= 1
    ensures var r := Run(frames, step, distance, config);
      r.Ok? ==>
        var st := r.value;
        st.segmentStart >= 0 && Chain(st.segments, 0, st.segmentStart) && AllValid(st.segments)
        && (forall i :: 0 <= i < |st.segments| ==> st.segments[i].Duration() >= config.minimumSceneLength)
        && (frames != [] <==> st.previous.Some?)
  {
    if frames != [] {
      var init := frames[..|frames| - 1];
      RunInvariant(init, step, distance, config);
      var r0 := Run(init, step, distance, config);
      if r0.Ok? && (|frames| - 1) % step == 0 {
        var st := r0.value;
        var f := frames[|frames| - 1];
        var t := MicrosToMillis(f.timestampMicros);
        if st.previous.Some? && distance(st.previous.value, f.feature) > config.threshold
           && t - st.segmentStart >= config.minimumSceneLength && NewSceneSegment(st.segmentStart, t).Ok? {
          var seg := NewSceneSegment(st.segmentStart, t).value;
          ChainSnoc(st.segments, 0, st.segmentStart, seg);
          assert (st.segments + [seg])[|st.segments|] == seg;
        }
      }
    }
  }

  /** The first sampled frame cannot cut: it has no previous feature. */
  lemma FirstFrameNeverCuts<F>(f: Frame<F>, step: int, distance: (F, F) -> real, config: SceneDetectionConfig)
    requires step >= 1
    ensures Run([f], step, distance, config) == Ok(Scan(Some(f.feature), 0, []))
  {
    assert [f][..0] == [];
  }

  /**
   * A sampled frame closes the open segment exactly when there is a previous feature, the
   * feature moved more than the threshold and the open segment is at least the minimum long;
   * the closed segment ends at the frame's time, where the next one starts, and a closed segment
   * that would start before 0 or not end after its start is an illegal argument. Otherwise only the previous
   * feature changes.
   */
  lemma StepCuts<F>(st: Scan<F>, f: Frame<F>, distance: (F, F) -> real, config: SceneDetectionConfig)
    ensures var t := MicrosToMillis(f.timestampMicros);
      var cut := st.previous.Some? && distance(st.previous.value, f.feature) > config.threshold
                 && t - st.segmentStart >= config.minimumSceneLength;
      var r := Step(st, f, distance, config);
      && (cut && (st.segmentStart < 0 || t <= st.segmentStart) ==> r == Err(IllegalArgument))
      && (cut && 0 <= st.segmentStart < t ==> r == Ok(Scan(Some(f.feature), t, st.segments + [SceneSegment(st.segmentStart, t)])))
      && (!cut ==> r == Ok(Scan(Some(f.feature), st.segmentStart, st.segments)))
  {
  }

  /**
   * Before merging, the segments are valid and contiguous from 0 to the trailing segment's end
   * `Total`, and all but the trailing one are at least the minimum long.
   */
  lemma SegmentsContiguous<F>(media: Media<F>, distance: (F, F) -> real, config: SceneDetectionConfig)
    ensures var r := Segments(media, distance, config);
      var run := Run(media.frames, FrameStep(media.frameRate), distance, config);
      r.Ok? ==>
        |r.value| >= 1 && AllValid(r.value) && LongExceptLast(r.value, config.minimumSceneLength)
        && Chain(r.value, 0, r.value[|r.value| - 1].end)
        && run.Ok? && r.value[|r.value| - 1].end == Total(media, run.value.segmentStart, config.minimumSceneLength)
  {
    var step := FrameStep(media.frameRate);
    RunInvariant(media.frames, step, distance, config);
    var run := Run(media.frames, step, distance, config);
    if run.Ok? {
      var st := run.value;
      var last := NewSceneSegment(st.segmentStart, Total(media, st.segmentStart, config.minimumSceneLength));
      if last.Ok? {
        ChainSnoc(st.segments, 0, st.segmentStart, last.value);
        var segs := st.segments + [last.value];
        assert segs[|segs| - 1] == last.value;
        assert forall i :: 0 <= i < |st.segments| ==> segs[i] == st.segments[i];
      }
    }
  }

  /** The trailing segment fails exactly when its end does not lie after the open segment's start. */
  lemma TrailingSegmentCheck<F>(media: Media<F>, distance: (F, F) -> real, config: SceneDetectionConfig)
    ensures var run := Run(media.frames, FrameStep(media.frameRate), distance, config);
      run.Ok? ==>
        (Segments(media, distance, config).Err?
         <==> Total(media, run.value.segmentStart, config.minimumSceneLength) <= run.value.segmentStart)
  {
    RunInvariant(media.frames, FrameStep(media.frameRate), distance, config);
  }

  /** The main loop invariant of the merge: what has been emitted, the accumulator and the rest form one chain. */
  lemma {:induction false} MergeLoopChain(merged: seq<SceneSegment>, current: SceneSegment, rest: seq<SceneSegment>,
                                          minimumLength: int, a: int, b: int)
    requires Chain(merged, a, current.start) && current.Valid() && Chain(rest, current.end, b) && AllValid(rest)
    requires AllValid(merged) && forall i :: 0 <= i < |merged| ==> merged[i].Duration() >= minimumLength
    ensures var r := MergeLoop(merged, current, rest, minimumLength);
      r.Ok? && Chain(r.value, a, b) && AllValid(r.value) && LongExceptLast(r.value, minimumLength)
      && |merged| + 1 <= |r.value| <= |merged| + 1 + |rest|
    decreases |rest|
  {
    var out := merged + [current];
    ChainSnoc(merged, a, current.start, current);
    assert out[|merged|] == current;
    assert forall i :: 0 <= i < |merged| ==> out[i] == merged[i];
    if rest != [] {
      assert rest[0].Valid();
      assert AllValid(rest[1..]) by {
        forall i | 0 <= i < |rest[1..]| ensures rest[1..][i].Valid() {
          assert rest[1..][i] == rest[i + 1];
        }
      }
      if current.Duration() < minimumLength {
        var joined := NewSceneSegment(current.start, rest[0].end);
        assert joined.Ok?;
        MergeLoopChain(merged, joined.value, rest[1..], minimumLength, a, b);
      } else {
        MergeLoopChain(out, rest[0], rest[1..], minimumLength, a, b);
      }
    }
  }

  /**
   * Merging a contiguous run of valid segments cannot fail; it returns between 1 and n segments
   * that keep the first start, the last end and contiguity, and all but the last are long enough.
   */
  lemma MergeProperties(segments: seq<SceneSegment>, minimumLength: int, a: int, b: int)
    requires segments != [] && Chain(segments, a, b) && AllValid(segments)
    ensures var r := Merge(segments, minimumLength);
      r.Ok? && 1 <= |r.value| <= |segments| && Chain(r.value, a, b) && AllValid(r.value)
      && LongExceptLast(r.value, minimumLength)
      && r.value[0].start == segments[0].start && r.value[|r.value| - 1].end == b
  {
    assert segments[0].Valid();
    assert AllValid(segments[1..]) by {
      forall i | 0 <= i < |segments[1..]| ensures segments[1..][i].Valid() {
        assert segments[1..][i] == segments[i + 1];
      }
    }
    MergeLoopChain([], segments[0], segments[1..], minimumLength, a, b);
    var r := Merge(segments, minimumLength).value;
    ChainLast(r, a, b);
  }

  lemma {:induction false} ChainLast(segments: seq<SceneSegment>, a: int, b: int)
    requires segments != [] && Chain(segments, a, b)
    ensures segments[0].start == a && segments[|segments| - 1].end == b
    decreases |segments|
  {
    if |segments| > 1 {
      ChainLast(segments[1..], segments[0].end, b);
    }
  }

  /** The empty list is returned as it is. */
  lemma MergeEmpty(minimumLength: int)
    ensures Merge([], minimumLength) == Ok([])
  {
  }

  /** With a non-positive minimum nothing is short, so merging returns its (valid) input unchanged. */
  lemma {:induction false} MergeLoopKeeps(merged: seq<SceneSegment>, current: SceneSegment, rest: seq<SceneSegment>, minimumLength: int)
    requires minimumLength <= 0 && current.Valid() && AllValid(rest)
    ensures MergeLoop(merged, current, rest, minimumLength) == Ok(merged + [current] + rest)
    decreases |rest|
  {
    if rest != [] {
      assert rest[0].Valid();
      assert AllValid(rest[1..]) by {
        forall i | 0 <= i < |rest[1..]| ensures rest[1..][i].Valid() {
          assert rest[1..][i] == rest[i + 1];
        }
      }
      MergeLoopKeeps(merged + [current], rest[0], rest[1..], minimumLength);
      assert rest == [rest[0]] + rest[1..];
      assert merged + [current] + [rest[0]] + rest[1..] == merged + [current] + rest;
    } else {
      assert merged + [current] + rest == merged + [current];
    }
  }

  lemma MergeNonPositiveMinimum(segments: seq<SceneSegment>, minimumLength: int)
    requires minimumLength <= 0 && AllValid(segments)
    ensures Merge(segments, minimumLength) == Ok(segments)
  {
    if segments != [] {
      assert segments[0].Valid();
      assert AllValid(segments[1..]) by {
        forall i | 0 <= i < |segments[1..]| ensures segments[1..][i].Valid() {
          assert segments[1..][i] == segments[i + 1];
        }
      }
      MergeLoopKeeps([], segments[0], segments[1..], minimumLength);
      assert [] + [segments[0]] + segments[1..] == segments;
    }
  }

  /**
   * Whatever the decoder reports, a successful detection covers [0, end] without gaps with at
   * least one valid segment, every one but the last at least the minimum long, and `end` is the
   * stream's total `Total`.
   */
  lemma DetectionProperties<F>(media: Media<F>, distance: (F, F) -> real, config: SceneDetectionConfig)
    ensures !media.fileExists ==> Detection(media, distance, config) == Err(InputNotFound)
    ensures var r := Detection(media, distance, config);
      var run := Run(media.frames, FrameStep(media.frameRate), distance, config);
      r.Ok? ==>
        |r.value| >= 1 && r.value[0].start == 0 && Chain(r.value, 0, r.value[|r.value| - 1].end)
        && AllValid(r.value) && LongExceptLast(r.value, config.minimumSceneLength)
        && run.Ok? && r.value[|r.value| - 1].end == Total(media, run.value.segmentStart, config.minimumSceneLength)
    ensures media.fileExists && Segments(media, distance, config).Ok? ==> Detection(media, distance, config).Ok?
  {
    SegmentsContiguous(media, distance, config);
    var s := Segments(media, distance, config);
    if media.fileExists && s.Ok? {
      var segs := s.value;
      MergeProperties(segs, config.minimumSceneLength, 0, segs[|segs| - 1].end);
    }
  }
}
