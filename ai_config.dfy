/**
 * The four analysis configurations. Each validates its arguments once, at construction.
 * A `java.time.Duration` argument is an `Option<int>` of milliseconds (None is Java's null).
 */
module AiConfig {
  import opened Wrappers

  datatype SceneDetectionConfig = SceneDetectionConfig(threshold: real, minimumSceneLength: int)

  datatype SilenceDetectionConfig = SilenceDetectionConfig(rmsThreshold: real, minimumSilence: int)

  datatype HighlightConfig = HighlightConfig(
    motionWeight: real, audioWeight: real, faceWeight: real, keywordWeight: real, targetDurationSeconds: real)
  {
    predicate Valid() {
      motionWeight >= 0.0 && audioWeight >= 0.0 && faceWeight >= 0.0 && keywordWeight >= 0.0
      && targetDurationSeconds > 0.0
    }
  }

  datatype ReframeConfig = ReframeConfig(outputAspectWidth: real, outputAspectHeight: real, enableGpu: bool) {
    predicate Valid() { outputAspectWidth > 0.0 && outputAspectHeight > 0.0 }

    /** The target aspect ratio `width / height`. */
    function Aspect(): real
      requires Valid()
    {
      outputAspectWidth / outputAspectHeight
    }
  }

  /** The threshold must be positive; the minimum scene length must be present but may be zero or negative. */
  function NewSceneDetectionConfig(threshold: real, minimumSceneLength: Option<int>): (r: Result<SceneDetectionConfig>)
    ensures threshold <= 0.0 ==> r == Err(IllegalArgument)
    ensures threshold > 0.0 && minimumSceneLength.None? ==> r == Err(NullArgument)
    ensures threshold > 0.0 && minimumSceneLength.Some? ==>
      r.Ok? && r.value.threshold == threshold && r.value.minimumSceneLength == minimumSceneLength.value
  {
    if threshold <= 0.0 then Err(IllegalArgument)
    else if minimumSceneLength.None? then Err(NullArgument)
    else Ok(SceneDetectionConfig(threshold, minimumSceneLength.value))
  }

  function DefaultSceneDetectionConfig(): (c: SceneDetectionConfig)
    ensures NewSceneDetectionConfig(35.0, Some(1000)) == Ok(c)
    ensures c.threshold == 35.0 && c.minimumSceneLength == 1000
  {
    SceneDetectionConfig(35.0, 1000)
  }

  /** The RMS threshold must be positive; the minimum silence must be present but may be zero or negative. */
  function NewSilenceDetectionConfig(rmsThreshold: real, minimumSilence: Option<int>): (r: Result<SilenceDetectionConfig>)
    ensures rmsThreshold <= 0.0 ==> r == Err(IllegalArgument)
    ensures rmsThreshold > 0.0 && minimumSilence.None? ==> r == Err(NullArgument)
    ensures rmsThreshold > 0.0 && minimumSilence.Some? ==>
      r.Ok? && r.value.rmsThreshold == rmsThreshold && r.value.minimumSilence == minimumSilence.value
  {
    if rmsThreshold <= 0.0 then Err(IllegalArgument)
    else if minimumSilence.None? then Err(NullArgument)
    else Ok(SilenceDetectionConfig(rmsThreshold, minimumSilence.value))
  }

  function DefaultSilenceDetectionConfig(): (c: SilenceDetectionConfig)
    ensures NewSilenceDetectionConfig(0.02, Some(500)) == Ok(c)
    ensures c.rmsThreshold == 0.02 && c.minimumSilence == 500
  {
    SilenceDetectionConfig(0.02, 500)
  }

  /** Negative weights are rejected (zero is allowed) and the target duration must be positive. */
  function NewHighlightConfig(motion: real, audio: real, face: real, keyword: real, target: real): (r: Result<HighlightConfig>)
    ensures r.Ok? <==> motion >= 0.0 && audio >= 0.0 && face >= 0.0 && keyword >= 0.0 && target > 0.0
    ensures r.Ok? ==> r.value == HighlightConfig(motion, audio, face, keyword, target) && r.value.Valid()
    ensures r.Err? ==> r.error == IllegalArgument
  {
    if motion < 0.0 || audio < 0.0 || face < 0.0 || keyword < 0.0 then Err(IllegalArgument)
    else if target <= 0.0 then Err(IllegalArgument)
    else Ok(HighlightConfig(motion, audio, face, keyword, target))
  }

  function DefaultHighlightConfig(): (c: HighlightConfig)
    ensures NewHighlightConfig(0.35, 0.25, 0.25, 0.15, 60.0) == Ok(c)
    ensures c.Valid()
    ensures c.motionWeight + c.audioWeight + c.faceWeight + c.keywordWeight == 1.0
  {
    HighlightConfig(0.35, 0.25, 0.25, 0.15, 60.0)
  }

  /** Both aspect components must be positive; the GPU hint is carried through unchecked. */
  function NewReframeConfig(aspectWidth: real, aspectHeight: real, enableGpu: bool): (r: Result<ReframeConfig>)
    ensures r.Ok? <==> aspectWidth > 0.0 && aspectHeight > 0.0
    ensures r.Ok? ==> r.value == ReframeConfig(aspectWidth, aspectHeight, enableGpu) && r.value.Valid()
    ensures r.Err? ==> r.error == IllegalArgument
  {
    if aspectWidth <= 0.0 || aspectHeight <= 0.0 then Err(IllegalArgument)
    else Ok(ReframeConfig(aspectWidth, aspectHeight, enableGpu))
  }

  function Vertical9x16(enableGpu: bool): (c: ReframeConfig)
    ensures NewReframeConfig(9.0, 16.0, enableGpu) == Ok(c)
    ensures c.Valid() && c.Aspect() == 9.0 / 16.0 && c.enableGpu == enableGpu
  {
    ReframeConfig(9.0, 16.0, enableGpu)
  }

  function Square(enableGpu: bool): (c: ReframeConfig)
    ensures NewReframeConfig(1.0, 1.0, enableGpu) == Ok(c)
    ensures c.Valid() && c.Aspect() == 1.0 && c.enableGpu == enableGpu
  {
    ReframeConfig(1.0, 1.0, enableGpu)
  }

  /**
   * With the default weights and every signal in [0, 1], the weighted sum cannot exceed 1,
   * so the upper clamp of the scorer never changes a default-config score.
   */
  lemma DefaultWeightedSumAtMostOne(motion: real, audio: real, keyword: real, face: real)
    requires 0.0 <= motion <= 1.0 && 0.0 <= audio <= 1.0 && 0.0 <= keyword <= 1.0 && 0.0 <= face <= 1.0
    ensures var c := DefaultHighlightConfig();
      0.0 <= c.motionWeight * motion + c.audioWeight * audio + c.keywordWeight * keyword + c.faceWeight * face <= 1.0
  {
    var c := DefaultHighlightConfig();
    assert c.motionWeight * motion <= c.motionWeight;
    assert c.audioWeight * audio <= c.audioWeight;
    assert c.keywordWeight * keyword <= c.keywordWeight;
    assert c.faceWeight * face <= c.faceWeight;
  }

  /** A zero or negative minimum scene length passes validation (the algorithms assume a positive one). */
  lemma SceneConfigAcceptsNonPositiveMinimum(m: int)
    requires m <= 0
    ensures NewSceneDetectionConfig(35.0, Some(m)).Ok?
  {
  }

  /** A zero or negative minimum silence passes validation. */
  lemma SilenceConfigAcceptsNonPositiveMinimum(m: int)
    requires m <= 0
    ensures NewSilenceDetectionConfig(0.02, Some(m)).Ok?
  {
  }
}
