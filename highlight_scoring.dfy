/**
 * Highlight scoring (`HighlightScorer`): every scene gets a weighted score from four signals
 * (motion, non-silence, keyword density and a motion-derived face placeholder), clamped at 1,
 * and the scenes are returned by descending score. The decoder is an input: the frame the
 * grabber returns when seeking to a timestamp (`None` where it returns null), and the
 * normalised difference `sum(|a - b|) / (rows * cols * 255)` of two grey frames.
 */
module HighlightScoring {
  import opened Wrappers
  import opened JavaNum
  import opened AiValues
  import opened AiConfig
  import StableSort

  // ---------------------------------------------------------------- motion

  /** The seek step in microseconds: a fifth of the scene, but at least 200 ms. */
  function SeekStep(scene: SceneSegment): (step: int)
    ensures step >= 200000
  {
    Max(200000, (scene.end * 1000 - scene.start * 1000) / 5)
  }

  /**
   * The sampling loop of `sampleMotion` from seek position `current`: it stops at the scene end or
   * at the first failed grab; from the second frame on it adds the difference to the previous frame.
   * The result is the total difference and the number of comparisons.
   */
  function MotionLoop<F>(current: int, endMicros: int, step: int, previous: Option<F>, total: real, comparisons: nat,
                         frameAt: int -> Option<F>, diff: (F, F) -> real): (real, nat)
    requires step >= 1
    decreases endMicros - current
  {
    if current >= endMicros then (total, comparisons)
    else match frameAt(current)
      case None => (total, comparisons)
      case Some(f) =>
        if previous.Some? then
          MotionLoop(current + step, endMicros, step, Some(f), total + diff(previous.value, f), comparisons + 1, frameAt, diff)
        else
          MotionLoop(current + step, endMicros, step, Some(f), total, comparisons, frameAt, diff)
  }

  /** `sampleMotion`: the mean difference of consecutive sampled frames, at most 1; 0 without comparisons. */
  function Motion<F>(scene: SceneSegment, frameAt: int -> Option<F>, diff: (F, F) -> real): real {
    var (total, comparisons) := MotionLoop(scene.start * 1000, scene.end * 1000, SeekStep(scene), None, 0.0, 0, frameAt, diff);
    if comparisons == 0 then 0.0 else AtMostOne(total / comparisons as real)
  }

  method SampleMotion<F>(scene: SceneSegment, frameAt: int -> Option<F>, diff: (F, F) -> real) returns (m: real)
    ensures m == Motion(scene, frameAt, diff)
  {
    var startMicros := scene.start * 1000;
    var endMicros := scene.end * 1000;
    var stepMicros := Max(200000, (endMicros - startMicros) / 5);
    var current := startMicros;
    var previous: Option<F> := None;
    var totalDiff := 0.0;
    var comparisons: nat := 0;
    ghost var goal := MotionLoop(startMicros, endMicros, stepMicros, None, 0.0, 0, frameAt, diff);
    while current < endMicros
      invariant MotionLoop(current, endMicros, stepMicros, previous, totalDiff, comparisons, frameAt, diff) == goal
      decreases endMicros - current
    {
      var frame := frameAt(current);
      if frame.None? {
        break;
      }
      if previous.Some? {
        totalDiff := totalDiff + diff(previous.value, frame.value);
        comparisons := comparisons + 1;
      }
      previous := frame;
      current := current + stepMicros;
    }
    if comparisons == 0 {
      return 0.0;
    }
    return AtMostOne(totalDiff / comparisons as real);
  }

  lemma {:induction false} MotionLoopNonNegative<F(!new)>(current: int, endMicros: int, step: int, previous: Option<F>, total: real,
                                                    comparisons: nat, frameAt: int -> Option<F>, diff: (F, F) -> real)
    requires step >= 1 && total >= 0.0
    requires forall a, b :: diff(a, b) >= 0.0
    ensures MotionLoop(current, endMicros, step, previous, total, comparisons, frameAt, diff).0 >= 0.0
    decreases endMicros - current
  {
    if current < endMicros && frameAt(current).Some? {
      var f := frameAt(current).value;
      if previous.Some? {
        assert diff(previous.value, f) >= 0.0;
        MotionLoopNonNegative(current + step, endMicros, step, Some(f), total + diff(previous.value, f), comparisons + 1, frameAt, diff);
      } else {
        MotionLoopNonNegative(current + step, endMicros, step, Some(f), total, comparisons, frameAt, diff);
      }
    }
  }

  /** With non-negative frame differences the motion score lies in [0, 1]; it is 0 when the first grab fails. */
  lemma MotionInUnitRange<F(!new)>(scene: SceneSegment, frameAt: int -> Option<F>, diff: (F, F) -> real)
    requires forall a, b :: diff(a, b) >= 0.0
    ensures 0.0 <= Motion(scene, frameAt, diff) <= 1.0
    ensures scene.start < scene.end && frameAt(scene.start * 1000).None? ==> Motion(scene, frameAt, diff) == 0.0
  {
    MotionLoopNonNegative(scene.start * 1000, scene.end * 1000, SeekStep(scene), None, 0.0, 0, frameAt, diff);
  }

  /** `faceScore`: a placeholder derived from motion, in [0.5, 1] when the motion is in [0, 1]. */
  function FaceScore(motion: real): (f: real)
    ensures 0.0 <= motion <= 1.0 ==> 0.5 <= f <= 1.0
    ensures f - 0.5 == motion / 2.0
  {
    motion * 0.5 + 0.5
  }

  // ---------------------------------------------------------------- silence coverage

  /** The milliseconds of `silence` that lie inside `scene` (zero when they do not intersect). */
  function Intersection(scene: SceneSegment, silence: SilenceRange): (d: int)
    ensures d >= 0
    ensures d > 0 <==> silence.start < scene.end && scene.start < silence.end && silence.start < silence.end
                       && scene.start < scene.end
    ensures d <= silence.end - silence.start || d == 0
    ensures d <= scene.end - scene.start || d == 0
  {
    var start := if silence.start > scene.start then silence.start else scene.start;
    var end := if silence.end < scene.end then silence.end else scene.end;
    if end > start then end - start else 0
  }

  /** The summed intersections of `silences` with `scene`. */
  function OverlapSum(scene: SceneSegment, silences: seq<SilenceRange>): int {
    if silences == [] then 0 else OverlapSum(scene, silences[..|silences| - 1]) + Intersection(scene, silences[|silences| - 1])
  }

  /** `silenceCoverage`: the share of the scene covered by silence; 0 for a null or empty list. */
  function Coverage(scene: SceneSegment, silences: Option<seq<SilenceRange>>): real
    requires scene.Valid()
  {
    if silences.None? || silences.value == [] then 0.0
    else OverlapSum(scene, silences.value) as real / scene.Duration() as real
  }

  method SilenceCoverage(scene: SceneSegment, silences: Option<seq<SilenceRange>>) returns (c: real)
    requires scene.Valid()
    ensures c == Coverage(scene, silences)
  {
    if silences.None? || silences.value == [] {
      return 0.0;
    }
    var ss := silences.value;
    var overlap := 0;
    for i := 0 to |ss|
      invariant overlap == OverlapSum(scene, ss[..i])
    {
      assert ss[..i + 1][..i] == ss[..i];
      overlap := overlap + Intersection(scene, ss[i]);
    }
    assert ss[..|ss|] == ss;
    return overlap as real / scene.Duration() as real;
  }

  /** Ranges in ascending order, each ending no later than any later one starts (as silence detection emits them). */
  predicate Disjoint(s: seq<SilenceRange>) {
    forall i, j :: 0 <= i < j < |s| ==> s[i].end <= s[j].start
  }

  predicate AllValid(s: seq<SilenceRange>) {
    forall i :: 0 <= i < |s| ==> s[i].Valid()
  }

  /** Disjoint ranges ending by `t` cover at most the part of the scene before `t`. */
  lemma {:induction false} OverlapBound(scene: SceneSegment, silences: seq<SilenceRange>, t: int)
    requires scene.Valid() && AllValid(silences) && Disjoint(silences)
    requires forall i :: 0 <= i < |silences| ==> silences[i].end <= t
    ensures 0 <= OverlapSum(scene, silences) <= Max(0, Min(t, scene.end) - scene.start)
  {
    if silences != [] {
      var init, x := silences[..|silences| - 1], silences[|silences| - 1];
      assert AllValid(init) && Disjoint(init) by {
        assert forall i :: 0 <= i < |init| ==> init[i] == silences[i];
      }
      assert x.Valid();
      OverlapBound(scene, init, x.start);
    }
  }

  /** In an ascending list of valid ranges the last one ends last. */
  lemma LastEndsLast(ss: seq<SilenceRange>)
    requires ss != [] && AllValid(ss) && Disjoint(ss)
    ensures forall i :: 0 <= i < |ss| ==> ss[i].end <= ss[|ss| - 1].end
  {
    assert ss[|ss| - 1].Valid();
  }

  /** For disjoint silences the coverage is a fraction in [0, 1]; it is 0 for a null or empty list. */
  lemma CoverageInUnitRange(scene: SceneSegment, silences: Option<seq<SilenceRange>>)
    requires scene.Valid()
    requires silences.Some? ==> AllValid(silences.value) && Disjoint(silences.value)
    ensures 0.0 <= Coverage(scene, silences) <= 1.0
    ensures silences.None? || silences.value == [] ==> Coverage(scene, silences) == 0.0
  {
    if silences.Some? && silences.value != [] {
      var ss := silences.value;
      LastEndsLast(ss);
      OverlapBound(scene, ss, ss[|ss| - 1].end);
      FractionAtMostOne(OverlapSum(scene, ss), scene.Duration());
    }
  }

  lemma FractionAtMostOne(a: int, b: int)
    requires 0 <= a <= b && b > 0
    ensures 0.0 <= a as real / b as real <= 1.0
  {
    assert a as real <= b as real;
  }

  // ---------------------------------------------------------------- keywords

  /** Strict overlap: a line that only touches a scene boundary does not overlap the scene. */
  predicate Overlaps(line: SubtitleLine, scene: SceneSegment) {
    line.end > scene.start && line.start < scene.end
  }

  /** The lower-cased text contains one of the (lower-cased) keywords. */
  predicate Mentions(text: string, keywords: seq<string>) {
    exists k :: k in keywords && Contains(Lower(text), k)
  }

  /** The number of lines that overlap the scene and mention a keyword. */
  function Matches(scene: SceneSegment, lines: seq<SubtitleLine>, keywords: seq<string>): (n: nat)
    ensures n <= |lines|
  {
    if lines == [] then 0
    else
      (if Overlaps(lines[0], scene) && Mentions(lines[0].text, keywords) then 1 else 0)
      + Matches(scene, lines[1..], keywords)
  }

  /** The keyword set: every keyword lower-cased; no keywords when the list is null. */
  function KeywordSet(keywords: Option<seq<string>>): (ks: seq<string>)
    ensures keywords.None? ==> ks == []
    ensures keywords.Some? ==> |ks| == |keywords.value| && forall i :: 0 <= i < |ks| ==> ks[i] == Lower(keywords.value[i])
  {
    if keywords.None? then [] else seq(|keywords.value|, i requires 0 <= i < |keywords.value| => Lower(keywords.value[i]))
  }

  /** `keywordDensity`: `min(1, matches / 5)`, 0 without subtitles or keywords. */
  function KeywordDensity(scene: SceneSegment, subtitles: Option<seq<SubtitleLine>>, keywords: seq<string>): real {
    if subtitles.None? || subtitles.value == [] || keywords == [] then 0.0
    else AtMostOne(Matches(scene, subtitles.value, keywords) as real / 5.0)
  }

  lemma KeywordDensityRange(scene: SceneSegment, subtitles: Option<seq<SubtitleLine>>, keywords: seq<string>)
    ensures 0.0 <= KeywordDensity(scene, subtitles, keywords) <= 1.0
    ensures subtitles.None? || keywords == [] ==> KeywordDensity(scene, subtitles, keywords) == 0.0
    ensures subtitles.Some? && keywords != [] && Matches(scene, subtitles.value, keywords) >= 5
            ==> KeywordDensity(scene, subtitles, keywords) == 1.0
  {
  }

  /** A line ending exactly at the scene start, or starting exactly at its end, is not counted. */
  lemma {:induction false} TouchingLinesDoNotCount(scene: SceneSegment, lines: seq<SubtitleLine>, keywords: seq<string>)
    requires forall i :: 0 <= i < |lines| ==> lines[i].end == scene.start || lines[i].start == scene.end
    ensures Matches(scene, lines, keywords) == 0
  {
    if lines != [] {
      assert !Overlaps(lines[0], scene);
      TouchingLinesDoNotCount(scene, lines[1..], keywords);
    }
  }

  // ---------------------------------------------------------------- scoring

  /** The four signals of a scene, before weighting. */
  datatype Signals = Signals(motion: real, audio: real, keyword: real, face: real)

  function SignalsOf<F>(scene: SceneSegment, silences: Option<seq<SilenceRange>>, subtitles: Option<seq<SubtitleLine>>,
                        keywords: seq<string>, frameAt: int -> Option<F>, diff: (F, F) -> real): Signals
    requires scene.Valid()
  {
    var motion := Motion(scene, frameAt, diff);
    Signals(motion, 1.0 - Coverage(scene, silences), KeywordDensity(scene, subtitles, keywords), FaceScore(motion))
  }

  /** The weighted sum, clamped at 1. */
  function Weighted(config: HighlightConfig, s: Signals): real {
    AtMostOne(config.motionWeight * s.motion + config.audioWeight * s.audio + config.keywordWeight * s.keyword
              + config.faceWeight * s.face)
  }

  function Scored<F>(scene: SceneSegment, silences: Option<seq<SilenceRange>>, subtitles: Option<seq<SubtitleLine>>,
                     keywords: seq<string>, frameAt: int -> Option<F>, diff: (F, F) -> real, config: HighlightConfig)
    : HighlightSegment
    requires scene.Valid()
  {
    HighlightSegment(scene.start, scene.end, Weighted(config, SignalsOf(scene, silences, subtitles, keywords, frameAt, diff)))
  }

  predicate AllScenesValid(scenes: seq<SceneSegment>) {
    forall i :: 0 <= i < |scenes| ==> scenes[i].Valid()
  }

  /** The per-scene highlights in scene order, before sorting. */
  function ScoredAll<F>(scenes: seq<SceneSegment>, silences: Option<seq<SilenceRange>>, subtitles: Option<seq<SubtitleLine>>,
                        keywords: seq<string>, frameAt: int -> Option<F>, diff: (F, F) -> real, config: HighlightConfig)
    : (r: seq<HighlightSegment>)
    requires AllScenesValid(scenes)
    ensures |r| == |scenes|
    ensures forall i :: 0 <= i < |scenes| ==> r[i] == Scored(scenes[i], silences, subtitles, keywords, frameAt, diff, config)
  {
    if scenes == [] then []
    else
      var init := scenes[..|scenes| - 1];
      assert AllScenesValid(init) by {
        assert forall i :: 0 <= i < |init| ==> init[i] == scenes[i];
      }
      ScoredAll(init, silences, subtitles, keywords, frameAt, diff, config)
        + [Scored(scenes[|scenes| - 1], silences, subtitles, keywords, frameAt, diff, config)]
  }

  /** The sort key of the descending comparator `Double.compare(b.score(), a.score())`. */
  function Descending(h: HighlightSegment): real {
    -h.score
  }

  /** `score`: the existence check first, then an empty result for null or empty scenes, else the sorted scores. */
  function Highlights<F>(mediaExists: bool, scenes: Option<seq<SceneSegment>>, silences: Option<seq<SilenceRange>>,
                         subtitles: Option<seq<SubtitleLine>>, keywords: Option<seq<string>>,
                         frameAt: int -> Option<F>, diff: (F, F) -> real, config: HighlightConfig)
    : Result<seq<HighlightSegment>>
    requires scenes.Some? ==> AllScenesValid(scenes.value)
  {
    if !mediaExists then Err(InputNotFound)
    else if scenes.None? || scenes.value == [] then Ok([])
    else
      var unsorted := ScoredAll(scenes.value, silences, subtitles, KeywordSet(keywords), frameAt, diff, config);
      Ok(StableSort.Sort(unsorted, Descending))
  }

  method Score<F>(mediaExists: bool, scenes: Option<seq<SceneSegment>>, silences: Option<seq<SilenceRange>>,
                  subtitles: Option<seq<SubtitleLine>>, keywords: Option<seq<string>>,
                  frameAt: int -> Option<F>, diff: (F, F) -> real, config: HighlightConfig)
    returns (r: Result<seq<HighlightSegment>>)
    requires scenes.Some? ==> AllScenesValid(scenes.value)
    ensures r == Highlights(mediaExists, scenes, silences, subtitles, keywords, frameAt, diff, config)
  {
    if !mediaExists {
      return Err(InputNotFound);
    }
    if scenes.None? || scenes.value == [] {
      return Ok([]);
    }
    var keywordSet := KeywordSet(keywords);
    var ss := scenes.value;
    var segments: seq<HighlightSegment> := [];
    for i := 0 to |ss|
      invariant AllScenesValid(ss[..i])
      invariant segments == ScoredAll(ss[..i], silences, subtitles, keywordSet, frameAt, diff, config)
    {
      var scene := ss[i];
      ScoredAllSnoc(ss, i, silences, subtitles, keywordSet, frameAt, diff, config);
      var h := ScoreScene(scene, silences, subtitles, keywordSet, frameAt, diff, config);
      segments := segments + [h];
    }
    assert ss[..|ss|] == ss;
    return Ok(StableSort.Sort(segments, Descending));
  }

  /** One more scene scored: the prefix of the scores grows by that scene's score. */
  lemma ScoredAllSnoc<F>(ss: seq<SceneSegment>, i: nat, silences: Option<seq<SilenceRange>>, subtitles: Option<seq<SubtitleLine>>,
                         keywords: seq<string>, frameAt: int -> Option<F>, diff: (F, F) -> real, config: HighlightConfig)
    requires AllScenesValid(ss) && i < |ss|
    ensures AllScenesValid(ss[..i]) && AllScenesValid(ss[..i + 1]) && ss[i].Valid()
    ensures ScoredAll(ss[..i + 1], silences, subtitles, keywords, frameAt, diff, config)
      == ScoredAll(ss[..i], silences, subtitles, keywords, frameAt, diff, config)
         + [Scored(ss[i], silences, subtitles, keywords, frameAt, diff, config)]
  {
    assert ss[..i + 1][..i] == ss[..i];
  }

  /** The body of the scene loop: the four signals, the weighted sum and the clamp. */
  method ScoreScene<F>(scene: SceneSegment, silences: Option<seq<SilenceRange>>, subtitles: Option<seq<SubtitleLine>>,
                       keywordSet: seq<string>, frameAt: int -> Option<F>, diff: (F, F) -> real, config: HighlightConfig)
    returns (h: HighlightSegment)
    requires scene.Valid()
    ensures h == Scored(scene, silences, subtitles, keywordSet, frameAt, diff, config)
  {
    var motionScore := SampleMotion(scene, frameAt, diff);
    var coverage := SilenceCoverage(scene, silences);
    var audioScore := 1.0 - coverage;
    var keywordScore := KeywordDensity(scene, subtitles, keywordSet);
    var faceScore := motionScore * 0.5 + 0.5;
    var signals := Signals(motionScore, audioScore, keywordScore, faceScore);
    h := HighlightSegment(scene.start, scene.end, Weighted(config, signals));
  }

  // ---------------------------------------------------------------- properties

  /** Every scene's highlight passes the `HighlightSegment` check and keeps the scene's bounds. */
  lemma ScoredIsValid<F>(scene: SceneSegment, silences: Option<seq<SilenceRange>>, subtitles: Option<seq<SubtitleLine>>,
                         keywords: seq<string>, frameAt: int -> Option<F>, diff: (F, F) -> real, config: HighlightConfig)
    requires scene.Valid()
    ensures var h := Scored(scene, silences, subtitles, keywords, frameAt, diff, config);
      NewHighlightSegment(scene.start, scene.end, h.score) == Ok(h) && h.score <= 1.0
  {
  }

  /**
   * A missing file is an error even without scenes; null or empty scenes give no highlights.
   * Otherwise there is exactly one highlight per scene (the output is a permutation of the
   * per-scene scores), ordered by descending score, equal scores in scene order, none above 1.
   */
  lemma HighlightsProperties<F(!new)>(mediaExists: bool, scenes: Option<seq<SceneSegment>>, silences: Option<seq<SilenceRange>>,
                                subtitles: Option<seq<SubtitleLine>>, keywords: Option<seq<string>>,
                                frameAt: int -> Option<F>, diff: (F, F) -> real, config: HighlightConfig)
    requires scenes.Some? ==> AllScenesValid(scenes.value)
    ensures var r := Highlights(mediaExists, scenes, silences, subtitles, keywords, frameAt, diff, config);
      (!mediaExists ==> r == Err(InputNotFound))
      && (mediaExists && (scenes.None? || scenes.value == []) ==> r == Ok([]))
      && (mediaExists && scenes.Some? && scenes.value != [] ==>
            var ss := scenes.value;
            var unsorted := ScoredAll(ss, silences, subtitles, KeywordSet(keywords), frameAt, diff, config);
            r.Ok? && |r.value| == |ss| && Ranked(r.value, unsorted)
            && (forall i :: 0 <= i < |r.value| ==> r.value[i].score <= 1.0))
  {
    if mediaExists && scenes.Some? && scenes.value != [] {
      var ss := scenes.value;
      var unsorted := ScoredAll(ss, silences, subtitles, KeywordSet(keywords), frameAt, diff, config);
      assert forall i :: 0 <= i < |unsorted| ==> unsorted[i].score <= 1.0;
      RankedProperties(unsorted);
    }
  }

  /**
   * With valid weights, non-negative frame differences and valid, disjoint silences, no
   * highlight scores below 0.
   */
  lemma HighlightsNonNegative<F(!new)>(mediaExists: bool, scenes: Option<seq<SceneSegment>>, silences: Option<seq<SilenceRange>>,
                                      subtitles: Option<seq<SubtitleLine>>, keywords: Option<seq<string>>,
                                      frameAt: int -> Option<F>, diff: (F, F) -> real, config: HighlightConfig)
    requires scenes.Some? ==> AllScenesValid(scenes.value)
    requires config.Valid() && forall a, b :: diff(a, b) >= 0.0
    requires silences.Some? ==> AllValid(silences.value) && Disjoint(silences.value)
    ensures var r := Highlights(mediaExists, scenes, silences, subtitles, keywords, frameAt, diff, config);
      r.Ok? ==> forall i :: 0 <= i < |r.value| ==> r.value[i].score >= 0.0
  {
    if mediaExists && scenes.Some? && scenes.value != [] {
      var ss := scenes.value;
      var unsorted := ScoredAll(ss, silences, subtitles, KeywordSet(keywords), frameAt, diff, config);
      forall i | 0 <= i < |unsorted| ensures unsorted[i].score >= 0.0 {
        ScoreInUnitRange(ss[i], silences, subtitles, KeywordSet(keywords), frameAt, diff, config);
      }
      RankedProperties(unsorted);
      var r := StableSort.Sort(unsorted, Descending);
      assert forall i :: 0 <= i < |r| ==> r[i].score >= 0.0;
    }
  }

  /**
   * `r` ranks `unsorted`: a permutation of it, ordered by descending score, with equal scores
   * in their order in `unsorted`.
   */
  ghost predicate Ranked(r: seq<HighlightSegment>, unsorted: seq<HighlightSegment>) {
    && |r| == |unsorted| && multiset(r) == multiset(unsorted)
    && (forall i, j :: 0 <= i < j < |r| ==> r[i].score >= r[j].score)
    && (forall k :: StableSort.WithKey(r, Descending, k) == StableSort.WithKey(unsorted, Descending, k))
  }

  /**
   * The ranking of `detectHighlights` is `Ranked`, and bounded by 1, or by 0 from below, when
   * every score is.
   */
  lemma RankedProperties(unsorted: seq<HighlightSegment>)
    ensures var r := StableSort.Sort(unsorted, Descending);
      && Ranked(r, unsorted)
      && ((forall i :: 0 <= i < |unsorted| ==> unsorted[i].score <= 1.0) ==> forall i :: 0 <= i < |r| ==> r[i].score <= 1.0)
      && ((forall i :: 0 <= i < |unsorted| ==> unsorted[i].score >= 0.0) ==> forall i :: 0 <= i < |r| ==> r[i].score >= 0.0)
  {
    var r := StableSort.Sort(unsorted, Descending);
    StableSort.SortProperties(unsorted, Descending);
    forall k {
      StableSort.SortStable(unsorted, Descending, k);
    }
    forall i | 0 <= i < |r| ensures exists j :: 0 <= j < |unsorted| && unsorted[j] == r[i] {
      assert r[i] in multiset(unsorted);
    }
    forall i, j | 0 <= i < j < |r| ensures r[i].score >= r[j].score {
      assert Descending(r[i]) <= Descending(r[j]);
    }
  }

  lemma MulNonNegative(a: real, b: real)
    requires a >= 0.0 && b >= 0.0
    ensures a * b >= 0.0
  {
  }

  /** Non-negative weights over signals in [0, 1] give a clamped score in [0, 1]. */
  lemma WeightedInUnitRange(config: HighlightConfig, s: Signals)
    requires config.Valid()
    requires 0.0 <= s.motion <= 1.0 && 0.0 <= s.audio <= 1.0 && 0.0 <= s.keyword <= 1.0 && 0.0 <= s.face <= 1.0
    ensures 0.0 <= Weighted(config, s) <= 1.0
  {
    MulNonNegative(config.motionWeight, s.motion);
    MulNonNegative(config.audioWeight, s.audio);
    MulNonNegative(config.keywordWeight, s.keyword);
    MulNonNegative(config.faceWeight, s.face);
  }

  /**
   * With valid weights, non-negative frame differences and disjoint silences every signal is in
   * [0, 1], so every score is in [0, 1].
   */
  lemma ScoreInUnitRange<F(!new)>(scene: SceneSegment, silences: Option<seq<SilenceRange>>, subtitles: Option<seq<SubtitleLine>>,
                            keywords: seq<string>, frameAt: int -> Option<F>, diff: (F, F) -> real, config: HighlightConfig)
    requires scene.Valid() && config.Valid()
    requires silences.Some? ==> AllValid(silences.value) && Disjoint(silences.value)
    requires forall a, b :: diff(a, b) >= 0.0
    ensures 0.0 <= Scored(scene, silences, subtitles, keywords, frameAt, diff, config).score <= 1.0
  {
    MotionInUnitRange(scene, frameAt, diff);
    CoverageInUnitRange(scene, silences);
    KeywordDensityRange(scene, subtitles, keywords);
    WeightedInUnitRange(config, SignalsOf(scene, silences, subtitles, keywords, frameAt, diff));
  }

  /**
   * The scorer's test: scenes [0, 2 s) and [2 s, 5 s), silence [0, 1 s), one line "Great goal!"
   * over [2 s, 4 s) and the keyword "goal". The line only touches the first scene, so it counts
   * for the second alone, whose score is positive whatever the motion.
   */
  lemma KeywordExample()
    ensures KeywordDensity(SceneSegment(2000, 5000), Some([SubtitleLine(1, 2000, 4000, "Great goal!")]), ["goal"]) == 0.2
  {
    var line := SubtitleLine(1, 2000, 4000, "Great goal!");
    MatchesSingle(SceneSegment(2000, 5000), line, ["goal"]);
    MentionsGoal();
  }

  lemma KeywordExampleTouching()
    ensures KeywordDensity(SceneSegment(0, 2000), Some([SubtitleLine(1, 2000, 4000, "Great goal!")]), ["goal"]) == 0.0
  {
    TouchingLinesDoNotCount(SceneSegment(0, 2000), [SubtitleLine(1, 2000, 4000, "Great goal!")], ["goal"]);
  }

  lemma MatchesSingle(scene: SceneSegment, line: SubtitleLine, keywords: seq<string>)
    ensures Matches(scene, [line], keywords) == if Overlaps(line, scene) && Mentions(line.text, keywords) then 1 else 0
  {
    assert [line][1..] == [];
  }

  lemma LowerGoal()
    ensures Lower("goal") == "goal" && KeywordSet(Some(["goal"])) == ["goal"]
  {
    assert forall i :: 0 <= i < 4 ==> Lower("goal")[i] == LowerChar("goal"[i]);
  }

  lemma SliceIs(s: string, i: nat, k: string)
    requires i + |k| <= |s| && forall j | 0 <= j < |k| :: s[i + j] == k[j]
    ensures s[i..i + |k|] == k
  {
  }

  /** A text with "goal" in lower case at index 6 mentions the keyword "goal". */
  lemma MentionsGoalAt(text: string)
    requires |text| >= 10 && text[6] == 'g' && text[7] == 'o' && text[8] == 'a' && text[9] == 'l'
    ensures Mentions(text, ["goal"])
  {
    var lower := Lower(text);
    SliceIs(lower, 6, "goal");
    assert OccursAt(lower, "goal", 6);
    assert "goal" in ["goal"];
  }

  lemma MentionsGoal()
    ensures Mentions("Great goal!", ["goal"])
  {
    MentionsGoalAt("Great goal!");
  }

  lemma ExampleScorePositive<F(!new)>(frameAt: int -> Option<F>, diff: (F, F) -> real)
    requires forall a, b :: diff(a, b) >= 0.0
    ensures Scored(SceneSegment(2000, 5000), Some([SilenceRange(0, 1000)]), Some([SubtitleLine(1, 2000, 4000, "Great goal!")]),
                   ["goal"], frameAt, diff, DefaultHighlightConfig()).score > 0.0
  {
    var scene := SceneSegment(2000, 5000);
    var silences := [SilenceRange(0, 1000)];
    assert silences[..0] == [];
    assert Coverage(scene, Some(silences)) == 0.0;
    KeywordExample();
    MotionInUnitRange(scene, frameAt, diff);
    var s := SignalsOf(scene, Some(silences), Some([SubtitleLine(1, 2000, 4000, "Great goal!")]), ["goal"], frameAt, diff);
    var c := DefaultHighlightConfig();
    MulNonNegative(c.motionWeight, s.motion);
    MulNonNegative(c.faceWeight, s.face);
  }
}
