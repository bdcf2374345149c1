/**
 * The immutable interval records of the analysis core. Each Java record validates its
 * components in its compact constructor; here the record is a datatype and the constructor
 * a function that returns the record or the IllegalArgumentException it would throw.
 * Durations are whole milliseconds.
 */
module AiValues {
  import opened Wrappers

  /** The boundary check shared by the three interval records: `start >= 0`, `end >= 0`, `end > start`. */
  predicate IntervalOk(start: int, end: int) {
    !(start < 0 || end < 0 || end <= start)
  }

  /** A time segment between two perceptual cuts. */
  datatype SceneSegment = SceneSegment(start: int, end: int) {
    predicate Valid() { IntervalOk(start, end) }

    function Duration(): int { end - start }
  }

  /** A low-energy audio range. */
  datatype SilenceRange = SilenceRange(start: int, end: int) {
    predicate Valid() { IntervalOk(start, end) }

    function Duration(): int { end - start }
  }

  /** A scored candidate interval; the score is stored unchecked. */
  datatype HighlightSegment = HighlightSegment(start: int, end: int, score: real) {
    predicate Valid() { IntervalOk(start, end) }
  }

  /** A timed line of transcribed text; the text is not validated. */
  datatype SubtitleLine = SubtitleLine(index: int, start: int, end: int, text: string) {
    predicate Valid() { index >= 1 && IntervalOk(start, end) }
  }

  function NewSceneSegment(start: int, end: int): (r: Result<SceneSegment>)
    ensures r.Ok? <==> start >= 0 && end >= 0 && end > start
    ensures r.Ok? ==> r.value.start == start && r.value.end == end && r.value.Valid()
    ensures r.Err? ==> r.error == IllegalArgument
  {
    if start < 0 || end < 0 || end <= start then Err(IllegalArgument) else Ok(SceneSegment(start, end))
  }

  function NewSilenceRange(start: int, end: int): (r: Result<SilenceRange>)
    ensures r.Ok? <==> start >= 0 && end >= 0 && end > start
    ensures r.Ok? ==> r.value.start == start && r.value.end == end && r.value.Valid()
    ensures r.Err? ==> r.error == IllegalArgument
  {
    if start < 0 || end < 0 || end <= start then Err(IllegalArgument) else Ok(SilenceRange(start, end))
  }

  function NewHighlightSegment(start: int, end: int, score: real): (r: Result<HighlightSegment>)
    ensures r.Ok? <==> start >= 0 && end >= 0 && end > start
    ensures r.Ok? ==> r.value == HighlightSegment(start, end, score) && r.value.Valid()
    ensures r.Err? ==> r.error == IllegalArgument
  {
    if start < 0 || end < 0 || end <= start then Err(IllegalArgument) else Ok(HighlightSegment(start, end, score))
  }

  function NewSubtitleLine(index: int, start: int, end: int, text: string): (r: Result<SubtitleLine>)
    ensures r.Ok? <==> index >= 1 && start >= 0 && end >= 0 && end > start
    ensures r.Ok? ==> r.value == SubtitleLine(index, start, end, text) && r.value.Valid()
    ensures r.Err? ==> r.error == IllegalArgument
  {
    if index < 1 then Err(IllegalArgument)
    else if start < 0 || end < 0 || end <= start then Err(IllegalArgument)
    else Ok(SubtitleLine(index, start, end, text))
  }

  /** Every constructed scene segment has a strictly positive duration. */
  lemma SceneDurationPositive(start: int, end: int)
    requires NewSceneSegment(start, end).Ok?
    ensures NewSceneSegment(start, end).value.Duration() > 0
           && NewSceneSegment(start, end).value.Duration() == end - start
  {
  }

  /** Every constructed silence range has a strictly positive duration; a zero-length candidate is rejected. */
  lemma SilenceDurationPositive(start: int, end: int)
    ensures NewSilenceRange(start, end).Ok? ==> NewSilenceRange(start, end).value.Duration() > 0
    ensures NewSilenceRange(start, start).Err?
  {
  }

  /** The highlight score is carried through unchecked: any real is accepted for a valid interval. */
  lemma HighlightScoreUnchecked(start: int, end: int, score: real)
    requires 0 <= start < end
    ensures NewHighlightSegment(start, end, score) == Ok(HighlightSegment(start, end, score))
  {
  }

  /** The subtitle text is not validated: the empty text is accepted. */
  lemma SubtitleTextUnchecked(index: int, start: int, end: int)
    requires index >= 1 && 0 <= start < end
    ensures NewSubtitleLine(index, start, end, "").Ok?
  {
  }
}
