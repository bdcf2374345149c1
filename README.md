# Montage core, modelled in Dafny

Montage is a desktop video editor. This project models the sequential logic at its core:

- **AI content analysis** (`app.ai`):
  - scene segmentation with short-segment merging;
  - silence detection, a two-state machine over sample windows;
  - highlight scoring: interval overlap, keyword-line counting, a clamped weighted sum and a stable descending sort;
  - auto-reframe geometry: target size, region blending, fallback box and crop clamping.
- **The analysis value types and their configuration validators.**
- **Subtitle serialisation**: SRT, and WebVTT following the file structure of section 4.1 of the W3C WebVTT specification.
- **The timeline editing model** (`app.timeline`):
  - mutable clips held by reference in tracks;
  - the add, split, trim and ripple-delete commands with their undo;
  - the undo/redo command stack, nearest-anchor snapping, the `TimelineService` facade and the non-UI `TimelineController`.
- **The render side**: Kahn's topological ordering of render tasks (`RenderDag`), render jobs and the progress reporter.
- **The media value types**: export requests and effect parameters, plus the domain `Track`.

Conventions:

- Durations are whole milliseconds (`int`) and UUIDs are `nat` ids.
- Doubles are `real`:
  - Java `Math.round` is `floor(x + 0.5)`;
  - `(int)` and `(long)` casts truncate toward zero;
  - both are written out in `JavaNum`.
- A Java exception becomes an `Err` of a `Result`, or a `false` success flag on a state-changing method.
- A Java `null` becomes `None` only where the model keeps the null case:
  - the `Duration` arguments of the detection config constructors;
  - the input and output of `AutoReframeService.reframe`;
  - the optional scenes, silences, subtitles and keywords of `HighlightScorer.score`, and the frame the grabber returns at a timestamp;
  - the clip passed to the domain `Track.addClip`;
  - the LUT path and title text of `EffectParameters`;
  - the line list of `SubtitleFormatter.toSrt` and `toVtt`;
  - every argument of the `RenderJob` constructor, a null metadata map becoming the empty map;
  - the input, output and preset of `MediaExportRequest`, and its optional target width, height and frame rate;
  - the clip, start and duration passed to the `TrimClipCommand` constructor (`TimelineCommands.TrimClipCommand.Create`), and the start and duration the command saves, which are null until its first execute.
- Elsewhere arguments are plain Dafny values and non-null references, so a `requireNonNull` rejection cannot occur there. "## Left out" lists those places.
- Objects the source mutates in place are Dafny classes with `modifies` and `reads` frames:
  - clips, tracks, the timeline, the commands, the command stack, the service, the controller, the render DAG, the progress reporter and the domain track.
- Loops are `while`/`for` loops, proved against specification functions whose properties are proved as lemmas.
- Decoding and pixel or sample numerics come from native libraries. Their results are taken as inputs:
  - the scene detector gets the decoded frames with their timestamps and a feature distance function;
  - silence detection gets the sample buffers and an RMS function;
  - highlight scoring gets the frame grabbed at a timestamp and a frame difference function;
  - auto-reframe gets each picture's own size and edge bounding box.

`SceneDetectionConfig` and `SilenceDetectionConfig` accept zero and negative minimum lengths: their constructors only check that the length is present (app-ai/src/main/java/app/ai/config/SceneDetectionConfig.java:15, app-ai/src/main/java/app/ai/config/SilenceDetectionConfig.java:15). The algorithms are modelled for every value the constructors accept.

## Model

| member | source | states |
|---|---|---|
| AiValues.NewSceneSegment | app-ai/src/main/java/app/ai/scene/SceneSegment.java:6-10 | a segment is built exactly when both bounds are non-negative and the end is after the start; otherwise an illegal-argument error |
| AiValues.NewSilenceRange | app-ai/src/main/java/app/ai/audio/SilenceRange.java:6-10 | the same boundary check for a silence range, with the bounds kept as given |
| AiValues.NewHighlightSegment | app-ai/src/main/java/app/ai/highlight/HighlightSegment.java:6-10 | the same boundary check for a highlight; the score is kept as given |
| AiValues.NewSubtitleLine | app-ai/src/main/java/app/ai/subtitles/SubtitleLine.java:6-13 | a line is built exactly when the index is at least 1 and the timing is a valid interval; otherwise an illegal-argument error |
| AiValues.SceneDurationPositive | app-ai/src/main/java/app/ai/scene/SceneSegment.java:12-14 | every constructed scene's duration is end minus start and strictly positive |
| AiValues.SilenceDurationPositive | app-ai/src/main/java/app/ai/audio/SilenceRange.java:6-14 | every constructed silence range has a positive duration; a zero-length range is rejected |
| AiValues.HighlightScoreUnchecked | app-ai/src/main/java/app/ai/highlight/HighlightSegment.java:5-10 | every real score is accepted for a valid interval |
| AiValues.SubtitleTextUnchecked | app-ai/src/main/java/app/ai/subtitles/SubtitleLine.java:5-13 | the text is not validated: an empty text is accepted |
| AiConfig.NewSceneDetectionConfig | app-ai/src/main/java/app/ai/config/SceneDetectionConfig.java:10-16 | a non-positive threshold is an illegal argument; a missing minimum length is a null argument; otherwise both values are kept |
| AiConfig.DefaultSceneDetectionConfig | app-ai/src/main/java/app/ai/config/SceneDetectionConfig.java:18-20 | the default passes the constructor's checks with threshold 35 and a 1000 ms minimum |
| AiConfig.NewSilenceDetectionConfig | app-ai/src/main/java/app/ai/config/SilenceDetectionConfig.java:10-16 | a non-positive RMS threshold is an illegal argument; a missing minimum silence is a null argument; otherwise both values are kept |
| AiConfig.DefaultSilenceDetectionConfig | app-ai/src/main/java/app/ai/config/SilenceDetectionConfig.java:18-20 | the default passes the checks with RMS threshold 0.02 and a 500 ms minimum |
| AiConfig.NewHighlightConfig | app-ai/src/main/java/app/ai/config/HighlightConfig.java:8-15 | accepted exactly when no weight is negative and the target duration is positive |
| AiConfig.DefaultHighlightConfig | app-ai/src/main/java/app/ai/config/HighlightConfig.java:17-19 | the default weights 0.35, 0.25, 0.25 and 0.15 pass the checks and add up to 1 |
| AiConfig.NewReframeConfig | app-ai/src/main/java/app/ai/config/ReframeConfig.java:6-10 | accepted exactly when both aspect components are positive; the GPU flag is kept as given |
| AiConfig.Vertical9x16 | app-ai/src/main/java/app/ai/config/ReframeConfig.java:12-14 | the 9:16 preset is valid, with aspect 9/16 |
| AiConfig.Square | app-ai/src/main/java/app/ai/config/ReframeConfig.java:16-18 | the square preset is valid, with aspect 1 |
| AiConfig.DefaultWeightedSumAtMostOne | app-ai/src/main/java/app/ai/highlight/HighlightScorer.java:59-64 | with the default weights and every signal in [0, 1], the weighted sum is in [0, 1], so the scorer's clamp never changes it |
| AiConfig.SceneConfigAcceptsNonPositiveMinimum | app-ai/src/main/java/app/ai/config/SceneDetectionConfig.java:10-16 | a zero or negative minimum scene length passes validation |
| AiConfig.SilenceConfigAcceptsNonPositiveMinimum | app-ai/src/main/java/app/ai/config/SilenceDetectionConfig.java:10-16 | a zero or negative minimum silence passes validation |
| JavaNum.Round | app-ai/src/main/java/app/ai/reframe/AutoReframeService.java:116-119 | `Math.round` gives the integer nearest the argument, a half rounding up |
| JavaNum.Trunc | app-ai/src/main/java/app/ai/scene/SceneDetectionService.java:49 | an `(int)`/`(long)` cast truncates toward zero on both signs |
| JavaNum.LowerChar | app-ai/src/main/java/app/ai/highlight/HighlightScorer.java:45-47 | an upper-case ASCII letter maps to its lower-case letter; every other character is kept |
| JavaNum.Lower | app-ai/src/main/java/app/ai/highlight/HighlightScorer.java:45-47 | lower-casing keeps the length and maps each character on its own |
| JavaNum.AtMostOne | app-ai/src/main/java/app/ai/highlight/HighlightScorer.java:140 | `Math.min(1.0, q)` is at most 1 and at most `q`, and it is one of the two |
| StableSort.SortProperties | app-core/src/main/java/app/timeline/TimelineTrack.java:34-37 | sorting by a key gives a permutation of the input, ordered by the key |
| StableSort.SortStable | app-core/src/main/java/app/timeline/TimelineTrack.java:34-37 | the sort is stable: for each key the output holds exactly the input's elements with that key, in input order |
| StableSort.SortOfSorted | app-core/src/main/java/app/timeline/TimelineTrack.java:39-42 | sorting a list that is already ordered leaves it as it is |
| StableSort.SortAfterSort | app-core/src/main/java/app/timeline/TimelineTrack.java:39-42 | sorting a sorted prefix together with more elements gives the same list as sorting it all at once |
| StableSort.SortedUnique | app-core/src/main/java/app/timeline/TimelineTrack.java:34-37 | two ordered lists that agree on each key's elements, in order, are equal |
| StableSort.SortedSameHead | app-core/src/main/java/app/timeline/TimelineTrack.java:34-37 | two non-empty ordered lists that agree on each key's elements start with the same element |
| TimelineModel.TimelineClip.constructor | app-core/src/main/java/app/timeline/TimelineClip.java:22-31 | once the duration check passes, a new clip has the given id, source, start and duration, rate 1, gain 0 dB and no transitions |
| TimelineModel.TimelineClip.Create | app-core/src/main/java/app/timeline/TimelineClip.java:22-31 | a non-positive duration is an illegal argument; otherwise a fresh valid clip with the initial settings |
| TimelineModel.TimelineClip.End | app-core/src/main/java/app/timeline/TimelineClip.java:60-62 | the end is start plus duration, so a valid clip ends after it starts |
| TimelineModel.TimelineClip.SetStart | app-core/src/main/java/app/timeline/TimelineClip.java:45-47 | any start is accepted, negative ones included, and nothing else changes |
| TimelineModel.TimelineClip.SetDuration | app-core/src/main/java/app/timeline/TimelineClip.java:53-58 | accepted exactly when positive; a rejected duration leaves the clip unchanged |
| TimelineModel.TimelineClip.SetPlaybackRate | app-core/src/main/java/app/timeline/TimelineClip.java:68-73 | accepted exactly when positive; a rejected rate leaves the clip unchanged |
| TimelineModel.TimelineClip.SetAudioGainDb | app-core/src/main/java/app/timeline/TimelineClip.java:79-81 | any gain is accepted and only the gain changes |
| TimelineModel.TimelineClip.SetTransitionIn | app-core/src/main/java/app/timeline/TimelineClip.java:87-89 | only the incoming transition changes |
| TimelineModel.TimelineClip.SetTransitionOut | app-core/src/main/java/app/timeline/TimelineClip.java:95-97 | only the outgoing transition changes |
| TimelineModel.ByStartProperties | app-core/src/main/java/app/timeline/TimelineTrack.java:34-37 | ordering by start is a permutation, leaves the starts non-decreasing, keeps the insertion order of clips with equal starts, and is idempotent |
| TimelineModel.ByStartPermutes | app-core/src/main/java/app/timeline/TimelineTrack.java:34-37 | ordering by start keeps exactly the clips it was given, with their multiplicities |
| TimelineModel.ByStartSameClips | app-core/src/main/java/app/timeline/TimelineTrack.java:34-37 | the ordered list holds the same clips as the unordered one |
| TimelineModel.ByStartTwice | app-core/src/main/java/app/timeline/TimelineTrack.java:34-37 | ordering an ordered list again changes nothing, so repeated `getClips` calls agree |
| TimelineModel.ByStartKeepsStarts | app-core/src/main/java/app/timeline/TimelineTrack.java:34-37 | the order depends only on the starts: changing other clip settings keeps it |
| TimelineModel.ByStartAfterByStart | app-core/src/main/java/app/timeline/TimelineTrack.java:39-42 | ordering before appending more clips does not change where the next ordering puts them |
| TimelineModel.OrderAfterByStart | app-core/src/main/java/app/timeline/TimelineTrack.java:39-42 | the same, stated on start-keyed pairs |
| TimelineModel.RemoveFirst | app-core/src/main/java/app/timeline/TimelineTrack.java:44-46 | removal drops the first occurrence of the clip, if any, and one copy of it from the multiset |
| TimelineModel.MaxEnd | app-core/src/main/java/app/timeline/TimelineTrack.java:48-50 | the track length is 0 for no clips, and otherwise the end of some clip and no smaller than any clip's end; `TimelineModel.TimelineTrack.Duration` (`getDuration`) is this function of the track's clips |
| TimelineModel.FirstCovering | app-core/src/main/java/app/timeline/TimelineTrack.java:52-58 | `clipAt` gives nothing exactly when no clip covers the position, and otherwise the first covering clip in list order; `TimelineModel.TimelineTrack.ClipAt` is this function of the track's clips |
| TimelineModel.TimelineTrack.constructor | app-core/src/main/java/app/timeline/TimelineTrack.java:21-24 | a new track has the given id and type and no clips |
| TimelineModel.TimelineTrack.GetClips | app-core/src/main/java/app/timeline/TimelineTrack.java:34-37 | the list is ordered by start in place, returned, and holds the clips it held before |
| TimelineModel.TimelineTrack.AddClip | app-core/src/main/java/app/timeline/TimelineTrack.java:39-42 | the clip is appended and the list is ordered by start |
| TimelineModel.TimelineTrack.RemoveClip | app-core/src/main/java/app/timeline/TimelineTrack.java:44-46 | the first occurrence of that clip object is removed; an absent clip changes nothing |
| TimelineModel.AddThenRemove | app-core/src/main/java/app/timeline/AddClipCommand.java:18-25 | adding a clip and removing it again leaves the clips the track had |
| TimelineModel.AddPlacesClip | app-core/src/main/java/app/timeline/TimelineTrack.java:39-42 | an added clip is in the track once, after the clips with the same start |
| TimelineModel.Timeline.constructor | app-core/src/main/java/app/timeline/Timeline.java:11-23 | a new timeline has no tracks, the playhead at 0 and zoom 1 |
| TimelineModel.Timeline.AddTrack | app-core/src/main/java/app/timeline/Timeline.java:33-35 | the track is appended and nothing else changes |
| TimelineModel.Timeline.FindTrack | app-core/src/main/java/app/timeline/Timeline.java:37-39 | nothing exactly when no track has the id, and otherwise the first track with it |
| TimelineModel.FirstWithId | app-core/src/main/java/app/timeline/Timeline.java:37-39 | the same search, stated on a list of tracks |
| TimelineModel.Timeline.SetPlayhead | app-core/src/main/java/app/timeline/Timeline.java:45-50 | accepted exactly when not negative; a rejected position leaves the playhead, and each call leaves the tracks and zoom, unchanged |
| TimelineModel.Timeline.SetZoom | app-core/src/main/java/app/timeline/Timeline.java:56-61 | accepted exactly when in (0.05, 10]; a rejected zoom is not stored |
| TimelineCommands.AddClipCommand.constructor | app-core/src/main/java/app/timeline/AddClipCommand.java:11-15 | the command keeps the timeline, the track id and the clip |
| TimelineCommands.AddClipCommand.Execute | app-core/src/main/java/app/timeline/AddClipCommand.java:18-20 | the clip is added to the first track with the id, which is then ordered by start; an unknown id and every other track are left unchanged |
| TimelineCommands.AddClipCommand.Undo | app-core/src/main/java/app/timeline/AddClipCommand.java:23-25 | the first occurrence of that clip is removed from the first track with the id; nothing else changes |
| TimelineCommands.SplitClipCommand.constructor | app-core/src/main/java/app/timeline/SplitClipCommand.java:14-19 | the command keeps its arguments and has no right clip yet |
| TimelineCommands.SplitClipCommand.Execute | app-core/src/main/java/app/timeline/SplitClipCommand.java:21-39 | a split point outside the clip changes nothing; one at the start fails before any change; otherwise the original keeps the left part and a fresh right clip from the split point, with the rest of the duration, the rate, the gain and the outgoing transition on both sides, joins the track in start order |
| TimelineCommands.SplitClipCommand.RightPart | app-core/src/main/java/app/timeline/SplitClipCommand.java:32-36 | the right clip is fresh, takes the original's source, rate and gain, and takes the original's outgoing transition as both its transitions |
| TimelineCommands.SplitClipCommand.Undo | app-core/src/main/java/app/timeline/SplitClipCommand.java:41-50 | with no split done nothing changes; otherwise the original gets the merged duration, the right clip is removed from the track and forgotten |
| TimelineCommands.TrimClipCommand.constructor | app-core/src/main/java/app/timeline/TrimClipCommand.java:13-17 | the command keeps the clip, start and duration and has saved nothing yet |
| TimelineCommands.TrimClipCommand.Create | app-core/src/main/java/app/timeline/TrimClipCommand.java:13-17 | a missing clip, start or duration is a null argument; otherwise a fresh command with those values |
| TimelineCommands.TrimClipCommand.Execute | app-core/src/main/java/app/timeline/TrimClipCommand.java:20-25 | the old start and duration are saved and the new start is set; the new duration is set exactly when it is positive, otherwise the call fails with the start already changed |
| TimelineCommands.TrimClipCommand.Undo | app-core/src/main/java/app/timeline/TrimClipCommand.java:28-31 | the saved start and duration are restored; before any execution the call fails and changes nothing |
| TimelineCommands.Shift | app-core/src/main/java/app/timeline/RippleDeleteCommand.java:30-35 | the ripple loop, clip by clip in list order, keeps one start for every clip it was given |
| TimelineCommands.ShiftStep | app-core/src/main/java/app/timeline/RippleDeleteCommand.java:30-35 | one turn of the loop: a clip whose start is at or after the end moves left by the gap and is recorded with its old start; any other clip is left as it is |
| TimelineCommands.ShiftDistinct | app-core/src/main/java/app/timeline/RippleDeleteCommand.java:27-37 | on a list without repeats, exactly the clips starting at or after the end move, each by the gap, and each is recorded once with its start before the move |
| TimelineCommands.RippleShiftProperties | app-core/src/main/java/app/timeline/RippleDeleteCommand.java:27-37 | a ripple delete over [start, end) leaves clips starting before the end in place and unrecorded, and moves every other clip to a start no earlier than the start, recording the start undo restores |
| TimelineCommands.RippleDeleteCommand.constructor | app-core/src/main/java/app/timeline/RippleDeleteCommand.java:16-24 | once the order check passes, the command keeps its arguments with an empty record |
| TimelineCommands.RippleDeleteCommand.Create | app-core/src/main/java/app/timeline/RippleDeleteCommand.java:16-24 | an end that is not after the start is an illegal argument; otherwise a fresh command with an empty record |
| TimelineCommands.RippleDeleteCommand.Execute | app-core/src/main/java/app/timeline/RippleDeleteCommand.java:27-37 | the target track is ordered by start and its clips are shifted as the shift function says; an unknown track id and every other track are left unchanged |
| TimelineCommands.RippleDeleteCommand.RippleTrack | app-core/src/main/java/app/timeline/RippleDeleteCommand.java:29-36 | on the found track: the clips are ordered by start, then shifted and recorded as the shift function says |
| TimelineCommands.RippleDeleteCommand.ShiftClips | app-core/src/main/java/app/timeline/RippleDeleteCommand.java:30-35 | the loop leaves every clip with the start the shift function gives and appends the shift's record |
| TimelineCommands.RippleDeleteCommand.ShiftAt | app-core/src/main/java/app/timeline/RippleDeleteCommand.java:31-34 | one turn of the loop keeps the loop invariant |
| TimelineCommands.RippleDeleteCommand.Undo | app-core/src/main/java/app/timeline/RippleDeleteCommand.java:40-43 | every recorded clip gets back the start recorded last for it, and the record is emptied |
| CommandHistory.ExecuteCommand | app-core/src/main/java/app/timeline/CommandStack.java:10-11 | running a command does what that command's own execute promises |
| CommandHistory.UndoCommand | app-core/src/main/java/app/timeline/CommandStack.java:28-29 | undoing a command does what that command's own undo promises |
| CommandHistory.StackNotTouched | app-core/src/main/java/app/timeline/CommandStack.java:7-8 | the stacks are not among the objects any command changes, so running a command leaves them alone |
| CommandHistory.CommandStack.constructor | app-core/src/main/java/app/timeline/CommandStack.java:7-8 | a new history has empty undo and redo stacks |
| CommandHistory.CommandStack.Push | app-core/src/main/java/app/timeline/CommandStack.java:10-14 | the command runs; once it succeeds it becomes the newest undo entry and the redo stack is emptied; a failed command leaves both stacks as they were |
| CommandHistory.CommandStack.CanUndo | app-core/src/main/java/app/timeline/CommandStack.java:16-18 | true exactly when the undo stack is not empty |
| CommandHistory.CommandStack.CanRedo | app-core/src/main/java/app/timeline/CommandStack.java:20-22 | true exactly when the redo stack is not empty |
| CommandHistory.CommandStack.Undo | app-core/src/main/java/app/timeline/CommandStack.java:24-31 | with nothing to undo nothing changes; otherwise the newest command is undone and popped, and once its undo succeeds it becomes the newest redo entry |
| CommandHistory.CommandStack.Redo | app-core/src/main/java/app/timeline/CommandStack.java:33-40 | with nothing to redo nothing changes; otherwise the newest undone command runs again and is popped, and once it succeeds it becomes the newest undo entry |
| CommandHistory.CommandStack.Clear | app-core/src/main/java/app/timeline/CommandStack.java:42-45 | both stacks are emptied |
| Snapping.SnapStateLeast | app-core/src/main/java/app/timeline/SnapEngine.java:23-32 | the distance the loop keeps never exceeds threshold + 1 or any anchor's distance, and while it is threshold + 1 the result is still the target |
| Snapping.SnapStateFirst | app-core/src/main/java/app/timeline/SnapEngine.java:25-31 | a kept distance below threshold + 1 belongs to the first anchor at that distance |
| Snapping.SnapProperties | app-core/src/main/java/app/timeline/SnapEngine.java:19-33 | with no anchor within the threshold the target is returned; otherwise the first anchor, in list order, among those nearest the target, which is within the threshold; the result is always the target or an anchor |
| Snapping.SnapWithin | app-core/src/main/java/app/timeline/SnapEngine.java:19-33 | with a non-negative threshold, snapping moves a target by at most the threshold |
| Snapping.SnapExample | app-core/src/test/java/app/timeline/TimelineServiceTest.java:72-77 | with anchors at 5 s and 7 s and a 100 ms threshold, 5.05 s snaps to 5 s |
| Snapping.SnapEngine.Create | app-core/src/main/java/app/timeline/SnapEngine.java:12-17 | a negative threshold is an illegal argument; otherwise an engine with that threshold |
| Snapping.SnapEngine.Snap | app-core/src/main/java/app/timeline/SnapEngine.java:19-33 | the loop over a copy of the anchors returns what the snapping function states |
| TimelineServices.ClipAnchors | app-core/src/main/java/app/timeline/TimelineService.java:63-66 | each clip contributes two anchors |
| TimelineServices.ClipAnchorsMembers | app-core/src/main/java/app/timeline/TimelineService.java:63-66 | the anchors of a clip list are exactly the starts and ends of its clips |
| TimelineServices.TrackAnchorsMembers | app-core/src/main/java/app/timeline/TimelineService.java:61-67 | the anchors of the tracks are exactly the starts and ends of their clips |
| TimelineServices.FirstWithClipId | app-core/src/main/java/app/timeline/TimelineService.java:43-45 | nothing exactly when no clip has the id, and otherwise the first clip with it |
| TimelineServices.TimelineService.constructor | app-core/src/main/java/app/timeline/TimelineService.java:16-20 | the service keeps the timeline and the engine over a fresh, empty command history |
| TimelineServices.TimelineService.Create | app-core/src/main/java/app/timeline/TimelineService.java:16-20 | a negative snap threshold is an illegal argument; otherwise a service with that threshold and an empty history |
| TimelineServices.TimelineService.AddTrack | app-core/src/main/java/app/timeline/TimelineService.java:30-34 | a fresh empty track of the given type is appended to the timeline and returned |
| TimelineServices.TimelineService.AddAnchors | app-core/src/main/java/app/timeline/TimelineService.java:63-66 | the inner loop appends the start and then the end of each clip |
| TimelineServices.TimelineService.ListTrack | app-core/src/main/java/app/timeline/TimelineService.java:62-67 | one turn of the outer loop orders the track and appends the anchors of its ordered clips |
| TimelineServices.TimelineService.ListAnchors | app-core/src/main/java/app/timeline/TimelineService.java:61-67 | every track is ordered by start in place and the anchors of all tracks are collected in timeline order |
| TimelineServices.TimelineService.Snap | app-core/src/main/java/app/timeline/TimelineService.java:60-69 | the result is the engine's snap of the target over those anchors |
| TimelineServices.TimelineService.PushAdd | app-core/src/main/java/app/timeline/TimelineService.java:39 | the add command is pushed and run: the clip joins the first track with the id in start order, it is the newest undo entry and the redo stack is emptied |
| TimelineServices.TimelineService.PushAddCommand | app-core/src/main/java/app/timeline/TimelineService.java:39 | the same push, with the order stated on the clips as they were before it |
| TimelineServices.TimelineService.AddClip | app-core/src/main/java/app/timeline/TimelineService.java:36-40 | succeeds exactly when the duration is positive; then a fresh clip at the snapped start, with the initial settings, joins the track in start order and its add command is the newest undo entry; a failure leaves the history as it was |
| TimelineServices.TimelineService.FindClip | app-core/src/main/java/app/timeline/TimelineService.java:43-45 | the first clip with the id on the first track with the track id, read off that track once ordered; only that track is ordered |
| TimelineServices.TimelineService.PushSplit | app-core/src/main/java/app/timeline/TimelineService.java:46 | the split command is pushed and run; it fails exactly when the split point is the clip's start, and otherwise does what the split command promises |
| TimelineServices.TimelineService.SplitClip | app-core/src/main/java/app/timeline/TimelineService.java:42-47 | a clip that is not found changes nothing but the track's order; a found clip is split as the split command promises, failing exactly at its start |
| TimelineServices.TimelineService.PushTrim | app-core/src/main/java/app/timeline/TimelineService.java:53 | the trim command is pushed and run: the new start is set, the new duration too exactly when it is positive, and only a successful trim is recorded |
| TimelineServices.TimelineService.TrimClip | app-core/src/main/java/app/timeline/TimelineService.java:49-54 | a clip that is not found changes nothing but the track's order; a found clip is trimmed as the trim command promises |
| TimelineServices.TimelineService.PushRipple | app-core/src/main/java/app/timeline/TimelineService.java:57 | the ripple command is pushed and run, against a snapshot of the state before it |
| TimelineServices.TimelineService.RippleDelete | app-core/src/main/java/app/timeline/TimelineService.java:56-58 | succeeds exactly when the end is after the start; then the first track with the id is ordered, the clips at or after the end move left by the gap, which is recorded for undo, and every other track is unchanged; a failure changes nothing |
| TimelineScenarios.SetUp | app-core/src/test/java/app/timeline/TimelineServiceTest.java:18-23 | a fresh timeline, a service with a 100 ms threshold and one empty video track |
| TimelineScenarios.SetUpWithClip | app-core/src/test/java/app/timeline/TimelineServiceTest.java:18-27 | after adding one clip with nothing to snap to, the track holds exactly that clip, at the start asked for, and one add command |
| TimelineScenarios.AddClipScenario | app-core/src/test/java/app/timeline/TimelineServiceTest.java:25-30 | adding a 3 s clip at 1 s gives one clip, starting at 1 s |
| TimelineScenarios.UndoAdd | app-core/src/test/java/app/timeline/TimelineServiceTest.java:62-67 | undoing the add leaves the track empty |
| TimelineScenarios.RedoAdd | app-core/src/test/java/app/timeline/TimelineServiceTest.java:68-69 | redoing it puts the one clip back |
| TimelineScenarios.UndoRedoScenario | app-core/src/test/java/app/timeline/TimelineServiceTest.java:62-70 | after an add there is something to undo; undo leaves no clips, redo leaves one |
| TimelineScenarios.TrimScenario | app-core/src/test/java/app/timeline/TimelineServiceTest.java:41-48 | trimming a 10 s clip to start 2 s and last 5 s gives exactly that start and duration |
| TimelineScenarios.SplitScenario | app-core/src/test/java/app/timeline/TimelineServiceTest.java:32-39 | splitting a 10 s clip at 4 s gives two clips, of 4 s and 6 s |
| TimelineScenarios.AddSecond | app-core/src/test/java/app/timeline/TimelineServiceTest.java:53 | a second 5 s clip asked at 6 s stays at 6 s: the nearest anchor, 5 s, is beyond the threshold |
| TimelineScenarios.DeleteGap | app-core/src/test/java/app/timeline/TimelineServiceTest.java:56-57 | ripple deleting 2 s to 4 s moves the second clip from 6 s to 4 s and records its old start |
| TimelineScenarios.UndoDelete | app-core/src/test/java/app/timeline/TimelineServiceTest.java:58-59 | undoing the ripple delete puts the second clip back at 6 s |
| TimelineScenarios.RippleScenario | app-core/src/test/java/app/timeline/TimelineServiceTest.java:50-60 | the second clip starts at 6 s, at 4 s after the ripple delete and at 6 s again after undo |
| TimelineScenarios.SnapScenario | app-core/src/test/java/app/timeline/TimelineServiceTest.java:72-77 | with a clip from 5 s to 7 s, 5.05 s snaps to 5 s |
| TimelineScenarios.AddTrackScenario | app-core/src/test/java/app/timeline/TimelineServiceTest.java:79-84 | adding an audio track registers it on the timeline, next to the video track |
| TimelineControl.ClampPixels | app-ui/src/main/java/app/ui/timeline/TimelineController.java:70-77 | the zoom level is forced into [20, 400]: values inside are kept, values below become 20 and values above become 400 |
| TimelineControl.LocatedWhenListed | app-ui/src/main/java/app/ui/timeline/TimelineController.java:183-186 | a clip that is on the track is always found by its id |
| TimelineControl.TimelineController.constructor | app-ui/src/main/java/app/ui/timeline/TimelineController.java:30-36 | a new timeline with a video and then an audio track behind a service with the 100 ms default threshold, snapping on, 120 pixels per second and an empty history |
| TimelineControl.TimelineController.SetPixelsPerSecond | app-ui/src/main/java/app/ui/timeline/TimelineController.java:70-79 | the level becomes the clamped value and snapping is unchanged |
| TimelineControl.TimelineController.ZoomByFactor | app-ui/src/main/java/app/ui/timeline/TimelineController.java:81-83 | the level becomes the clamp of the current level times the factor |
| TimelineControl.TimelineController.ToggleSnapping | app-ui/src/main/java/app/ui/timeline/TimelineController.java:85-87 | snapping flips and the zoom level is unchanged |
| TimelineControl.TimelineController.Snap | app-ui/src/main/java/app/ui/timeline/TimelineController.java:93-98 | with snapping off the target comes back and no track changes; with it on the service's snap result comes back; either way the result is within 100 ms of the target |
| TimelineControl.TimelineController.MovePlayhead | app-ui/src/main/java/app/ui/timeline/TimelineController.java:100-103 | the playhead goes to the position, or to 0 for a negative one, and the tracks and zoom are unchanged |
| TimelineControl.TimelineController.MovePlayheadBySeconds | app-ui/src/main/java/app/ui/timeline/TimelineController.java:105-111 | the playhead moves by the seconds cast to whole milliseconds by truncation, and stops at 0 |
| TimelineControl.TimelineController.SplitAtPlayhead | app-ui/src/main/java/app/ui/timeline/TimelineController.java:113-120 | with no clip covering the playhead nothing changes; otherwise that clip, found again by id, is split at the playhead through the service, failing exactly when the playhead is at its start |
| TimelineControl.TimelineController.AdjustPlaybackRate | app-ui/src/main/java/app/ui/timeline/TimelineController.java:122-124 | the found clip takes the rate exactly when it is positive; otherwise the call fails and the clip keeps its settings |
| TimelineControl.TimelineController.AdjustAudioGain | app-ui/src/main/java/app/ui/timeline/TimelineController.java:126-128 | the found clip takes any gain and nothing else of it changes |
| TimelineControl.TimelineController.SetTransitions | app-ui/src/main/java/app/ui/timeline/TimelineController.java:130-135 | the found clip takes both transitions and nothing else of it changes |
| TimelineControl.TimelineController.RippleDelete | app-ui/src/main/java/app/ui/timeline/TimelineController.java:137-140 | a ripple delete on the video track through the service: it succeeds exactly when the end is after the start, and then it is the newest undo entry |
| TimelineControl.TimelineController.ImportMedia | app-ui/src/main/java/app/ui/timeline/TimelineController.java:142-149 | file k, in list order, becomes a 5 s clip on the video track within 100 ms of the playhead plus 5k seconds; one add command per file is pushed, the last file's on top, and the redo stack is emptied unless there were no files; afterwards the video track holds its earlier clips and the imported ones in start order, every other track its earlier clips in start order, and no track changes when there are no files |
| TimelineControl.TimelineController.ImportStep | app-ui/src/main/java/app/ui/timeline/TimelineController.java:144-147 | one pass of the import loop pushes one add command for the current file on top of the earlier ones and keeps the loop's account of the tracks: original clips plus every clip imported so far, in start order |
| TimelineControl.TimelineController.PlaceImported | app-ui/src/main/java/app/ui/timeline/TimelineController.java:145-146 | placing one more clip extends that account by exactly the new clip, which is the newest undo entry |
| TimelineControl.TimelineController.PlaceClip | app-ui/src/main/java/app/ui/timeline/TimelineController.java:145-146 | one file becomes a 5 s clip on the video track within 100 ms of its insertion point, recorded as the newest undo entry with the redo stack emptied; the video track then holds its earlier clips and the new one in start order and every other track its own clips in start order |
| TimelineControl.ImportedTrack | app-core/src/main/java/app/timeline/TimelineTrack.java:34-42 | adding one clip to a track already ordered after earlier imports gives the ordering of the original clips and all imports together; a track that gets nothing stays ordered as it was |
| TimelineControl.TimelineController.Undo | app-ui/src/main/java/app/ui/timeline/TimelineController.java:155-160 | with nothing to undo nothing changes; otherwise the history's undo |
| TimelineControl.TimelineController.Redo | app-ui/src/main/java/app/ui/timeline/TimelineController.java:162-167 | with nothing to redo nothing changes; otherwise the history's redo |
| RenderGraph.TargetsAppend | app-core/src/main/java/app/render/RenderDag.java:21 | recording an edge extends the adjacency list of its dependency, and only that one |
| RenderGraph.CountAppend | app-core/src/main/java/app/render/RenderDag.java:22 | recording an edge raises the count of unfinished dependencies of its task by one, when that dependency is not done |
| RenderGraph.CountSplit | app-core/src/main/java/app/render/RenderDag.java:38-39 | finishing a task removes from each count exactly the edges its adjacency list holds |
| RenderGraph.CountZero | app-core/src/main/java/app/render/RenderDag.java:40-41 | a task's count reaches 0 exactly when all its dependencies are done |
| RenderGraph.FullWhenLong | app-core/src/main/java/app/render/RenderDag.java:45 | a repetition-free order drawn from the registered tasks is complete exactly when it is as long as the task map |
| RenderGraph.EdgeOrder | app-core/src/main/java/app/render/RenderDag.java:35-48 | in an order that puts every edge's dependency first, the positions grow along each edge |
| RenderGraph.NoCycle | app-core/src/main/java/app/render/RenderDag.java:45-48 | an order in which every dependency precedes its task rules out any dependency cycle |
| RenderGraph.CycleOfWalk | app-core/src/main/java/app/render/RenderDag.java:45-47 | a backward walk along dependencies that meets itself again closes a cycle |
| RenderGraph.BlockedOrCycle | app-core/src/main/java/app/render/RenderDag.java:45-47 | when some task can never be released, the graph has an edge from an unregistered task or a dependency cycle |
| RenderGraph.ZeroIndegree | app-core/src/main/java/app/render/RenderDag.java:27-32 | the initial queue holds each task of indegree 0 exactly once, and nothing else |
| RenderGraph.KahnStart | app-core/src/main/java/app/render/RenderDag.java:27-34 | the loop starts with the copied indegrees, nothing popped and the zero-indegree tasks queued |
| RenderGraph.Poll | app-core/src/main/java/app/render/RenderDag.java:36-37 | polling moves the head of the queue, a registered task not yet popped, to the popped tasks |
| RenderGraph.ReleaseOne | app-core/src/main/java/app/render/RenderDag.java:39-42 | releasing one neighbour lowers its count and queues it when the count reaches 0 |
| RenderGraph.ReleaseDone | app-core/src/main/java/app/render/RenderDag.java:38-43 | once every neighbour is released the popped task counts as done |
| RenderGraph.KahnOutcome | app-core/src/main/java/app/render/RenderDag.java:35-48 | when the queue runs dry, the popped tasks are distinct; all tasks were popped exactly when no edge comes from an unregistered task and there is no cycle, and then every dependency precedes its task |
| RenderGraph.RenderDag.constructor | app-core/src/main/java/app/render/RenderDag.java:12-14 | a new graph has no tasks, no adjacency lists, no indegrees and no edges |
| RenderGraph.RenderDag.AddTask | app-core/src/main/java/app/render/RenderDag.java:16-24 | the task is registered under its id, one edge from each dependency to it is recorded in order, and the three maps stay consistent with the edges |
| RenderGraph.RenderDag.Register | app-core/src/main/java/app/render/RenderDag.java:17-19 | the task is stored, with an empty adjacency list and indegree 0 if it is new |
| RenderGraph.RenderDag.AddEdge | app-core/src/main/java/app/render/RenderDag.java:21-22 | one dependency gains an edge to the task, whose indegree rises by one |
| RenderGraph.Release | app-core/src/main/java/app/render/RenderDag.java:38-43 | the inner loop releases every neighbour of the polled task and keeps the loop invariant |
| RenderGraph.ReleaseNeighbor | app-core/src/main/java/app/render/RenderDag.java:39-42 | one turn of the inner loop keeps the loop invariant |
| RenderGraph.RenderDag.Visit | app-core/src/main/java/app/render/RenderDag.java:36-43 | one turn of the outer loop appends the polled task to the order and keeps the invariant, and fewer tasks remain unpopped |
| RenderGraph.RenderDag.TopologicalOrder | app-core/src/main/java/app/render/RenderDag.java:26-49 | the result lists every registered task exactly once, each after all its dependencies; it is an illegal-state error exactly when an edge comes from a task never registered or there is a dependency cycle; the graph is not changed |
| RenderGraph.RenderDag.Conclude | app-core/src/main/java/app/render/RenderDag.java:45-48 | an order shorter than the task map is the cycle error; otherwise it is the result |
| RenderJobs.NewRenderJob | app-core/src/main/java/app/render/RenderJob.java:22-33 | a missing id, project file, output, preset, start or end is a null argument; then an end not after the start is an illegal argument; otherwise a job with those values, where a missing metadata map becomes the empty one |
| Progress.Ratio | app-core/src/main/java/app/render/ProgressReporter.java:22 | the ratio never exceeds 1, is not negative for a non-negative count, is 1 from the total on, and below it is the count over the total |
| Progress.ProgressReporter.constructor | app-core/src/main/java/app/render/ProgressReporter.java:9-10 | a new reporter stands at 0 completed of 1 |
| Progress.ProgressReporter.SetTotal | app-core/src/main/java/app/render/ProgressReporter.java:16-18 | the total becomes the larger of 1 and the argument; the count is unchanged |
| Progress.ProgressReporter.Increment | app-core/src/main/java/app/render/ProgressReporter.java:20-24 | the count grows by the value, the total is unchanged, and the snapshot carries the capped ratio, the new count and the total |
| MediaExport.MediaExportRequest.WidthOrDefault | app-media/src/main/java/app/media/export/MediaExportRequest.java:20-22 | the target width when set, otherwise the argument |
| MediaExport.MediaExportRequest.HeightOrDefault | app-media/src/main/java/app/media/export/MediaExportRequest.java:24-26 | the target height when set, otherwise the argument |
| MediaExport.MediaExportRequest.FrameRateOrDefault | app-media/src/main/java/app/media/export/MediaExportRequest.java:28-30 | the target frame rate only when it is set and positive, otherwise the argument |
| MediaExport.NewMediaExportRequest | app-media/src/main/java/app/media/export/MediaExportRequest.java:14-18 | rejected with a null argument exactly when the input, output or preset is missing; otherwise the request keeps all its values |
| Effects.OutOfRangeMeaning | app-media/src/main/java/app/media/effect/EffectParameters.java:14-25 | a range check fails exactly for an infinity or a finite value outside the bounds; a NaN passes it, as every comparison with NaN is false |
| Effects.NewEffectParameters | app-media/src/main/java/app/media/effect/EffectParameters.java:13-29 | accepted exactly when brightness, contrast and saturation pass the [-1, 1] check, the opacity passes the [0, 1] check and the ducking level is neither NaN nor infinite; each failure is an illegal argument |
| Effects.Identity | app-media/src/main/java/app/media/effect/EffectParameters.java:31-33 | the identity settings have no LUT and no title and pass every check |
| Effects.NaNPassesRangeChecks | app-media/src/main/java/app/media/effect/EffectParameters.java:13-39 | NaN colour settings and opacity are accepted, while a NaN ducking level is rejected |
| DomainTracks.TotalDuration | app-core/src/main/java/app/domain/Track.java:36-38 | the length of no clips is 0, and of clips with non-negative durations is not negative; `DomainTracks.Track.Duration` (`getDuration`) is this function of the track's clips |
| DomainTracks.TotalDurationConcat | app-core/src/main/java/app/domain/Track.java:36-38 | the length of two runs of clips put together is the sum of their lengths |
| DomainTracks.Track.constructor | app-core/src/main/java/app/domain/Track.java:19-22 | a new track has the given id and type and no clips |
| DomainTracks.Track.AddClip | app-core/src/main/java/app/domain/Track.java:40-42 | a present clip is appended at the end, unsorted, and adds its duration to the track's; a null clip is rejected and nothing changes |
| SceneDetection.FrameStep | app-ai/src/main/java/app/ai/scene/SceneDetectionService.java:41 | the sampling stride is at least 1, is 1 for frame rates up to 2, and from 1 fps on is the larger of 1 and half the rate rounded half up |
| SceneDetection.FrameStepExamples | app-ai/src/main/java/app/ai/scene/SceneDetectionService.java:41 | 30 fps samples every 15th frame, 25 fps every 13th (12.5 rounds up) and a rate of 0 every frame |
| SceneDetection.Detect | app-ai/src/main/java/app/ai/scene/SceneDetectionService.java:28-77 | the grabber loop computes exactly the detection function: missing file, cut loop, trailing segment, merge |
| SceneDetection.MergeShortSegments | app-ai/src/main/java/app/ai/scene/SceneDetectionService.java:113-130 | the merge loop computes exactly the merge function whose properties are proved below |
| SceneDetection.RunStopsAtError | app-ai/src/main/java/app/ai/scene/SceneDetectionService.java:53-58 | once a segment construction fails at some frame, no later frame changes the outcome: the exception leaves the loop |
| SceneDetection.RunInvariant | app-ai/src/main/java/app/ai/scene/SceneDetectionService.java:44-62 | the cut loop keeps its closed segments valid, contiguous from 0 to the open segment's start and each at least the minimum long, and has a previous feature exactly when some frame was read |
| SceneDetection.FirstFrameNeverCuts | app-ai/src/main/java/app/ai/scene/SceneDetectionService.java:53-60 | the first frame only records its feature: with no previous feature there is no cut |
| SceneDetection.StepCuts | app-ai/src/main/java/app/ai/scene/SceneDetectionService.java:49-60 | a sampled frame cuts exactly when there is a previous feature, the distance exceeds the threshold and the open segment is at least the minimum long; the cut closes the segment at the frame's time and opens the next one there, or fails as an illegal argument when that segment would be invalid; otherwise only the previous feature changes |
| SceneDetection.SegmentsContiguous | app-ai/src/main/java/app/ai/scene/SceneDetectionService.java:38-71 | before merging there is at least one segment, all valid, contiguous from 0 to the trailing segment's end, which is the stream total (`Total`), and all but the trailing one at least the minimum long |
| SceneDetection.TrailingSegmentCheck | app-ai/src/main/java/app/ai/scene/SceneDetectionService.java:64-71 | the trailing segment fails exactly when the chosen total (stream length, else last timestamp, else start plus minimum) does not lie after the open segment's start |
| SceneDetection.MergeLoopChain | app-ai/src/main/java/app/ai/scene/SceneDetectionService.java:119-128 | the merge loop's invariant: what was emitted, the accumulated segment and the rest stay one contiguous chain of valid segments, and every emitted segment is at least the minimum long |
| SceneDetection.MergeProperties | app-ai/src/main/java/app/ai/scene/SceneDetectionService.java:117-129 | merging a contiguous run of valid segments cannot fail and returns between 1 and n segments with the same first start and last end, still contiguous, all but the last at least the minimum long |
| SceneDetection.MergeEmpty | app-ai/src/main/java/app/ai/scene/SceneDetectionService.java:114-116 | the empty list is returned unchanged |
| SceneDetection.MergeLoopKeeps | app-ai/src/main/java/app/ai/scene/SceneDetectionService.java:119-127 | with a non-positive minimum no accumulated segment is short, so the loop emits every segment as it is |
| SceneDetection.MergeNonPositiveMinimum | app-ai/src/main/java/app/ai/scene/SceneDetectionService.java:113-130 | with a non-positive minimum merging returns valid input unchanged |
| SceneDetection.DetectionProperties | app-ai/src/main/java/app/ai/scene/SceneDetectionService.java:28-76 | a missing file is input-not-found; a successful detection covers [0, end] without gaps with at least one valid segment, ending at the stream total (`Total`), all but the last at least the minimum long; and merging never turns a successful cut phase into a failure |
| SceneDetection.ChainAdvances | app-ai/src/main/java/app/ai/scene/SceneDetectionService.java:117-128 | a contiguous run of valid segments ends after it starts, so merged segments stay valid |
| SilenceDetection.EffectiveRate | app-ai/src/main/java/app/ai/audio/SilenceDetectionService.java:37-40 | the rate is the reported one when positive and 48000 otherwise, so always at least 1 |
| SilenceDetection.WindowSize | app-ai/src/main/java/app/ai/audio/SilenceDetectionService.java:41 | the window is the larger of 1024 samples and a twentieth of the rate (about 50 ms) |
| SilenceDetection.ProcessedMillisMonotone | app-ai/src/main/java/app/ai/audio/SilenceDetectionService.java:56 | the processed time in whole milliseconds is never negative and never decreases as samples are processed |
| SilenceDetection.ChunksCover | app-ai/src/main/java/app/ai/audio/SilenceDetectionService.java:51-54 | a buffer is read in non-empty chunks of at most the window size that together give back the buffer, sample count included |
| SilenceDetection.DetectSilence | app-ai/src/main/java/app/ai/audio/SilenceDetectionService.java:21-86 | the grabber loop computes exactly the detection function |
| SilenceDetection.ReadBuffer | app-ai/src/main/java/app/ai/audio/SilenceDetectionService.java:51-71 | the inner buffer loop steps the state machine once per chunk of the buffer, in order |
| SilenceDetection.ScanAppend | app-ai/src/main/java/app/ai/audio/SilenceDetectionService.java:44-72 | processing two runs of windows is processing the first and then the second from the state the first left, and an error stops everything |
| SilenceDetection.AppendRange | app-ai/src/main/java/app/ai/audio/SilenceDetectionService.java:66-68 | appending a long enough valid range that starts after every earlier one ends keeps the list valid, long enough and disjoint |
| SilenceDetection.StepKeepsInv | app-ai/src/main/java/app/ai/audio/SilenceDetectionService.java:55-70 | one window keeps the state machine's invariant (ranges valid, long enough, in order, disjoint and ending no later than any open silence's start and the processed time) and adds its size to the sample count |
| SilenceDetection.ScanKeepsInv | app-ai/src/main/java/app/ai/audio/SilenceDetectionService.java:44-72 | the invariant holds after any sequence of windows and the sample count grows by their total size |
| SilenceDetection.ScanSucceeds | app-ai/src/main/java/app/ai/audio/SilenceDetectionService.java:59-70 | with a positive minimum no range construction can fail, so the loop never throws |
| SilenceDetection.WindowsCount | app-ai/src/main/java/app/ai/audio/SilenceDetectionService.java:44-57 | the windows of all short-sample frames hold exactly the frames' samples; other frames are skipped |
| SilenceDetection.DetectionProperties | app-ai/src/main/java/app/ai/audio/SilenceDetectionService.java:21-82 | a missing file is input-not-found, a stream without audio channels has no silences, every reported silence is valid, at least the minimum long, in ascending order, pairwise disjoint and ends by the processed time, and with a positive minimum detection succeeds |
| SilenceDetection.QuietKeepsStart | app-ai/src/main/java/app/ai/audio/SilenceDetectionService.java:59-63 | a quiet window during a silence leaves the silence and its start as they are |
| SilenceDetection.LoudCloses | app-ai/src/main/java/app/ai/audio/SilenceDetectionService.java:64-70 | a loud window closes an open silence and emits the range from its start to now exactly when it is at least the minimum long |
| HighlightScoring.SeekStep | app-ai/src/main/java/app/ai/highlight/HighlightScorer.java:78 | the seek step is a fifth of the scene in microseconds but never under 200 ms |
| HighlightScoring.SampleMotion | app-ai/src/main/java/app/ai/highlight/HighlightScorer.java:75-114 | the seek-and-grab loop computes exactly the motion function |
| HighlightScoring.MotionLoopNonNegative | app-ai/src/main/java/app/ai/highlight/HighlightScorer.java:83-106 | with non-negative frame differences the accumulated difference never goes negative |
| HighlightScoring.MotionInUnitRange | app-ai/src/main/java/app/ai/highlight/HighlightScorer.java:110-113 | with non-negative frame differences the motion score lies in [0, 1], and it is 0 when the first grab of a non-empty scene fails |
| HighlightScoring.FaceScore | app-ai/src/main/java/app/ai/highlight/HighlightScorer.java:57 | the placeholder face score is half the motion plus one half, so it lies in [0.5, 1] for a motion in [0, 1] |
| HighlightScoring.Intersection | app-ai/src/main/java/app/ai/highlight/HighlightScorer.java:122-126 | the overlap of a silence with a scene is never negative, is positive exactly when the two non-empty intervals intersect, and is at most either one's length |
| HighlightScoring.SilenceCoverage | app-ai/src/main/java/app/ai/highlight/HighlightScorer.java:116-129 | the overlap loop computes exactly the coverage function |
| HighlightScoring.OverlapBound | app-ai/src/main/java/app/ai/highlight/HighlightScorer.java:120-127 | disjoint valid silences that end by some time cover at most the part of the scene before that time |
| HighlightScoring.CoverageInUnitRange | app-ai/src/main/java/app/ai/highlight/HighlightScorer.java:116-129 | for disjoint valid silences the coverage is a fraction in [0, 1], and 0 for a null or empty list |
| HighlightScoring.Matches | app-ai/src/main/java/app/ai/highlight/HighlightScorer.java:135-139 | the number of overlapping lines that mention a keyword is at most the number of lines |
| HighlightScoring.KeywordSet | app-ai/src/main/java/app/ai/highlight/HighlightScorer.java:45-47 | a null keyword list gives no keywords; otherwise each keyword is lower-cased |
| HighlightScoring.KeywordDensityRange | app-ai/src/main/java/app/ai/highlight/HighlightScorer.java:131-141 | the keyword density lies in [0, 1], is 0 without subtitles or keywords, and saturates at 1 from five matching lines on |
| HighlightScoring.TouchingLinesDoNotCount | app-ai/src/main/java/app/ai/highlight/HighlightScorer.java:143-145 | a line ending exactly at the scene start or starting exactly at its end does not overlap the scene |
| HighlightScoring.ScoredAll | app-ai/src/main/java/app/ai/highlight/HighlightScorer.java:53-65 | there is one highlight per scene, in scene order, each the score of that scene |
| HighlightScoring.Score | app-ai/src/main/java/app/ai/highlight/HighlightScorer.java:33-73 | the scoring method computes exactly the highlight function |
| HighlightScoring.ScoreScene | app-ai/src/main/java/app/ai/highlight/HighlightScorer.java:54-64 | the loop body computes exactly the score of one scene from its four signals |
| HighlightScoring.ScoredIsValid | app-ai/src/main/java/app/ai/highlight/HighlightScorer.java:64 | every highlight keeps its scene's bounds, passes the highlight's own validity check and scores at most 1 |
| HighlightScoring.HighlightsProperties | app-ai/src/main/java/app/ai/highlight/HighlightScorer.java:33-73 | a missing file is input-not-found, null or empty scenes give no highlights, otherwise there is one highlight per scene (a permutation of the per-scene scores) ordered by descending score with ties in scene order and none above 1 |
| HighlightScoring.HighlightsNonNegative | app-ai/src/main/java/app/ai/highlight/HighlightScorer.java:33-73 | with non-negative weights, non-negative frame differences and valid disjoint silences, no highlight scores below 0, so every score is in [0, 1] |
| HighlightScoring.RankedProperties | app-ai/src/main/java/app/ai/highlight/HighlightScorer.java:70-72 | the descending sort is a permutation, ordered by descending score, stable on ties (`Ranked`), and keeps a bound of 1, or of 0 from below, on every score |
| HighlightScoring.WeightedInUnitRange | app-ai/src/main/java/app/ai/highlight/HighlightScorer.java:59-64 | non-negative weights over signals in [0, 1] give a score that is not negative, and the clamp keeps it at most 1 |
| HighlightScoring.ScoreInUnitRange | app-ai/src/main/java/app/ai/highlight/HighlightScorer.java:53-65 | with valid weights, non-negative frame differences and disjoint silences every scene's score lies in [0, 1] |
| HighlightScoring.KeywordExample | app-ai/src/test/java/app/ai/HighlightScorerTest.java:23-29 | in the scorer's test the line over [2 s, 4 s) mentioning "goal" counts for the scene [2 s, 5 s): density 0.2 |
| HighlightScoring.KeywordExampleTouching | app-ai/src/test/java/app/ai/HighlightScorerTest.java:23-29 | the same line only touches the scene [0, 2 s), so it does not count there |
| HighlightScoring.ExampleScorePositive | app-ai/src/test/java/app/ai/HighlightScorerTest.java:29-31 | with the default weights the second scene of the test scores above 0 whatever the motion |
| AutoReframe.TargetSize | app-ai/src/main/java/app/ai/reframe/AutoReframeService.java:43-50 | the output size never exceeds the source's; a source wider than the target aspect keeps its height and rounds the width from the aspect, otherwise it keeps its width and rounds the height; a source with a zero side gives 0 by 0 |
| AutoReframe.TargetSizeExample | app-ai/src/main/java/app/ai/reframe/AutoReframeService.java:43-50 | a 1920 by 1080 source reframed to 9:16 records at 608 by 1080 |
| AutoReframe.BlendComponent | app-ai/src/main/java/app/ai/reframe/AutoReframeService.java:116-119 | a blended component lies between the previous and the detected value and stays put when they agree |
| AutoReframe.BlendRoi | app-ai/src/main/java/app/ai/reframe/AutoReframeService.java:115-121 | every blended coordinate and side lies between the previous and the detected one; blending a region with itself keeps it |
| AutoReframe.FallbackRoi | app-ai/src/main/java/app/ai/reframe/AutoReframeService.java:95-101 | without edges the region is centred, 60% of the picture's width (truncated) and, where it fits, that width over the aspect high, and always lies inside the picture |
| AutoReframe.InitialRoi | app-ai/src/main/java/app/ai/reframe/AutoReframeService.java:91-103 | the first region is the edges' bounding box, or the fallback inside the picture when there are no edges |
| AutoReframe.DetectSubject | app-ai/src/main/java/app/ai/reframe/AutoReframeService.java:105-113 | a later picture's subject is the edges' bounding box, or the previous region when there are no edges |
| AutoReframe.NoEdgesKeepsRoi | app-ai/src/main/java/app/ai/reframe/AutoReframeService.java:73 | a picture without edges leaves an established region where it was |
| AutoReframe.Scale | app-ai/src/main/java/app/ai/reframe/AutoReframeService.java:134-136 | the crop scale is the smaller of the two side ratios, positive, and missing exactly when the target has a zero side or the region has two zero sides |
| AutoReframe.CropCoversRoi | app-ai/src/main/java/app/ai/reframe/AutoReframeService.java:134-138 | the crop scaled by the limiting side covers the region in both directions and matches it on that side |
| AutoReframe.Clamp | app-ai/src/main/java/app/ai/reframe/AutoReframeService.java:141-143 | the moved and cut box lies inside the picture, is the box itself when that already fits, and keeps its size when the size fits |
| AutoReframe.CropToAspect | app-ai/src/main/java/app/ai/reframe/AutoReframeService.java:133-149 | a missing scale or an empty box is a degenerate-region failure; otherwise the crop is non-empty, inside the picture, and is the centred scaled box whenever that fits |
| AutoReframe.EffectiveRate | app-ai/src/main/java/app/ai/reframe/AutoReframeService.java:37 | the frame rate is the reported one when positive and 30 otherwise |
| AutoReframe.ProcessedMillisBounds | app-ai/src/main/java/app/ai/reframe/AutoReframeService.java:83-84 | the reported duration never decreases with the number of processed pictures and is positive once one was processed at no more than 1000 fps |
| AutoReframe.Reframe | app-ai/src/main/java/app/ai/reframe/AutoReframeService.java:25-89 | the frame loop computes exactly the reframing function |
| AutoReframe.PictureCount | app-ai/src/main/java/app/ai/reframe/AutoReframeService.java:63-79 | the counted pictures are at most the grabbed frames |
| AutoReframe.ProcessShape | app-ai/src/main/java/app/ai/reframe/AutoReframeService.java:64-80 | the grab loop records one entry per grabbed frame, in order, after what was recorded before, and counts exactly the frames with a picture; each picture becomes a non-empty crop inside that picture's own size |
| AutoReframe.NonImageFramesNeverFail | app-ai/src/main/java/app/ai/reframe/AutoReframeService.java:65-68 | frames without a picture are forwarded unchanged, are not counted and leave the region alone |
| AutoReframe.Forwarding | app-ai/src/main/java/app/ai/reframe/AutoReframeService.java:65-68 | forwarding records one entry per frame |
| AutoReframe.ReframeProperties | app-ai/src/main/java/app/ai/reframe/AutoReframeService.java:25-89 | a null input or output is a null argument and a missing input is not found, both before any frame is read; the only other failure is a degenerate crop; a successful run reports the output path, the target size computed from the stream's reported size and the duration of the processed pictures, and records every grabbed frame in order, each picture as a non-empty crop inside that picture's own `cols` by `rows` |
| AutoReframe.ProcessErrors | app-ai/src/main/java/app/ai/reframe/AutoReframeService.java:64-80 | the only failure of the grab loop is an empty crop region |
| SubtitleFormat.Digits | app-ai/src/main/java/app/ai/subtitles/SubtitleFormatter.java:17 | an index prints as at least one decimal digit |
| SubtitleFormat.DigitsRoundTrip | app-ai/src/main/java/app/ai/subtitles/SubtitleFormatter.java:17 | reading the printed digits back gives the number |
| SubtitleFormat.Pad | app-ai/src/main/java/app/ai/subtitles/SubtitleFormatter.java:44 | a zero-padded field is all digits and at least the field width long |
| SubtitleFormat.PadValue | app-ai/src/main/java/app/ai/subtitles/SubtitleFormatter.java:44 | a padded field reads back as its number; minutes and seconds print in exactly 2 digits, milliseconds in exactly 3, and from 100 on a field takes at least 3 |
| SubtitleFormat.FieldsRecompose | app-ai/src/main/java/app/ai/subtitles/SubtitleFormatter.java:39-43 | minutes and seconds are below 60 and milliseconds below 1000, and hours, minutes, seconds and milliseconds add back up to the input |
| SubtitleFormat.LayoutShape | app-ai/src/main/java/app/ai/subtitles/SubtitleFormatter.java:44 | the timestamp is the padded hours, a colon, two-digit minutes, a colon, two-digit seconds, the separator and three-digit milliseconds, at least 12 characters long |
| SubtitleFormat.TimestampRoundTrip | app-ai/src/main/java/app/ai/subtitles/SubtitleFormatter.java:38-45 | parsing a formatted timestamp gives back the milliseconds it was made from, so distinct times print distinctly |
| SubtitleFormat.ReplaceChar | app-ai/src/main/java/app/ai/subtitles/SubtitleFormatter.java:28-30 | replacing a character keeps the length |
| SubtitleFormat.ReplaceCharAt | app-ai/src/main/java/app/ai/subtitles/SubtitleFormatter.java:28-30 | every occurrence of the replaced character changes and every other character stays |
| SubtitleFormat.VttTimestamp | app-ai/src/main/java/app/ai/subtitles/SubtitleFormatter.java:28-30 | replacing ',' in an SRT timestamp gives the same layout with '.' before the milliseconds |
| SubtitleFormat.TimestampZero | app-ai/src/test/java/app/ai/SubtitleFormatterTest.java:14-19 | zero prints as 00:00:00,000 |
| SubtitleFormat.TimestampTwoSeconds | app-ai/src/test/java/app/ai/SubtitleFormatterTest.java:14-19 | two seconds print as 00:00:02,000 |
| SubtitleFormat.AppendEach | app-ai/src/main/java/app/ai/subtitles/SubtitleFormatter.java:15-21 | the builder loop appends the layout of every element to the prefix, in order |
| SubtitleFormat.ToSrt | app-ai/src/main/java/app/ai/subtitles/SubtitleFormatter.java:13-22 | a null list is a null argument; otherwise the document is the SRT blocks of the lines in input order |
| SubtitleFormat.ToVtt | app-ai/src/main/java/app/ai/subtitles/SubtitleFormatter.java:24-36 | a null list is a null argument; otherwise the document is the WEBVTT header and a blank line, then the cues in input order |
| SubtitleFormat.SrtAppend | app-ai/src/main/java/app/ai/subtitles/SubtitleFormatter.java:16-20 | the SRT of two lists one after the other is the two SRT documents one after the other |
| SubtitleFormat.VttCuesAppend | app-ai/src/main/java/app/ai/subtitles/SubtitleFormatter.java:27-34 | likewise for the WebVTT cues |
| SubtitleFormat.SingleLine | app-ai/src/main/java/app/ai/subtitles/SubtitleFormatter.java:16-34 | a one-line SRT document is exactly that line's block, and its cue uses the '.' timestamp layout with LF line ends |
| SubtitleFormat.EmptyDocuments | app-ai/src/main/java/app/ai/subtitles/SubtitleFormatter.java:13-36 | an empty list gives an empty SRT document and exactly the header as WebVTT |
| SubtitleFormat.SrtExample | app-ai/src/test/java/app/ai/SubtitleFormatterTest.java:13-19 | the test's first line prints as index 1, then 00:00:00,000 --> 00:00:02,000, then its text, each ended by CRLF, then a blank line |
| SubtitleFormat.JoinAppend | app-ai/src/main/java/app/ai/subtitles/SubtitleFormatter.java:16-20 | every element is laid out on its own: joining a concatenation joins each part |

## Left out

- FFmpeg and OpenCV calls are not modelled: grabber and recorder sessions, `computeFeature`, `euclidean`, `rms`, the pixel differencing in `sampleMotion`, `detectEdges`, and the crop copy and resize. Their results are inputs of the model, and their exceptions do not appear.
- Floating-point rounding is not modelled: doubles are exact reals. NaN and infinities are modelled only in `EffectParameters`, where the source tests for them.
- Long overflow is not modelled. Java `long` and `int` arithmetic on milliseconds, sample counts and pixel sizes is unbounded here.
- Random UUIDs (`UUID.randomUUID`) are parameters, and the clock (`Instant.now`) is left out of progress snapshots.
- The filesystem is reduced to a flag. `Files.exists` is an input, and the directory creation in `AutoReframeService.reframe` is left out.
- TimelineControl.TimelineController.constructor: the seeding of sample clips (`seedSampleClips`, app-ui/src/main/java/app/ui/timeline/TimelineController.java:38-43) is left out as UI sample data. The model starts with empty video and audio tracks.
- Listener registration and `notifyListeners` in `TimelineController` are left out: they only call back into UI code.
- Concurrency is not modelled. `ProgressReporter`'s `AtomicLong` and `volatile` total are plain fields, and every method runs alone.
- Read-only views are modelled as plain values. The unmodifiable lists of `getClips` and `getTracks`, and `RenderDag.taskIds`, are returned as sequences and sets.
- `description()` strings of the commands are left out, because nothing reads them.
- The getters of records and classes are left out. They are the datatype fields themselves.
- `HighlightScorer`'s keyword `Set` is a sequence of the lower-cased keywords. Duplicates cannot change whether some keyword occurs.
- `RenderJob` metadata is a Dafny `map`, so the defensive copy is implicit. `Map.copyOf`'s rejection of null keys and values is not modelled.
- The render and export preset tables are not modelled: they are constants only.
- JavaNum.Lower and JavaNum.LowerChar: lower-case ASCII letters only. `toLowerCase(Locale.ROOT)` on other Unicode letters is not modelled.
- CommandHistory.CommandStack.Undo and Redo: these run the command first and then update the stacks. Java pops first and then runs the command. The two orders are equivalent because no command reads the stacks.
- TimelineServices.TimelineService.SplitClip: the contract requires every clip on the timeline to have a positive duration and rate. Java's setters establish this for every clip it constructs; here the clip fields are plain, so the requirement is stated.
- TimelineCommands.SplitClipCommand.Execute: the contract requires the clip being split to have a positive duration and rate, for the same reason.
- TimelineControl.TimelineController.RippleDelete: the contract states the push and the range check but not, at this level, where the shifted clips move. That is stated by TimelineServices.TimelineService.RippleDelete.
- TimelineControl.TimelineController.SplitAtPlayhead: the contract states the push and the no-op case but does not restate the clip fields. That is stated by TimelineCommands.SplitClipCommand.Execute.
- TimelineControl.TimelineController.AdjustAudioGain: for a missing clip the contract states only that the track is reordered by start.
- TimelineControl.TimelineController.SetTransitions: for a missing clip the contract states only that the track is reordered by start.
- TimelineControl.TimelineController.ImportMedia: for each import the contract states the snapped start only to within the snapping threshold of the planned insert point. Through `PlacedClip` it does not restate the new clips' rate 1, gain 0 dB and missing transitions; those are stated by TimelineServices.TimelineService.AddClip.
- TimelineControl.TimelineController.PlaceClip: states the snapped start only to within the snapping threshold of the insertion point, for the same reason. Through `PlacedClip` it does not restate the new clip's rate 1, gain 0 dB and missing transitions either; TimelineServices.TimelineService.AddClip states those.
- TimelineModel.TimelineTrack.AddClip: the clip is a non-null reference, so the `requireNonNull` rejection of a null clip (app-core/src/main/java/app/timeline/TimelineTrack.java:40) is excluded by the type and not modelled.
- TimelineModel.TimelineTrack.ClipAt: the position is a plain `int`, so the rejection of a null position (app-core/src/main/java/app/timeline/TimelineTrack.java:53) is not modelled.
- TimelineModel.TimelineTrack.constructor: the rejection of a null id or type (app-core/src/main/java/app/timeline/TimelineTrack.java:22-23) is excluded by the types.
- TimelineModel.Timeline.AddTrack: the track is a non-null reference, so the rejection of a null track (app-core/src/main/java/app/timeline/Timeline.java:34) is excluded by the type.
- TimelineModel.Timeline.constructor: the rejection of a null id (app-core/src/main/java/app/timeline/Timeline.java:22) is excluded by the type.
- TimelineModel.TimelineClip.constructor: the rejection of a null id or source (app-core/src/main/java/app/timeline/TimelineClip.java:23-24) is excluded by the types.
- TimelineModel.TimelineClip.SetStart: the start is a plain `int`, so the rejection of a null start (app-core/src/main/java/app/timeline/TimelineClip.java:46) is not modelled.
- TimelineModel.TimelineClip.SetTransitionIn: the rejection of a null transition (app-core/src/main/java/app/timeline/TimelineClip.java:88) is excluded by the type. Java's `Transition.NONE` is the value `NoTransition`.
- TimelineModel.TimelineClip.SetTransitionOut: the rejection of a null transition (app-core/src/main/java/app/timeline/TimelineClip.java:96) is excluded in the same way.
- Snapping.SnapEngine.Snap: the target and the anchor list are plain values, so the rejection of a null target or list (app-core/src/main/java/app/timeline/SnapEngine.java:20-21) is not modelled.
- TimelineServices.TimelineService.constructor: the timeline is a non-null reference, so the rejection of a null timeline (app-core/src/main/java/app/timeline/TimelineService.java:17) is excluded by the type.
- The constructors of `AddClipCommand`, `SplitClipCommand` and `RippleDeleteCommand` take non-null references and plain values, so their `requireNonNull` rejections are excluded by the types as well. `TrimClipCommand`'s three null checks (app-core/src/main/java/app/timeline/TrimClipCommand.java:14-16) are modelled by `TimelineCommands.TrimClipCommand.Create`.
- DomainTracks.Track.constructor: the rejection of a null id or type (app-core/src/main/java/app/domain/Track.java:20-21) is excluded by the types.
- SceneDetection.Detect: the media file is the `Media` value and the config a plain parameter, so the rejections of a null path and a null config (app-ai/src/main/java/app/ai/scene/SceneDetectionService.java:25, 29) are excluded by the types.
- SilenceDetection.DetectSilence: likewise for the null config and path (app-ai/src/main/java/app/ai/audio/SilenceDetectionService.java:18, 22).
- HighlightScoring.Score: likewise for the null config and media path (app-ai/src/main/java/app/ai/highlight/HighlightScorer.java:30, 38). The media file is the `mediaExists` flag.
- AutoReframe.Reframe: the config is a plain parameter, so the null-config rejection (app-ai/src/main/java/app/ai/reframe/AutoReframeService.java:22) is excluded by the type. The null input and output are modelled.
