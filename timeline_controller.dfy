/**
 * The non-graphical controller behind the timeline view: a zoom level in pixels per second,
 * a snapping switch, playhead moves, and the editing actions it forwards to the timeline
 * service for its video track.
 */
module TimelineControl {
  import opened Wrappers
  import JavaNum
  import opened TimelineModel
  import opened TimelineCommands
  import opened CommandHistory
  import opened Snapping
  import opened TimelineServices

  /** The snapping threshold the controller's service is built with, in milliseconds. */
  const DefaultSnapThreshold := 100
  /** The length of a clip placed by `importMedia`, in milliseconds. */
  const ImportLength := 5000

  /** The clamp of `setPixelsPerSecond`: values below 20 become 20, values above 400 become 400. */
  function ClampPixels(p: real): (r: real)
    ensures 20.0 <= r <= 400.0
    ensures 20.0 <= p <= 400.0 ==> r == p
    ensures p < 20.0 ==> r == 20.0
    ensures p > 400.0 ==> r == 400.0
  {
    var low := if p < 20.0 then 20.0 else p;
    if low > 400.0 then 400.0 else low
  }

  /** The clip covering the playhead on the track with the id, in the track's current order. */
  ghost function ClipAtPlayhead(timeline: Timeline, trackId: nat): Option<TimelineClip>
    reads timeline, timeline.tracks, timeline.AllClips()
  {
    match timeline.FindTrack(trackId)
    case None => None
    case Some(t) =>
      assert forall c | c in t.clips :: c in timeline.AllClips();
      t.ClipAt(timeline.playhead)
  }

  /** What `splitAtPlayhead` may change besides the tracks: the clip the split looks up by the covering clip's id. */
  ghost function PlayheadTarget(timeline: Timeline, trackId: nat): set<object>
    reads timeline, timeline.tracks, timeline.AllClips()
  {
    match ClipAtPlayhead(timeline, trackId)
    case None => {}
    case Some(c) => LocatedSet(timeline, trackId, c.id)
  }

  /** The lookup by id finds a clip whenever a clip with that id is on the track. */
  lemma LocatedWhenListed(timeline: Timeline, trackId: nat, c: TimelineClip)
    requires timeline.FindTrack(trackId).Some? && c in timeline.FindTrack(trackId).value.clips
    ensures Located(timeline, trackId, c.id).Some?
  {
    var t := timeline.FindTrack(trackId).value;
    ByStartSameClips(t.clips);
    assert c in multiset(ByStart(t.clips));
  }

  /** The clip is from `source`, has the id, is `ImportLength` long and starts within snapping distance of `target`. */
  ghost predicate PlacedClip(clip: TimelineClip, source: string, clipId: nat, target: int)
    reads clip
  {
    && clip.source == source && clip.id == clipId
    && clip.duration == ImportLength && JavaNum.Abs(target - clip.start) <= DefaultSnapThreshold
  }

  /**
   * `c` adds a clip from `source` with the id, `ImportLength` long, to the track with the id,
   * no further from `target` than snapping can move it.
   */
  ghost predicate Placed(c: Command, trackId: nat, source: string, clipId: nat, target: int)
    reads if c.Add? then {c.add.clip} else {}
  {
    c.Add? && c.add.trackId == trackId && PlacedClip(c.add.clip, source, clipId, target)
  }

  /** The `n` newest commands of a stack all add a clip to the track with the id. */
  ghost predicate AddsTo(stack: seq<Command>, n: nat, trackId: nat)
  {
    n <= |stack| && forall k | 0 <= k < n :: stack[k].Add? && stack[k].add.trackId == trackId
  }

  /** The clips of the add commands among the `n` newest commands of a stack, oldest first. */
  ghost function Imported(stack: seq<Command>, n: nat): seq<TimelineClip>
    requires n <= |stack|
  {
    if n == 0 then [] else Imported(stack[1..], n - 1) + (if stack[0].Add? then [stack[0].add.clip] else [])
  }

  /** Every clip some list of a track-to-clips map holds. */
  ghost function ListedClips(lists: map<TimelineTrack, seq<TimelineClip>>): set<TimelineClip>
  {
    set t, c | t in lists && c in lists[t] :: c
  }

  lemma ListedClipsHas(lists: map<TimelineTrack, seq<TimelineClip>>, t: TimelineTrack)
    requires t in lists
    ensures forall c | c in lists[t] :: c in ListedClips(lists)
  {
  }

  /**
   * Each track holds its original clips and, if it is the found track, the added ones, ordered by
   * start; before anything was added it holds its original list as it was.
   */
  ghost predicate Imports(tracks: seq<TimelineTrack>, found: Option<TimelineTrack>,
                          orig: map<TimelineTrack, seq<TimelineClip>>, added: seq<TimelineClip>)
    reads tracks, added, ListedClips(orig)
  {
    forall t | t in tracks ::
      t in orig && (ListedClipsHas(orig, t);
      t.clips == if added == [] then orig[t] else if found == Some(t) then ByStart(orig[t] + added) else ByStart(orig[t]))
  }

  /**
   * One more clip added to a track whose clips were its original ones plus the added ones, ordered
   * by start (the original ones alone, ordered, if the track is not the target), keeps that shape.
   */
  lemma ImportedTrack(before: seq<TimelineClip>, after: seq<TimelineClip>, isTarget: bool,
                      orig: seq<TimelineClip>, added: seq<TimelineClip>, c: TimelineClip)
    requires before == if added == [] then orig else if isTarget then ByStart(orig + added) else ByStart(orig)
    requires after == if isTarget then ByStart(before + [c]) else ByStart(before)
    ensures after == if isTarget then ByStart(orig + (added + [c])) else ByStart(orig)
  {
    assert orig + added + [c] == orig + (added + [c]);
    if added == [] {
      assert orig + added == orig;
    } else if isTarget {
      ByStartAfterByStart(orig + added, [c]);
    } else {
      ByStartTwice(orig);
    }
  }

  /**
   * One track at one step of `importMedia`: the track, the track the clips go to, its original
   * clips, the clips imported before this step, and its clips before the step.
   */
  datatype TrackStep = TrackStep(track: TimelineTrack, found: Option<TimelineTrack>, orig: seq<TimelineClip>,
                                 added: seq<TimelineClip>, before: seq<TimelineClip>)
  {
    predicate IsTarget() { found == Some(track) }
  }

  /** The state `importMedia` carries between steps: the target track, the original clips, the clips imported so far. */
  datatype ImportState = ImportState(found: Option<TimelineTrack>, orig: map<TimelineTrack, seq<TimelineClip>>,
                                     added: seq<TimelineClip>)

  class TimelineController {
    const timeline: Timeline
    const service: TimelineService
    const videoTrack: TimelineTrack
    const audioTrack: TimelineTrack
    var snappingEnabled: bool
    var pixelsPerSecond: real

    /** The service edits this controller's timeline and snaps with the default threshold. */
    ghost predicate Valid()
    {
      service.timeline == timeline && service.snapEngine.threshold == DefaultSnapThreshold
    }

    /**
     * A new timeline with a video and then an audio track, snapping on and 120 pixels per
     * second. The ids are the random UUIDs of the timeline and of the two tracks.
     */
    constructor (timelineId: nat, videoId: nat, audioId: nat)
      ensures Valid() && fresh(timeline) && fresh(service) && fresh(service.commandStack)
      ensures fresh(videoTrack) && videoTrack.id == videoId && videoTrack.kind == Video && videoTrack.clips == []
      ensures fresh(audioTrack) && audioTrack.id == audioId && audioTrack.kind == Audio && audioTrack.clips == []
      ensures timeline.tracks == [videoTrack, audioTrack] && timeline.playhead == 0
      ensures service.commandStack.undoStack == [] && service.commandStack.redoStack == []
      ensures snappingEnabled && pixelsPerSecond == 120.0
    {
      var t := new Timeline(timelineId);
      var s := new TimelineService(t, SnapEngine(DefaultSnapThreshold));
      var video := s.AddTrack(Video, videoId);
      var audio := s.AddTrack(Audio, audioId);
      timeline := t;
      service := s;
      videoTrack := video;
      audioTrack := audio;
      snappingEnabled := true;
      pixelsPerSecond := 120.0;
    }

    /** `setPixelsPerSecond`. */
    method SetPixelsPerSecond(p: real)
      modifies this
      ensures pixelsPerSecond == ClampPixels(p) && snappingEnabled == old(snappingEnabled)
    {
      var v := p;
      if v < 20.0 {
        v := 20.0;
      }
      if v > 400.0 {
        v := 400.0;
      }
      pixelsPerSecond := v;
    }

    /** `zoomByFactor`: the current level times the factor, clamped. */
    method ZoomByFactor(factor: real)
      modifies this
      ensures pixelsPerSecond == ClampPixels(old(pixelsPerSecond) * factor) && snappingEnabled == old(snappingEnabled)
    {
      SetPixelsPerSecond(pixelsPerSecond * factor);
    }

    /** `toggleSnapping`. */
    method ToggleSnapping()
      modifies this
      ensures snappingEnabled == !old(snappingEnabled) && pixelsPerSecond == old(pixelsPerSecond)
    {
      snappingEnabled := !snappingEnabled;
    }

    /** `snap`: the target itself while snapping is off, otherwise the service's snap. */
    method Snap(target: int) returns (r: int)
      requires Valid()
      modifies timeline.tracks
      ensures !snappingEnabled ==> r == target && forall t | t in timeline.tracks :: t.clips == old(t.clips)
      ensures snappingEnabled ==>
        && r == SnapTo(target, old(TrackAnchors(timeline.tracks)), DefaultSnapThreshold)
        && forall t | t in timeline.tracks :: t.clips == old(ByStart(t.clips))
      ensures JavaNum.Abs(target - r) <= DefaultSnapThreshold
    {
      if !snappingEnabled {
        return target;
      }
      r := service.Snap(target);
      SnapWithin(target, old(TrackAnchors(timeline.tracks)), DefaultSnapThreshold);
    }

    /** `movePlayhead`: a negative position moves the playhead to 0. */
    method MovePlayhead(position: int)
      modifies timeline
      ensures timeline.playhead == JavaNum.Max(position, 0)
      ensures timeline.tracks == old(timeline.tracks) && timeline.zoom == old(timeline.zoom)
    {
      var ok := timeline.SetPlayhead(if position < 0 then 0 else position);
    }

    /** `movePlayheadBySeconds`: the seconds are turned into milliseconds by a truncating cast. */
    method MovePlayheadBySeconds(seconds: real)
      modifies timeline
      ensures timeline.playhead == JavaNum.Max(old(timeline.playhead) + JavaNum.Trunc(seconds * 1000.0), 0)
      ensures timeline.tracks == old(timeline.tracks) && timeline.zoom == old(timeline.zoom)
    {
      var newPos := timeline.playhead + JavaNum.Trunc(seconds * 1000.0);
      if newPos < 0 {
        newPos := 0;
      }
      MovePlayhead(newPos);
    }

    /**
     * `splitAtPlayhead`: the clip covering the playhead on the track, if any, is split there
     * through the service, which looks it up again by its id. `rightId` is the random UUID of
     * the right part; `ok` is false where the split throws.
     */
    method SplitAtPlayhead(trackId: nat, rightId: nat) returns (ok: bool)
      requires Valid() && forall c | c in timeline.AllClips() :: c.Valid()
      modifies timeline, timeline.tracks, service.commandStack, PlayheadTarget(timeline, trackId)
      ensures timeline.tracks == old(timeline.tracks)
      ensures old(ClipAtPlayhead(timeline, trackId)).None? ==>
        && ok && service.commandStack.undoStack == old(service.commandStack.undoStack)
        && service.commandStack.redoStack == old(service.commandStack.redoStack)
        && forall t | t in timeline.tracks :: t.clips == old(t.clips)
      ensures old(ClipAtPlayhead(timeline, trackId)).Some? ==>
        var id := old(ClipAtPlayhead(timeline, trackId)).value.id;
        && old(Located(timeline, trackId, id)).Some?
        && (ok <==> old(timeline.playhead) != old(Located(timeline, trackId, id).value.start))
        && (!ok ==> (service.commandStack.undoStack == old(service.commandStack.undoStack)
          && service.commandStack.redoStack == old(service.commandStack.redoStack)))
        && (ok ==>
          && service.commandStack.redoStack == []
          && |service.commandStack.undoStack| == |old(service.commandStack.undoStack)| + 1
          && service.commandStack.undoStack[1..] == old(service.commandStack.undoStack)
          && (var c := service.commandStack.undoStack[0];
            c.Split? && c.split.trackId == trackId && c.split.originalClip == old(Located(timeline, trackId, id)).value
            && c.split.splitPoint == old(timeline.playhead)))
    {
      var found := timeline.FindTrack(trackId);
      if found.None? {
        return true;
      }
      var clip := found.value.ClipAt(timeline.playhead);
      if clip.None? {
        return true;
      }
      LocatedWhenListed(timeline, trackId, clip.value);
      ok := service.SplitClip(trackId, clip.value.id, timeline.playhead, rightId);
    }

    /** `adjustPlaybackRate`: the clip is looked up as the service does; a rate that is not positive throws. */
    method AdjustPlaybackRate(trackId: nat, clipId: nat, rate: real) returns (ok: bool)
      requires Valid()
      modifies timeline.tracks, LocatedSet(timeline, trackId, clipId)
      ensures forall t | t in timeline.tracks ::
        t.clips == if timeline.FindTrack(trackId) == Some(t) then old(ByStart(t.clips)) else old(t.clips)
      ensures old(Located(timeline, trackId, clipId)).None? ==> ok
      ensures old(Located(timeline, trackId, clipId)).Some? ==>
        var before := old(Located(timeline, trackId, clipId).value.Fields());
        && (ok <==> rate > 0.0)
        && old(Located(timeline, trackId, clipId)).value.Fields() == if ok then before.(playbackRate := rate) else before
    {
      var clip := service.FindClip(trackId, clipId);
      if clip.None? {
        return true;
      }
      ok := clip.value.SetPlaybackRate(rate);
    }

    /** `adjustAudioGain`: any gain is accepted. */
    method AdjustAudioGain(trackId: nat, clipId: nat, gainDb: real)
      requires Valid()
      modifies timeline.tracks, LocatedSet(timeline, trackId, clipId)
      ensures forall t | t in timeline.tracks ::
        t.clips == if timeline.FindTrack(trackId) == Some(t) then old(ByStart(t.clips)) else old(t.clips)
      ensures old(Located(timeline, trackId, clipId)).Some? ==>
        old(Located(timeline, trackId, clipId)).value.Fields()
        == old(Located(timeline, trackId, clipId).value.Fields()).(audioGainDb := gainDb)
    {
      var clip := service.FindClip(trackId, clipId);
      if clip.Some? {
        clip.value.SetAudioGainDb(gainDb);
      }
    }

    /** `setTransitions`: the incoming transition is set, then the outgoing one. */
    method SetTransitions(trackId: nat, clipId: nat, transitionIn: Transition, transitionOut: Transition)
      requires Valid()
      modifies timeline.tracks, LocatedSet(timeline, trackId, clipId)
      ensures forall t | t in timeline.tracks ::
        t.clips == if timeline.FindTrack(trackId) == Some(t) then old(ByStart(t.clips)) else old(t.clips)
      ensures old(Located(timeline, trackId, clipId)).Some? ==>
        old(Located(timeline, trackId, clipId)).value.Fields()
        == old(Located(timeline, trackId, clipId).value.Fields()).(transitionIn := transitionIn, transitionOut := transitionOut)
    {
      var clip := service.FindClip(trackId, clipId);
      if clip.Some? {
        clip.value.SetTransitionIn(transitionIn);
        clip.value.SetTransitionOut(transitionOut);
      }
    }

    /** `rippleDelete`: always on the video track. */
    method RippleDelete(start: int, end: int) returns (ok: bool)
      requires Valid()
      modifies timeline, timeline.tracks, service.commandStack, RippleTargets(timeline, videoTrack.id)
      ensures timeline.tracks == old(timeline.tracks)
      ensures ok <==> end > start
      ensures !ok ==>
        && service.commandStack.undoStack == old(service.commandStack.undoStack)
        && service.commandStack.redoStack == old(service.commandStack.redoStack)
        && forall t | t in timeline.tracks :: t.clips == old(t.clips)
      ensures ok ==>
        && service.commandStack.redoStack == []
        && |service.commandStack.undoStack| == |old(service.commandStack.undoStack)| + 1
        && service.commandStack.undoStack[1..] == old(service.commandStack.undoStack)
        && (var c := service.commandStack.undoStack[0];
          c.Ripple? && c.ripple.trackId == videoTrack.id && c.ripple.start == start && c.ripple.end == end)
    {
      ok := service.RippleDelete(videoTrack.id, start, end);
    }

    /**
     * `importMedia`: file `k`, in list order, is added to the video track at the playhead plus
     * `k` times five seconds, snapped, for five seconds. `clipIds` are the clips' random UUIDs.
     */
    method ImportMedia(files: seq<string>, clipIds: seq<nat>)
      requires Valid() && |clipIds| == |files|
      modifies timeline, timeline.tracks, service.commandStack
      ensures timeline.tracks == old(timeline.tracks)
      ensures |service.commandStack.undoStack| == |old(service.commandStack.undoStack)| + |files|
      ensures service.commandStack.undoStack[|files|..] == old(service.commandStack.undoStack)
      ensures service.commandStack.redoStack == if files == [] then old(service.commandStack.redoStack) else []
      ensures AddsTo(service.commandStack.undoStack, |files|, videoTrack.id)
      ensures |Imported(service.commandStack.undoStack, |files|)| == |files|
      ensures forall k | 0 <= k < |files| ::
        PlacedClip(Imported(service.commandStack.undoStack, |files|)[k], files[k], clipIds[k],
          old(timeline.playhead) + ImportLength * k)
      ensures forall t | t in timeline.tracks ::
        t.clips == if files == [] then old(t.clips)
                   else if timeline.FindTrack(videoTrack.id) == Some(t)
                   then ByStart(old(t.clips) + Imported(service.commandStack.undoStack, |files|))
                   else ByStart(old(t.clips))
    {
      var stack := service.commandStack;
      var insertPoint := timeline.playhead;
      ghost var found := timeline.FindTrack(videoTrack.id);
      ghost var orig := ClipsOf(timeline.tracks);
      var i := 0;
      while i < |files|
        invariant 0 <= i <= |files|
        invariant insertPoint == old(timeline.playhead) + ImportLength * i
        invariant timeline.tracks == old(timeline.tracks) && timeline.FindTrack(videoTrack.id) == found
        invariant |stack.undoStack| == |old(stack.undoStack)| + i && stack.undoStack[i..] == old(stack.undoStack)
        invariant stack.redoStack == if i == 0 then old(stack.redoStack) else []
        invariant AddsTo(stack.undoStack, i, videoTrack.id) && |Imported(stack.undoStack, i)| == i
        invariant forall k | 0 <= k < i ::
          PlacedClip(Imported(stack.undoStack, i)[k], files[k], clipIds[k], old(timeline.playhead) + ImportLength * k)
        invariant orig == old(ClipsOf(timeline.tracks))
        invariant Imports(timeline.tracks, found, orig, Imported(stack.undoStack, i))
      {
        ImportStep(files, clipIds, i, insertPoint, found, orig, Imported(stack.undoStack, i), old(timeline.playhead));
        insertPoint := insertPoint + ImportLength;
        i := i + 1;
      }
    }

    /** One turn of the `importMedia` loop: the `i`-th file is placed and joins the imported clips. */
    method ImportStep(files: seq<string>, clipIds: seq<nat>, i: nat, insertPoint: int,
                      ghost found: Option<TimelineTrack>, ghost orig: map<TimelineTrack, seq<TimelineClip>>,
                      ghost added: seq<TimelineClip>, ghost base: int)
      requires Valid() && |clipIds| == |files| && i < |files|
      requires found == timeline.FindTrack(videoTrack.id)
      requires AddsTo(service.commandStack.undoStack, i, videoTrack.id)
      requires added == Imported(service.commandStack.undoStack, i) && |added| == i
      requires insertPoint == base + ImportLength * i
      requires forall k | 0 <= k < i :: PlacedClip(added[k], files[k], clipIds[k], base + ImportLength * k)
      requires Imports(timeline.tracks, found, orig, added)
      modifies timeline, timeline.tracks, service.commandStack
      ensures timeline.tracks == old(timeline.tracks) && timeline.FindTrack(videoTrack.id) == found
      ensures |service.commandStack.undoStack| == |old(service.commandStack.undoStack)| + 1
      ensures service.commandStack.undoStack[1..] == old(service.commandStack.undoStack)
      ensures service.commandStack.redoStack == []
      ensures AddsTo(service.commandStack.undoStack, i + 1, videoTrack.id)
      ensures Imported(service.commandStack.undoStack, i + 1) == added + [service.commandStack.undoStack[0].add.clip]
      ensures forall k | 0 <= k < i + 1 ::
        PlacedClip(Imported(service.commandStack.undoStack, i + 1)[k], files[k], clipIds[k], base + ImportLength * k)
      ensures Imports(timeline.tracks, found, orig, Imported(service.commandStack.undoStack, i + 1))
    {
      PlaceImported(files[i], clipIds[i], insertPoint, found, orig, added);
      var stack := service.commandStack;
      assert Imported(stack.undoStack, i + 1) == added + [stack.undoStack[0].add.clip];
      forall k | 0 <= k < i + 1 ensures stack.undoStack[k].Add? && stack.undoStack[k].add.trackId == videoTrack.id {
        if k > 0 {
          assert stack.undoStack[k] == old(stack.undoStack)[k - 1];
        }
      }
    }

    /** `PlaceClip`, seen as one more clip joining the imported ones on the found track. */
    method PlaceImported(source: string, clipId: nat, target: int, ghost found: Option<TimelineTrack>,
                         ghost orig: map<TimelineTrack, seq<TimelineClip>>, ghost added: seq<TimelineClip>)
      requires Valid() && found == timeline.FindTrack(videoTrack.id)
      requires Imports(timeline.tracks, found, orig, added)
      modifies timeline, timeline.tracks, service.commandStack
      ensures timeline.tracks == old(timeline.tracks) && timeline.FindTrack(videoTrack.id) == found
      ensures |service.commandStack.undoStack| == |old(service.commandStack.undoStack)| + 1
      ensures service.commandStack.undoStack[1..] == old(service.commandStack.undoStack)
      ensures service.commandStack.redoStack == []
      ensures Placed(service.commandStack.undoStack[0], videoTrack.id, source, clipId, target)
      ensures Imports(timeline.tracks, found, orig, added + [service.commandStack.undoStack[0].add.clip])
    {
      PlaceClip(source, clipId, target);
      PlacedOnTracks(ImportState(found, orig, added));
    }

    /** The step of `PlaceImported` for every track at once. */
    twostate lemma PlacedOnTracks(s: ImportState)
      requires |service.commandStack.undoStack| > 0 && service.commandStack.undoStack[0].Add?
      requires timeline.tracks == old(timeline.tracks) && s.found == timeline.FindTrack(videoTrack.id)
      requires old(Imports(timeline.tracks, s.found, s.orig, s.added))
      requires unchanged(ListedClips(s.orig)) && unchanged(s.added) && unchanged(old(timeline.AllClips()))
      requires forall t | t in timeline.tracks ::
        t.clips == if timeline.FindTrack(videoTrack.id) == Some(t)
                   then ByStart(old(t.clips) + [service.commandStack.undoStack[0].add.clip])
                   else old(ByStart(t.clips))
      ensures Imports(timeline.tracks, s.found, s.orig, s.added + [service.commandStack.undoStack[0].add.clip])
    {
      ghost var c := service.commandStack.undoStack[0].add.clip;
      forall t | t in timeline.tracks
        ensures t.clips == if s.found == Some(t) then ByStart(s.orig[t] + (s.added + [c])) else ByStart(s.orig[t])
      {
        ListedClipsHas(s.orig, t);
        assert unchanged(old(t.clips)) by {
          assert forall c | c in old(t.clips) :: c in old(timeline.AllClips());
        }
        PlacedOnTrack(TrackStep(t, s.found, s.orig[t], s.added, old(t.clips)));
      }
    }

    /**
     * The step of `PlaceImported` for one track, carried over from the state before the newest
     * command's clip was added.
     */
    twostate lemma PlacedOnTrack(s: TrackStep)
      requires |service.commandStack.undoStack| > 0 && service.commandStack.undoStack[0].Add?
      requires unchanged(s.orig) && unchanged(s.added) && unchanged(s.before)
      requires s.before == if s.added == [] then s.orig
                           else if s.IsTarget() then old(ByStart(s.orig + s.added)) else old(ByStart(s.orig))
      requires s.track.clips == if s.IsTarget() then ByStart(s.before + [service.commandStack.undoStack[0].add.clip])
                                else old(ByStart(s.before))
      ensures s.track.clips == if s.IsTarget() then ByStart(s.orig + (s.added + [service.commandStack.undoStack[0].add.clip]))
                               else ByStart(s.orig)
    {
      if s.IsTarget() {
        ByStartFramed(s.orig + s.added);
      } else {
        ByStartFramed(s.before);
        ByStartFramed(s.orig);
      }
      ImportedTrack(s.before, s.track.clips, s.IsTarget(), s.orig, s.added, service.commandStack.undoStack[0].add.clip);
    }

    /** One step of `importMedia`: the clip joins the first track with the video track's id, in start order. */
    method PlaceClip(source: string, clipId: nat, target: int)
      requires Valid()
      modifies timeline, timeline.tracks, service.commandStack
      ensures timeline.tracks == old(timeline.tracks)
      ensures |service.commandStack.undoStack| == |old(service.commandStack.undoStack)| + 1
      ensures service.commandStack.undoStack[1..] == old(service.commandStack.undoStack)
      ensures service.commandStack.redoStack == []
      ensures Placed(service.commandStack.undoStack[0], videoTrack.id, source, clipId, target)
      ensures forall t | t in timeline.tracks ::
        t.clips == if timeline.FindTrack(videoTrack.id) == Some(t)
                   then ByStart(old(t.clips) + [service.commandStack.undoStack[0].add.clip])
                   else old(ByStart(t.clips))
    {
      var ok := service.AddClip(videoTrack.id, source, target, ImportLength, clipId);
      SnapWithin(target, old(TrackAnchors(timeline.tracks)), DefaultSnapThreshold);
    }

    /** `undo`: only when the stack has something to undo. */
    method Undo() returns (ok: bool)
      requires Valid()
      requires service.commandStack.undoStack != [] ==> ReadyToUndo(service.commandStack.undoStack[0])
      modifies service.commandStack,
        if service.commandStack.undoStack != [] then Touched(service.commandStack.undoStack[0]) else {}
      ensures !old(service.commandStack.CanUndo()) ==>
        ok && service.commandStack.undoStack == [] && service.commandStack.redoStack == old(service.commandStack.redoStack)
      ensures old(service.commandStack.CanUndo()) ==>
        && Undone(old(service.commandStack.undoStack[0]), ok, old(Moved(service.commandStack.undoStack[0])))
        && service.commandStack.undoStack == old(service.commandStack.undoStack[1..])
        && service.commandStack.redoStack == if ok then [old(service.commandStack.undoStack[0])] + old(service.commandStack.redoStack)
          else old(service.commandStack.redoStack)
    {
      ok := true;
      if service.commandStack.CanUndo() {
        ok := service.commandStack.Undo();
      }
    }

    /** `redo`: only when the stack has something to redo. `freshId` is the UUID a redone split gives its right part. */
    method Redo(freshId: nat) returns (ok: bool)
      requires Valid()
      requires service.commandStack.redoStack != [] ==> ReadyToExecute(service.commandStack.redoStack[0])
      modifies service.commandStack,
        if service.commandStack.redoStack != [] then Touched(service.commandStack.redoStack[0]) else {}
      ensures !old(service.commandStack.CanRedo()) ==>
        ok && service.commandStack.redoStack == [] && service.commandStack.undoStack == old(service.commandStack.undoStack)
      ensures old(service.commandStack.CanRedo()) ==>
        && Executed(old(service.commandStack.redoStack[0]), ok, freshId)
        && service.commandStack.redoStack == old(service.commandStack.redoStack[1..])
        && service.commandStack.undoStack == if ok then [old(service.commandStack.redoStack[0])] + old(service.commandStack.undoStack)
          else old(service.commandStack.undoStack)
    {
      ok := true;
      if service.commandStack.CanRedo() {
        ok := service.commandStack.Redo(freshId);
      }
    }
  }
}
