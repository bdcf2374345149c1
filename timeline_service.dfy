/**
 * The editing facade of the timeline: it creates tracks, builds the edit commands, pushes
 * them on its command stack, and snaps new clips to the starts and ends of the clips
 * already placed. Listing a track's clips orders that track in place, so every lookup
 * here leaves the track it looked at ordered by start.
 */
module TimelineServices {
  import opened Wrappers
  import opened TimelineModel
  import opened TimelineCommands
  import opened CommandHistory
  import opened Snapping

  // ----- snapping anchors -----

  /** The start and the end of each clip, in list order. */
  function ClipAnchors(cs: seq<TimelineClip>): (r: seq<int>)
    reads cs
    ensures |r| == 2 * |cs|
  {
    if cs == [] then []
    else ClipAnchors(cs[..|cs| - 1]) + [cs[|cs| - 1].start, cs[|cs| - 1].End()]
  }

  /** `x` is the start or the end of clip `c`. */
  ghost predicate AnchorOf(x: int, c: TimelineClip)
    reads c
  {
    x == c.start || x == c.End()
  }

  lemma {:induction false} ClipAnchorsMembers(cs: seq<TimelineClip>)
    ensures forall x :: x in ClipAnchors(cs) <==> exists c :: c in cs && AnchorOf(x, c)
  {
    if cs != [] {
      var p := cs[..|cs| - 1];
      var last := cs[|cs| - 1];
      ClipAnchorsMembers(p);
      assert cs == p + [last];
      assert AnchorOf(last.start, last) && AnchorOf(last.End(), last);
    }
  }

  ghost function TrackClips(ts: seq<TimelineTrack>): set<TimelineClip>
    reads TrackSet(ts)
  {
    set t, c | t in ts && c in t.clips :: c
  }

  ghost function TrackSet(ts: seq<TimelineTrack>): set<object>
  {
    set o: object | o in ts
  }

  /** The anchors `snap` lists: track by track, each track's clips in start order. */
  ghost function TrackAnchors(ts: seq<TimelineTrack>): seq<int>
    reads TrackSet(ts), TrackClips(ts)
  {
    if ts == [] then []
    else
      var t := ts[|ts| - 1];
      assert forall c | c in t.clips :: c in TrackClips(ts);
      ByStartSameClips(t.clips);
      assert TrackClips(ts[..|ts| - 1]) <= TrackClips(ts);
      TrackAnchors(ts[..|ts| - 1]) + ClipAnchors(ByStart(t.clips))
  }

  /** Every anchor of the tracks is the start or the end of one of their clips, and conversely. */
  lemma {:induction false} TrackAnchorsMembers(ts: seq<TimelineTrack>, x: int)
    ensures x in TrackAnchors(ts) <==> exists t, c :: t in ts && c in t.clips && AnchorOf(x, c)
  {
    if ts != [] {
      var p := ts[..|ts| - 1];
      var t := ts[|ts| - 1];
      TrackAnchorsMembers(p, x);
      ClipAnchorsMembers(ByStart(t.clips));
      ByStartSameClips(t.clips);
      assert TrackAnchors(ts) == TrackAnchors(p) + ClipAnchors(ByStart(t.clips));
      if exists u, c :: u in ts && c in u.clips && AnchorOf(x, c) {
        var u, c :| u in ts && c in u.clips && AnchorOf(x, c);
        if u != t {
          assert u in p;
        }
      }
      if x in TrackAnchors(p) {
        var u, c :| u in p && c in u.clips && AnchorOf(x, c);
        assert u in ts;
      }
    }
  }

  /** Anchors depend only on the clips, which the timeline's listing leaves untouched. */
  twostate lemma ClipAnchorsFramed(x: seq<TimelineClip>)
    requires unchanged(x)
    ensures ClipAnchors(x) == old(ClipAnchors(x))
  {
  }

  /** What `splitClip` and `trimClip` look up: the first clip with the id on the track with the id, once that track is ordered. */
  ghost function Located(timeline: Timeline, trackId: nat, clipId: nat): Option<TimelineClip>
    reads timeline, timeline.tracks, timeline.AllClips()
  {
    match timeline.FindTrack(trackId)
    case None => None
    case Some(t) =>
      assert forall c | c in t.clips :: c in timeline.AllClips();
      ByStartSameClips(t.clips);
      FirstWithClipId(ByStart(t.clips), clipId)
  }

  /** The clip `Located` finds, as a frame. */
  ghost function LocatedSet(timeline: Timeline, trackId: nat, clipId: nat): set<object>
    reads timeline, timeline.tracks, timeline.AllClips()
  {
    match Located(timeline, trackId, clipId)
    case None => {}
    case Some(c) => {c}
  }

  /** The clips a ripple delete on the track with the id may move. */
  ghost function RippleTargets(timeline: Timeline, trackId: nat): set<object>
    reads timeline, timeline.tracks
  {
    match timeline.FindTrack(trackId)
    case None => {}
    case Some(t) => set c: object | c in t.clips
  }

  /** The first clip with the given id, in list order. */
  function FirstWithClipId(cs: seq<TimelineClip>, clipId: nat): (r: Option<TimelineClip>)
    ensures r.None? <==> forall i :: 0 <= i < |cs| ==> cs[i].id != clipId
    ensures r.Some? ==> exists i :: (0 <= i < |cs| && cs[i] == r.value && r.value.id == clipId
      && forall j :: 0 <= j < i ==> cs[j].id != clipId)
  {
    if cs == [] then None
    else if cs[0].id == clipId then Some(cs[0])
    else
      var r := FirstWithClipId(cs[1..], clipId);
      assert r.Some? ==> exists i :: (0 <= i < |cs[1..]| && cs[1..][i] == r.value && r.value.id == clipId
        && forall j :: 0 <= j < i ==> cs[1..][j].id != clipId);
      r
  }

  /** Ordering by start depends only on the clips, which the timeline's listing leaves untouched. */
  twostate lemma ByStartFramed(x: seq<TimelineClip>)
    requires unchanged(x)
    ensures ByStart(x) == old(ByStart(x))
  {
  }

  /** The starts of unchanged clips are unchanged. */
  twostate lemma StartsOfFramed(x: seq<TimelineClip>)
    requires unchanged(x)
    ensures StartsOf(x) == old(StartsOf(x))
  {
  }

  /** The clip list of each track of a list. */
  ghost function ClipsOf(ts: seq<TimelineTrack>): map<TimelineTrack, seq<TimelineClip>>
    reads ts
  {
    map t | t in ts :: t.clips
  }

  twostate lemma FieldsOfFramed(x: seq<TimelineClip>)
    requires unchanged(x)
    ensures FieldsOf(x) == old(FieldsOf(x))
  {
  }

  twostate lemma ClipsOfFramed(x: seq<TimelineTrack>)
    requires unchanged(x)
    ensures ClipsOf(x) == old(ClipsOf(x))
  {
  }

  /**
   * What a ripple delete of [start, end) on `track` did between the two states: the track's clips
   * were sorted by start, each clip from `end` on moved back by the length of the range, `moved`
   * lists those clips in sorted order, and no other track's clip list changed.
   */
  twostate predicate Rippled(timeline: Timeline, track: TimelineTrack, start: int, end: int, new moved: seq<ClipState>)
    reads timeline, timeline.tracks, track, track.clips
  {
    var r := Shift(old(ByStart(track.clips)), old(StartsOf(track.clips)), end, end - start);
    && track.clips == old(ByStart(track.clips))
    && timeline.tracks == old(timeline.tracks)
    && (forall t | t in timeline.tracks && t != track :: t.clips == old(t.clips))
    && moved == r.1
    && forall c | c in track.clips :: c in r.0 && MovedTo(c, old(c.Fields()), r.0[c])
  }

  /** The snapshot a ripple delete is stated against, taken in the state before it. */
  ghost predicate Snapshot(timeline: Timeline, track: TimelineTrack, sorted0: seq<TimelineClip>, starts0: map<TimelineClip, int>,
                           fields0: map<TimelineClip, ClipFields>, clips0: map<TimelineTrack, seq<TimelineClip>>)
    reads timeline, timeline.tracks, track, track.clips
  {
    sorted0 == ByStart(track.clips) && starts0 == StartsOf(track.clips) && fields0 == FieldsOf(track.clips)
    && clips0 == ClipsOf(timeline.tracks)
  }

  /** What `Rippled` states, against a snapshot of the first state. */
  ghost predicate ShiftedFrom(timeline: Timeline, track: TimelineTrack, start: int, end: int, moved: seq<ClipState>,
                              sorted0: seq<TimelineClip>, starts0: map<TimelineClip, int>,
                              fields0: map<TimelineClip, ClipFields>, clips0: map<TimelineTrack, seq<TimelineClip>>)
    reads timeline, timeline.tracks, track, track.clips
  {
    var r := Shift(sorted0, starts0, end, end - start);
    && track.clips == sorted0
    && (forall t | t in timeline.tracks && t != track :: t in clips0 && t.clips == clips0[t])
    && moved == r.1
    && forall c | c in sorted0 :: c in r.0 && c in fields0 && MovedTo(c, fields0[c], r.0[c])
  }

  /** `TimelineService`. */
  class TimelineService {
    const timeline: Timeline
    const commandStack: CommandStack
    const snapEngine: SnapEngine

    constructor (timeline: Timeline, snapEngine: SnapEngine)
      ensures this.timeline == timeline && this.snapEngine == snapEngine
      ensures fresh(commandStack) && commandStack.undoStack == [] && commandStack.redoStack == []
    {
      this.timeline := timeline;
      this.snapEngine := snapEngine;
      commandStack := new CommandStack();
    }

    /** `new TimelineService(timeline, snapThreshold)`: a negative threshold is rejected by the snap engine. */
    static method Create(timeline: Timeline, snapThreshold: int) returns (r: Result<TimelineService>)
      ensures snapThreshold < 0 <==> r.Err?
      ensures r.Err? ==> r.error == IllegalArgument
      ensures r.Ok? ==> (fresh(r.value) && fresh(r.value.commandStack) && r.value.timeline == timeline
        && r.value.snapEngine.threshold == snapThreshold
        && r.value.commandStack.undoStack == [] && r.value.commandStack.redoStack == [])
    {
      var engine := SnapEngine.Create(snapThreshold);
      if engine.Err? {
        return Err(engine.error);
      }
      var service := new TimelineService(timeline, engine.value);
      return Ok(service);
    }

    /** `addTrack`: a new empty track is registered at the end of the timeline and returned. */
    method AddTrack(kind: TrackType, trackId: nat) returns (track: TimelineTrack)
      modifies timeline
      ensures fresh(track) && track.id == trackId && track.kind == kind && track.clips == []
      ensures timeline.tracks == old(timeline.tracks) + [track]
      ensures timeline.playhead == old(timeline.playhead) && timeline.zoom == old(timeline.zoom)
    {
      track := new TimelineTrack(trackId, kind);
      timeline.AddTrack(track);
    }

    /** The inner loop of `snap`: the start and then the end of each clip are appended. */
    static method AddAnchors(anchors: seq<int>, clips: seq<TimelineClip>) returns (r: seq<int>)
      ensures r == anchors + ClipAnchors(clips)
    {
      r := anchors;
      var j := 0;
      while j < |clips|
        invariant 0 <= j <= |clips|
        invariant r == anchors + ClipAnchors(clips[..j])
      {
        assert clips[..j + 1][..j] == clips[..j];
        r := r + [clips[j].start, clips[j].End()];
        j := j + 1;
      }
      assert clips[..j] == clips;
    }

    /**
     * One turn of the loop of `snap`: the track, holding `original` or `original` already ordered
     * (a track listed twice), is listed, and the anchors of its ordered clips are appended.
     */
    static method ListTrack(track: TimelineTrack, anchors: seq<int>, ghost original: seq<TimelineClip>) returns (r: seq<int>)
      requires track.clips == original || track.clips == ByStart(original)
      modifies track
      ensures track.clips == old(ByStart(original))
      ensures r == anchors + old(ClipAnchors(ByStart(original)))
    {
      ByStartTwice(original);
      var clips := track.GetClips();
      r := AddAnchors(anchors, clips);
      ClipAnchorsFramed(clips);
    }

    /**
     * The loop of `snap`: every track, in timeline order, is listed through `getClips`, which
     * orders it in place, and the start and end of each of its clips are collected.
     */
    method ListAnchors() returns (anchors: seq<int>)
      modifies timeline.tracks
      ensures forall t | t in timeline.tracks :: t.clips == old(ByStart(t.clips))
      ensures anchors == old(TrackAnchors(timeline.tracks))
    {
      var tracks := timeline.tracks;
      anchors := [];
      var i := 0;
      while i < |tracks|
        invariant 0 <= i <= |tracks|
        invariant forall t | t in tracks :: t.clips == old(t.clips) || t.clips == old(ByStart(t.clips))
        invariant forall t | t in tracks[..i] :: t.clips == old(ByStart(t.clips))
        invariant anchors == old(TrackAnchors(tracks[..i]))
      {
        var track := tracks[i];
        ByStartFramed(old(track.clips));
        ClipAnchorsFramed(old(ByStart(track.clips)));
        anchors := ListTrack(track, anchors, old(track.clips));
        assert tracks[..i + 1] == tracks[..i] + [track];
        i := i + 1;
      }
      assert tracks[..i] == tracks;
    }

    /** `snap`: the collected anchors go to the snap engine with the target. */
    method Snap(target: int) returns (r: int)
      modifies timeline.tracks
      ensures forall t | t in timeline.tracks :: t.clips == old(ByStart(t.clips))
      ensures r == SnapTo(target, old(TrackAnchors(timeline.tracks)), snapEngine.threshold)
    {
      var anchors := ListAnchors();
      r := snapEngine.Snap(target, anchors);
    }

    /** The last step of `addClip`: an add command for the clip is pushed, which runs it. */
    method PushAdd(trackId: nat, clip: TimelineClip) returns (command: AddClipCommand)
      modifies timeline, timeline.tracks, commandStack
      ensures fresh(command) && command.timeline == timeline && command.trackId == trackId && command.clip == clip
      ensures commandStack.undoStack == [Add(command)] + old(commandStack.undoStack) && commandStack.redoStack == []
      ensures timeline.tracks == old(timeline.tracks)
      ensures forall t | t in timeline.tracks ::
        t.clips == (if timeline.FindTrack(trackId) == Some(t) then ByStart(old(t.clips) + [clip]) else old(t.clips))
    {
      command := PushAddCommand(trackId, clip);
      forall t | t in timeline.tracks && timeline.FindTrack(trackId) == Some(t)
        ensures t.clips == ByStart(old(t.clips) + [clip])
      {
        ByStartFramed(old(t.clips) + [clip]);
      }
    }

    /** The push of `PushAdd`, with the new order stated in the state before it. */
    method PushAddCommand(trackId: nat, clip: TimelineClip) returns (command: AddClipCommand)
      modifies timeline, timeline.tracks, commandStack
      ensures fresh(command) && command.timeline == timeline && command.trackId == trackId && command.clip == clip
      ensures commandStack.undoStack == [Add(command)] + old(commandStack.undoStack) && commandStack.redoStack == []
      ensures timeline.tracks == old(timeline.tracks)
      ensures forall t | t in timeline.tracks ::
        t.clips == (if timeline.FindTrack(trackId) == Some(t) then old(ByStart(t.clips + [clip])) else old(t.clips))
    {
      command := new AddClipCommand(timeline, trackId, clip);
      var ok := commandStack.Push(Add(command), clip.id);
    }

    /**
     * `addClip`: the start is snapped first (which orders every track), then the clip is built,
     * which rejects a duration that is not positive, and an add command for it is pushed.
     * `clipId` is the random UUID of the new clip.
     */
    method AddClip(trackId: nat, source: string, start: int, duration: int, clipId: nat) returns (ok: bool)
      modifies timeline, timeline.tracks, commandStack
      ensures ok <==> duration > 0
      ensures timeline.tracks == old(timeline.tracks)
      ensures !ok ==> commandStack.undoStack == old(commandStack.undoStack) && commandStack.redoStack == old(commandStack.redoStack)
      ensures !ok ==> forall t | t in timeline.tracks :: t.clips == old(ByStart(t.clips))
      ensures ok ==> (commandStack.redoStack == [] && |commandStack.undoStack| == |old(commandStack.undoStack)| + 1
        && commandStack.undoStack[1..] == old(commandStack.undoStack))
      ensures ok ==> var c := commandStack.undoStack[0];
        && c.Add? && fresh(c.add) && c.add.timeline == timeline && c.add.trackId == trackId
        && fresh(c.add.clip) && c.add.clip.id == clipId && c.add.clip.source == source
        && c.add.clip.Fields() == ClipFields(SnapTo(start, old(TrackAnchors(timeline.tracks)), snapEngine.threshold), duration,
          1.0, 0.0, NoTransition, NoTransition)
        && (forall t | t in timeline.tracks ::
          t.clips == (if timeline.FindTrack(trackId) == Some(t) then ByStart(old(t.clips) + [c.add.clip]) else old(ByStart(t.clips))))
    {
      var snapped := Snap(start);
      var created := TimelineClip.Create(clipId, source, snapped, duration);
      if created.Err? {
        return false;
      }
      var clip := created.value;
      var found := timeline.FindTrack(trackId);
      label Listed:
      var command := PushAdd(trackId, clip);
      forall t | t in timeline.tracks
        ensures t.clips == (if found == Some(t) then ByStart(old(t.clips) + [clip]) else old(ByStart(t.clips)))
      {
        if found == Some(t) {
          ByStartFramed(old(t.clips));
          ByStartAfterByStart(old(t.clips), [clip]);
          assert t.clips == ByStart(old@Listed(t.clips) + [clip]);
        }
      }
      ok := true;
    }

    /** The lookup of `splitClip` and `trimClip`; listing the track's clips orders it. */
    method FindClip(trackId: nat, clipId: nat) returns (clip: Option<TimelineClip>)
      modifies timeline.tracks
      ensures clip == old(Located(timeline, trackId, clipId))
      ensures clip.Some? ==> clip.value in old(timeline.AllClips())
      ensures forall t | t in timeline.tracks ::
        t.clips == if timeline.FindTrack(trackId) == Some(t) then old(ByStart(t.clips)) else old(t.clips)
    {
      var found := timeline.FindTrack(trackId);
      if found.None? {
        return None;
      }
      var clips := found.value.GetClips();
      clip := FirstWithClipId(clips, clipId);
      if clip.Some? {
        assert clip.value in clips;
        assert found.value in old(timeline.tracks) && clip.value in old(found.value.clips);
      }
    }

    /**
     * The last step of `splitClip`: a split command for the clip is pushed, which runs it. The
     * right part, when there is one, joins the track the command finds.
     */
    method PushSplit(trackId: nat, clip: TimelineClip, splitPoint: int, rightId: nat) returns (ok: bool)
      requires clip.Valid()
      modifies timeline, timeline.tracks, commandStack, clip
      ensures timeline.tracks == old(timeline.tracks)
      ensures ok <==> splitPoint != old(clip.start)
      ensures !ok ==> commandStack.undoStack == old(commandStack.undoStack) && commandStack.redoStack == old(commandStack.redoStack)
      ensures ok ==> (commandStack.redoStack == [] && |commandStack.undoStack| == |old(commandStack.undoStack)| + 1
        && commandStack.undoStack[1..] == old(commandStack.undoStack)
        && var c := commandStack.undoStack[0];
          c.Split? && fresh(c.split) && c.split.timeline == timeline && c.split.trackId == trackId
          && c.split.originalClip == clip && c.split.splitPoint == splitPoint)
      ensures var rel := splitPoint - old(clip.start);
        rel <= 0 || rel >= old(clip.duration) ==>
          clip.Fields() == old(clip.Fields()) && forall t | t in timeline.tracks :: t.clips == old(t.clips)
      ensures var rel := splitPoint - old(clip.start);
        0 < rel < old(clip.duration) ==> (
          var right := commandStack.undoStack[0].split.rightClip;
          && right.Some? && fresh(right.value) && right.value.id == rightId && right.value.source == clip.source
          && right.value.Fields() == ClipFields(splitPoint, old(clip.duration) - rel,
            old(clip.playbackRate), old(clip.audioGainDb), old(clip.transitionOut), old(clip.transitionOut))
          && clip.Fields() == old(clip.Fields()).(duration := rel)
          && forall t | t in timeline.tracks ::
            t.clips == if timeline.FindTrack(trackId) == Some(t) then ByStart(old(t.clips) + [right.value]) else old(t.clips))
    {
      var command := new SplitClipCommand(timeline, trackId, clip, splitPoint);
      ok := commandStack.Push(Split(command), rightId);
      var found := timeline.FindTrack(trackId);
      if command.rightClip.Some? && found.Some? {
        var track := found.value;
        var right := command.rightClip.value;
        KeyedKeepsStarts(old(track.clips));
        KeyedAppend(old(track.clips), right);
      }
    }

    /**
     * `splitClip`: the clip is looked up on its track (ordering that track) and, if found, a split
     * command for it is pushed. `ok` is false where the split throws: at the clip's start.
     * `rightId` is the random UUID of the right part.
     */
    method SplitClip(trackId: nat, clipId: nat, splitPoint: int, rightId: nat) returns (ok: bool)
      requires forall c | c in timeline.AllClips() :: c.Valid()
      modifies timeline, timeline.tracks, commandStack, LocatedSet(timeline, trackId, clipId)
      ensures timeline.tracks == old(timeline.tracks)
      ensures old(Located(timeline, trackId, clipId)).None? ==>
        && ok && commandStack.undoStack == old(commandStack.undoStack) && commandStack.redoStack == old(commandStack.redoStack)
        && forall t | t in timeline.tracks ::
          t.clips == if timeline.FindTrack(trackId) == Some(t) then old(ByStart(t.clips)) else old(t.clips)
      ensures old(Located(timeline, trackId, clipId)).Some? ==>
        var clip := old(Located(timeline, trackId, clipId)).value;
        var before := old(Located(timeline, trackId, clipId).value.Fields());
        var rel := splitPoint - before.start;
        && (ok <==> rel != 0)
        && (!ok ==> commandStack.undoStack == old(commandStack.undoStack) && commandStack.redoStack == old(commandStack.redoStack))
        && (ok ==>
          && commandStack.redoStack == [] && |commandStack.undoStack| == |old(commandStack.undoStack)| + 1
          && commandStack.undoStack[1..] == old(commandStack.undoStack)
          && (var c := commandStack.undoStack[0];
            c.Split? && fresh(c.split) && c.split.timeline == timeline && c.split.trackId == trackId
            && c.split.originalClip == clip && c.split.splitPoint == splitPoint))
        && ((rel <= 0 || rel >= before.duration) ==>
          clip.Fields() == before
          && forall t | t in timeline.tracks ::
            t.clips == if timeline.FindTrack(trackId) == Some(t) then old(ByStart(t.clips)) else old(t.clips))
        && (0 < rel < before.duration ==>
          var right := commandStack.undoStack[0].split.rightClip;
          && right.Some? && fresh(right.value) && right.value.id == rightId && right.value.source == clip.source
          && right.value.Fields() == before.(start := splitPoint, duration := before.duration - rel, transitionIn := before.transitionOut)
          && clip.Fields() == before.(duration := rel)
          && forall t | t in timeline.tracks ::
            t.clips == if timeline.FindTrack(trackId) == Some(t) then ByStart(old(ByStart(t.clips)) + [right.value]) else old(t.clips))
    {
      var target := FindClip(trackId, clipId);
      if target.None? {
        return true;
      }
      ok := PushSplit(trackId, target.value, splitPoint, rightId);
    }

    /** The last step of `trimClip`: a trim command for the clip is pushed, which runs it. */
    method PushTrim(clip: TimelineClip, newStart: int, newDuration: int) returns (ok: bool)
      modifies commandStack, clip
      ensures ok <==> newDuration > 0
      ensures !ok ==> commandStack.undoStack == old(commandStack.undoStack) && commandStack.redoStack == old(commandStack.redoStack)
      ensures ok ==> (commandStack.redoStack == [] && |commandStack.undoStack| == |old(commandStack.undoStack)| + 1
        && commandStack.undoStack[1..] == old(commandStack.undoStack)
        && var c := commandStack.undoStack[0];
          c.Trim? && fresh(c.trim) && c.trim.clip == clip && c.trim.newStart == newStart && c.trim.newDuration == newDuration
          && c.trim.previousStart == Some(old(clip.start)) && c.trim.previousDuration == Some(old(clip.duration)))
      ensures clip.Fields() == old(clip.Fields()).(start := newStart, duration := if ok then newDuration else old(clip.duration))
    {
      var command := new TrimClipCommand(clip, newStart, newDuration);
      ok := commandStack.Push(Trim(command), 0);
    }

    /**
     * `trimClip`: the clip is looked up as for `splitClip` and, if found, a trim command for it
     * is pushed. `ok` is false where the trim throws, a duration that is not positive, which
     * leaves the new start in place.
     */
    method TrimClip(trackId: nat, clipId: nat, newStart: int, newDuration: int) returns (ok: bool)
      modifies timeline.tracks, commandStack, LocatedSet(timeline, trackId, clipId)
      ensures forall t | t in timeline.tracks ::
        t.clips == if timeline.FindTrack(trackId) == Some(t) then old(ByStart(t.clips)) else old(t.clips)
      ensures old(Located(timeline, trackId, clipId)).None? ==>
        ok && commandStack.undoStack == old(commandStack.undoStack) && commandStack.redoStack == old(commandStack.redoStack)
      ensures old(Located(timeline, trackId, clipId)).Some? ==>
        var clip := old(Located(timeline, trackId, clipId)).value;
        var before := old(Located(timeline, trackId, clipId).value.Fields());
        && (ok <==> newDuration > 0)
        && (!ok ==> commandStack.undoStack == old(commandStack.undoStack) && commandStack.redoStack == old(commandStack.redoStack))
        && (ok ==>
          && commandStack.redoStack == [] && |commandStack.undoStack| == |old(commandStack.undoStack)| + 1
          && commandStack.undoStack[1..] == old(commandStack.undoStack)
          && (var c := commandStack.undoStack[0];
            c.Trim? && fresh(c.trim) && c.trim.clip == clip && c.trim.newStart == newStart && c.trim.newDuration == newDuration
            && c.trim.previousStart == Some(before.start) && c.trim.previousDuration == Some(before.duration)))
        && clip.Fields() == before.(start := newStart, duration := if ok then newDuration else before.duration)
    {
      var target := FindClip(trackId, clipId);
      if target.None? {
        return true;
      }
      ok := PushTrim(target.value, newStart, newDuration);
    }

    /**
     * The last step of `rippleDelete`: the new command is pushed, which runs it. The state it
     * starts from is passed in as a snapshot: the track, its clips sorted by start, their
     * starts and fields, and the clips of every track.
     */
    method PushRipple(command: RippleDeleteCommand, ghost track0: Option<TimelineTrack>, ghost sorted0: seq<TimelineClip>,
                      ghost starts0: map<TimelineClip, int>, ghost fields0: map<TimelineClip, ClipFields>,
                      ghost clips0: map<TimelineTrack, seq<TimelineClip>>)
      returns (ok: bool)
      requires command.timeline == timeline && command.movedClips == []
      requires track0 == timeline.FindTrack(command.trackId) && clips0 == ClipsOf(timeline.tracks)
      requires track0.Some? ==> Snapshot(timeline, track0.value, sorted0, starts0, fields0, clips0)
      modifies command, timeline, timeline.tracks, commandStack, RippleTargets(timeline, command.trackId)
      ensures ok && timeline.tracks == old(timeline.tracks)
      ensures (commandStack.redoStack == [] && |commandStack.undoStack| == |old(commandStack.undoStack)| + 1
        && commandStack.undoStack[1..] == old(commandStack.undoStack)
        && commandStack.undoStack[0] == Ripple(command))
      ensures track0.None? ==>
        commandStack.undoStack[0].ripple.movedClips == [] && forall t | t in timeline.tracks :: t.clips == clips0[t]
      ensures track0.Some? ==>
        ShiftedFrom(timeline, track0.value, command.start, command.end, commandStack.undoStack[0].ripple.movedClips,
          sorted0, starts0, fields0, clips0)
    {
      ok := commandStack.Push(Ripple(command), 0);
    }

    /**
     * `rippleDelete`: a ripple delete command is pushed, which runs it. `ok` is false where its
     * constructor throws, an end not after the start; then nothing changes.
     */
    method RippleDelete(trackId: nat, start: int, end: int) returns (ok: bool)
      modifies timeline, timeline.tracks, commandStack, RippleTargets(timeline, trackId)
      ensures timeline.tracks == old(timeline.tracks)
      ensures ok <==> end > start
      ensures !ok ==> (commandStack.undoStack == old(commandStack.undoStack) && commandStack.redoStack == old(commandStack.redoStack)
        && forall t | t in timeline.tracks :: t.clips == old(t.clips))
      ensures ok ==> (commandStack.redoStack == [] && |commandStack.undoStack| == |old(commandStack.undoStack)| + 1
        && commandStack.undoStack[1..] == old(commandStack.undoStack)
        && var c := commandStack.undoStack[0];
          c.Ripple? && fresh(c.ripple) && c.ripple.timeline == timeline && c.ripple.trackId == trackId
          && c.ripple.start == start && c.ripple.end == end)
      ensures ok && old(timeline.FindTrack(trackId)).None? ==>
        commandStack.undoStack[0].ripple.movedClips == [] && forall t | t in timeline.tracks :: t.clips == old(t.clips)
      ensures ok && old(timeline.FindTrack(trackId)).Some? ==>
        Rippled(timeline, old(timeline.FindTrack(trackId)).value, start, end, commandStack.undoStack[0].ripple.movedClips)
    {
      ghost var track0 := timeline.FindTrack(trackId);
      ghost var clips0 := ClipsOf(timeline.tracks);
      ghost var sorted0, starts0, fields0 := [], map[], map[];
      if track0.Some? {
        sorted0, starts0, fields0 := ByStart(track0.value.clips), StartsOf(track0.value.clips), FieldsOf(track0.value.clips);
        assert Snapshot(timeline, track0.value, sorted0, starts0, fields0, clips0);
      }
      var created := RippleDeleteCommand.Create(timeline, trackId, start, end);
      if created.Err? {
        return false;
      }
      var command := created.value;
      if track0.Some? {
        ByStartFramed(track0.value.clips);
        StartsOfFramed(track0.value.clips);
        FieldsOfFramed(track0.value.clips);
      }
      ClipsOfFramed(timeline.tracks);
      ok := PushRipple(command, track0, sorted0, starts0, fields0, clips0);
      if track0.None? {
        forall t | t in timeline.tracks
          ensures t.clips == old(t.clips)
        {
          assert clips0[t] == old(t.clips);
        }
      }
    }
  }
}
