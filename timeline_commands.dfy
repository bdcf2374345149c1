/**
 * The undoable edits of the timeline. Each command records what its `undo` needs while it
 * executes; what one call changes is stated by a two-state predicate over exactly the
 * objects the command touches, so that the command stack can pass it on.
 */
module TimelineCommands {
  import opened Wrappers
  import opened TimelineModel

  /** `AddClipCommand`: adds one clip object to the track with the given id, if the timeline has one. */
  class AddClipCommand {
    const timeline: Timeline
    const trackId: nat
    const clip: TimelineClip

    constructor (timeline: Timeline, trackId: nat, clip: TimelineClip)
      ensures this.timeline == timeline && this.trackId == trackId && this.clip == clip
    {
      this.timeline := timeline;
      this.trackId := trackId;
      this.clip := clip;
    }

    ghost function Footprint(): set<object>
      reads timeline
    {
      set t | t in timeline.tracks
    }

    /** The track is looked up each time the command runs. */
    twostate predicate Executed()
      reads timeline, timeline.tracks
    {
      timeline.tracks == old(timeline.tracks)
      && forall t | t in timeline.tracks ::
        t.clips == (if timeline.FindTrack(trackId) == Some(t) then old(ByStart(t.clips + [clip])) else old(t.clips))
    }

    twostate predicate Undone()
      reads timeline, timeline.tracks
    {
      timeline.tracks == old(timeline.tracks)
      && forall t | t in timeline.tracks ::
        t.clips == (if timeline.FindTrack(trackId) == Some(t) then RemoveFirst(old(t.clips), clip) else old(t.clips))
    }

    /** `execute`: an unknown track id does nothing. */
    method Execute()
      modifies Footprint()
      ensures Executed()
    {
      var found := timeline.FindTrack(trackId);
      if found.Some? {
        found.value.AddClip(clip);
      }
    }

    /** `undo`: removes that clip object again; an unknown track id does nothing. */
    method Undo()
      modifies Footprint()
      ensures Undone()
    {
      var found := timeline.FindTrack(trackId);
      if found.Some? {
        found.value.RemoveClip(clip);
      }
    }
  }

  /** `SplitClipCommand`: cuts a clip in two at a timeline position; the right part is a new clip. */
  class SplitClipCommand {
    const timeline: Timeline
    const trackId: nat
    const originalClip: TimelineClip
    const splitPoint: int
    var rightClip: Option<TimelineClip>

    constructor (timeline: Timeline, trackId: nat, originalClip: TimelineClip, splitPoint: int)
      ensures this.timeline == timeline && this.trackId == trackId
      ensures this.originalClip == originalClip && this.splitPoint == splitPoint && rightClip.None?
    {
      this.timeline := timeline;
      this.trackId := trackId;
      this.originalClip := originalClip;
      this.splitPoint := splitPoint;
      rightClip := None;
    }

    /** The clips' invariant, which the command relies on. */
    ghost predicate Valid()
      reads this, originalClip, RightSet()
    {
      originalClip.Valid() && (rightClip.Some? ==> rightClip.value.Valid())
    }

    ghost function RightSet(): set<object>
      reads this
    {
      if rightClip.Some? then {rightClip.value} else {}
    }

    ghost function Footprint(): set<object>
      reads timeline
    {
      {this as object, originalClip} + set t: TimelineTrack | t in timeline.tracks :: t as object
    }

    /**
     * A split point before the clip or at or after its end changes nothing; one exactly at
     * the start makes `setDuration(0)` throw, also before anything has changed. Otherwise the
     * original keeps `splitPoint - start`, and a new clip starting at the split point takes
     * the rest, the rate, the gain and, for both its transitions, the original's outgoing one.
     */
    twostate predicate Executed(ok: bool, rightId: nat)
      reads this, originalClip, timeline, timeline.tracks, RightSet()
    {
      var rel := splitPoint - old(originalClip.start);
      timeline.tracks == old(timeline.tracks)
      && if rel <= 0 || rel >= old(originalClip.duration) then
        ok == (rel != 0) && rightClip == old(rightClip) && originalClip.Fields() == old(originalClip.Fields())
        && forall t | t in timeline.tracks :: t.clips == old(t.clips)
      else
        ok && rightClip.Some? && fresh(rightClip.value)
        && rightClip.value.id == rightId && rightClip.value.source == originalClip.source
        && rightClip.value.Fields() == ClipFields(splitPoint, old(originalClip.duration) - rel,
          old(originalClip.playbackRate), old(originalClip.audioGainDb), old(originalClip.transitionOut), old(originalClip.transitionOut))
        && originalClip.Fields() == old(originalClip.Fields()).(duration := rel)
        && forall t | t in timeline.tracks ::
          t.clips == (if timeline.FindTrack(trackId) == Some(t) then Order(old(Keyed(t.clips)) + [(splitPoint, rightClip.value)])
                      else old(t.clips))
    }

    /** Without a performed split nothing changes; otherwise the durations are merged back and the right clip is removed and forgotten. */
    twostate predicate Undone()
      reads this, originalClip, timeline, timeline.tracks
    {
      timeline.tracks == old(timeline.tracks) && rightClip.None?
      && if old(rightClip).None? then
        originalClip.Fields() == old(originalClip.Fields()) && forall t | t in timeline.tracks :: t.clips == old(t.clips)
      else
        originalClip.Fields() == old(originalClip.Fields()).(duration := old(originalClip.duration + rightClip.value.duration))
        && forall t | t in timeline.tracks ::
          t.clips == (if timeline.FindTrack(trackId) == Some(t) then RemoveFirst(old(t.clips), old(rightClip.value)) else old(t.clips))
    }

    /** `execute`; `ok` is false where the Java code throws. `rightId` is the random UUID of the new clip. */
    method Execute(rightId: nat) returns (ok: bool)
      requires originalClip.Valid()
      modifies Footprint()
      ensures Executed(ok, rightId)
    {
      var relativeSplit := splitPoint - originalClip.start;
      if relativeSplit < 0 || relativeSplit >= originalClip.duration {
        return true;
      }
      var found := timeline.FindTrack(trackId);
      ghost var before := if found.Some? then Keyed(found.value.clips) else [];
      var leftDuration := relativeSplit;
      var rightDuration := originalClip.duration - relativeSplit;
      ok := originalClip.SetDuration(leftDuration);
      if !ok {
        return;
      }
      var right := RightPart(rightId, originalClip, splitPoint, rightDuration);
      rightClip := Some(right);
      if found.Some? {
        var track := found.value;
        assert track in timeline.tracks;
        forall i | 0 <= i < |track.clips| ensures Keyed(track.clips)[i] == before[i] {
        }
        assert Keyed(track.clips) == before;
        KeyedAppend(track.clips, right);
        track.AddClip(right);
        assert track.clips == Order(before + [(splitPoint, right)]);
        assert timeline.FindTrack(trackId) == found;
      }
    }

    /** The right half of a split: `new TimelineClip(source, splitPoint, rightDuration)` given the original's settings. */
    static method RightPart(rightId: nat, original: TimelineClip, splitPoint: int, rightDuration: int) returns (right: TimelineClip)
      requires rightDuration > 0 && original.Valid()
      ensures fresh(right) && right.id == rightId && right.source == original.source
      ensures right.Fields() == ClipFields(splitPoint, rightDuration,
        original.playbackRate, original.audioGainDb, original.transitionOut, original.transitionOut)
    {
      right := new TimelineClip(rightId, original.source, splitPoint, rightDuration);
      var rateOk := right.SetPlaybackRate(original.playbackRate);
      right.SetAudioGainDb(original.audioGainDb);
      right.SetTransitionOut(original.transitionOut);
      right.SetTransitionIn(original.transitionOut);
    }

    /** `undo`. */
    method Undo()
      requires Valid()
      modifies Footprint()
      ensures Undone()
    {
      if rightClip.None? {
        return;
      }
      var right := rightClip.value;
      var mergedDuration := originalClip.duration + right.duration;
      var ok := originalClip.SetDuration(mergedDuration);
      var found := timeline.FindTrack(trackId);
      if found.Some? {
        assert found.value in timeline.tracks;
        found.value.RemoveClip(right);
      }
      rightClip := None;
    }
  }

  /** `TrimClipCommand`: gives one clip a new start and duration, remembering the old ones. */
  class TrimClipCommand {
    const clip: TimelineClip
    const newStart: int
    const newDuration: int
    var previousStart: Option<int>
    var previousDuration: Option<int>

    constructor (clip: TimelineClip, newStart: int, newDuration: int)
      ensures this.clip == clip && this.newStart == newStart && this.newDuration == newDuration
      ensures previousStart.None? && previousDuration.None?
    {
      this.clip := clip;
      this.newStart := newStart;
      this.newDuration := newDuration;
      previousStart := None;
      previousDuration := None;
    }

    /** The constructor's null checks on the clip, the start and the duration. */
    static method Create(clip: Option<TimelineClip>, newStart: Option<int>, newDuration: Option<int>)
      returns (r: Result<TrimClipCommand>)
      ensures clip.None? || newStart.None? || newDuration.None? <==> r.Err?
      ensures r.Err? ==> r.error == NullArgument
      ensures r.Ok? ==> (fresh(r.value) && r.value.clip == clip.value && r.value.newStart == newStart.value
        && r.value.newDuration == newDuration.value && r.value.previousStart.None? && r.value.previousDuration.None?)
    {
      if clip.None? || newStart.None? || newDuration.None? {
        return Err(NullArgument);
      }
      var c := new TrimClipCommand(clip.value, newStart.value, newDuration.value);
      return Ok(c);
    }

    ghost function Footprint(): set<object>
    {
      {this, clip}
    }

    /**
     * The previous start and duration are recorded and the start is set; a duration that is not
     * positive then throws, leaving the update partial (new start, old duration).
     */
    twostate predicate Executed(ok: bool)
      reads this, clip
    {
      previousStart == Some(old(clip.start)) && previousDuration == Some(old(clip.duration))
      && (ok <==> newDuration > 0)
      && clip.Fields() == old(clip.Fields()).(start := newStart, duration := if ok then newDuration else old(clip.duration))
    }

    /**
     * Both saved values are restored. Before any execution the saved start is null and
     * `setStart(null)` throws at once; a saved duration that is not positive throws after the
     * start has been restored.
     */
    twostate predicate Undone(ok: bool)
      reads this, clip
    {
      previousStart == old(previousStart) && previousDuration == old(previousDuration)
      && (ok <==> previousStart.Some? && previousDuration.Some? && previousDuration.value > 0)
      && clip.Fields() == (
        if previousStart.None? then old(clip.Fields())
        else if ok then old(clip.Fields()).(start := previousStart.value, duration := previousDuration.value)
        else old(clip.Fields()).(start := previousStart.value))
    }

    method Execute() returns (ok: bool)
      modifies Footprint()
      ensures Executed(ok)
    {
      previousStart := Some(clip.start);
      previousDuration := Some(clip.duration);
      clip.SetStart(newStart);
      ok := clip.SetDuration(newDuration);
    }

    method Undo() returns (ok: bool)
      modifies clip
      ensures Undone(ok)
    {
      if previousStart.None? {
        return false;
      }
      clip.SetStart(previousStart.value);
      if previousDuration.None? {
        return false;
      }
      ok := clip.SetDuration(previousDuration.value);
    }
  }

  /** A clip moved by a ripple delete and the start it had before. */
  datatype ClipState = ClipState(clip: TimelineClip, originalStart: int)

  /**
   * The shift a ripple delete applies, clip after clip in list order, with `starts` the
   * starts before it: each clip whose current start is at or after `end` moves left by
   * `delta` and is recorded with the start it had. A clip listed twice is seen twice.
   */
  function Shift(cs: seq<TimelineClip>, starts: map<TimelineClip, int>, end: int, delta: int)
    : (r: (map<TimelineClip, int>, seq<ClipState>))
    ensures r.0.Keys == starts.Keys
  {
    if cs == [] then (starts, [])
    else
      var prev := Shift(cs[..|cs| - 1], starts, end, delta);
      var c := cs[|cs| - 1];
      if c in prev.0 && prev.0[c] >= end then (prev.0[c := prev.0[c] - delta], prev.1 + [ClipState(c, prev.0[c])])
      else prev
  }

  /** `c` now starts at `s` and is otherwise as `f` says. */
  ghost predicate MovedTo(c: TimelineClip, f: ClipFields, s: int)
    reads c
  {
    c.Fields() == f.(start := s)
  }

  lemma ShiftStep(cs: seq<TimelineClip>, i: nat, starts: map<TimelineClip, int>, end: int, delta: int)
    requires i < |cs|
    ensures var prev := Shift(cs[..i], starts, end, delta);
      Shift(cs[..i + 1], starts, end, delta)
      == if cs[i] in prev.0 && prev.0[cs[i]] >= end then (prev.0[cs[i] := prev.0[cs[i]] - delta], prev.1 + [ClipState(cs[i], prev.0[cs[i]])])
         else prev
  {
    assert cs[..i + 1][..i] == cs[..i];
  }

  /** The fields of each clip of a list. */
  ghost function FieldsOf(cs: seq<TimelineClip>): map<TimelineClip, ClipFields>
    reads cs
  {
    map c | c in cs :: c.Fields()
  }

  /** The starts of the given clips. */
  function StartsOf(cs: seq<TimelineClip>): map<TimelineClip, int>
    reads cs
  {
    map c | c in cs :: c.start
  }

  /** The start recorded last for `c`, if `c` was recorded at all. */
  function LastStart(ms: seq<ClipState>, c: TimelineClip): Option<int>
  {
    if ms == [] then None
    else if ms[|ms| - 1].clip == c then Some(ms[|ms| - 1].originalStart)
    else LastStart(ms[..|ms| - 1], c)
  }

  lemma {:induction false} LastStartFound(ms: seq<ClipState>, s: ClipState)
    requires s in ms
    ensures LastStart(ms, s.clip).Some?
  {
    if ms[|ms| - 1].clip != s.clip {
      assert s in ms[..|ms| - 1] by {
        assert ms == ms[..|ms| - 1] + [ms[|ms| - 1]];
      }
      LastStartFound(ms[..|ms| - 1], s);
    }
  }

  /** No clip object is listed twice. */
  predicate Distinct(cs: seq<TimelineClip>)
  {
    forall i, j | 0 <= i < j < |cs| :: cs[i] != cs[j]
  }

  /**
   * On a list without repeated clips, the shift moves exactly the clips starting at or after
   * `end`, each by `delta`, and records each of them once with its start before the shift.
   */
  lemma {:induction false} ShiftDistinct(cs: seq<TimelineClip>, starts: map<TimelineClip, int>, end: int, delta: int)
    requires Distinct(cs) && forall c | c in cs :: c in starts
    ensures forall c | c in starts ::
      Shift(cs, starts, end, delta).0[c] == (if c in cs && starts[c] >= end then starts[c] - delta else starts[c])
    ensures forall c ::
      LastStart(Shift(cs, starts, end, delta).1, c) == (if c in cs && starts[c] >= end then Some(starts[c]) else None)
  {
    if cs != [] {
      var p := cs[..|cs| - 1];
      var x := cs[|cs| - 1];
      assert cs == p + [x];
      assert Distinct(p);
      ShiftDistinct(p, starts, end, delta);
      var prev := Shift(p, starts, end, delta);
      var now := Shift(cs, starts, end, delta);
      assert x !in p;
      assert prev.0[x] == starts[x];
      if starts[x] >= end {
        var recorded := prev.1 + [ClipState(x, starts[x])];
        assert now == (prev.0[x := starts[x] - delta], recorded);
        forall c | c in starts
          ensures now.0[c] == (if c in cs && starts[c] >= end then starts[c] - delta else starts[c])
        {
          if c != x {
            assert c in cs <==> c in p;
          }
        }
        assert recorded[..|recorded| - 1] == prev.1;
        forall c ensures LastStart(recorded, c) == (if c in cs && starts[c] >= end then Some(starts[c]) else None) {
          if c != x {
            assert c in cs <==> c in p;
          }
        }
      } else {
        assert now == prev;
        forall c | c in starts
          ensures now.0[c] == (if c in cs && starts[c] >= end then starts[c] - delta else starts[c])
        {
          assert c in cs <==> c in p || c == x;
        }
        forall c ensures LastStart(prev.1, c) == (if c in cs && starts[c] >= end then Some(starts[c]) else None) {
          assert c in cs <==> c in p || c == x;
        }
      }
    }
  }

  /**
   * A ripple delete over `[start, end)` leaves every clip that starts before `end` where it
   * is, moves every other clip to a start no earlier than `start`, and records for each moved
   * clip the start that undo puts back.
   */
  lemma RippleShiftProperties(cs: seq<TimelineClip>, starts: map<TimelineClip, int>, start: int, end: int)
    requires start < end && Distinct(cs) && forall c | c in cs :: c in starts
    ensures var r := Shift(cs, starts, end, end - start);
      forall c | c in cs ::
        && (starts[c] < end ==> r.0[c] == starts[c] && LastStart(r.1, c).None?)
        && (starts[c] >= end ==> start <= r.0[c] == starts[c] - (end - start) && LastStart(r.1, c) == Some(starts[c]))
  {
    ShiftDistinct(cs, starts, end, end - start);
  }

  /** `RippleDeleteCommand`: closes the gap `[start, end)` on one track by shifting later clips left. */
  class RippleDeleteCommand {
    const timeline: Timeline
    const trackId: nat
    const start: int
    const end: int
    var movedClips: seq<ClipState>

    constructor (timeline: Timeline, trackId: nat, start: int, end: int)
      requires end > start
      ensures this.timeline == timeline && this.trackId == trackId && this.start == start && this.end == end
      ensures movedClips == []
    {
      this.timeline := timeline;
      this.trackId := trackId;
      this.start := start;
      this.end := end;
      movedClips := [];
    }

    /** The constructor's check: the end must be after the start. */
    static method Create(timeline: Timeline, trackId: nat, start: int, end: int) returns (r: Result<RippleDeleteCommand>)
      ensures end <= start ==> r == Err(IllegalArgument)
      ensures end > start ==> (r.Ok? && fresh(r.value) && r.value.timeline == timeline && r.value.trackId == trackId
        && r.value.start == start && r.value.end == end && r.value.movedClips == [])
    {
      if end <= start {
        return Err(IllegalArgument);
      }
      var c := new RippleDeleteCommand(timeline, trackId, start, end);
      return Ok(c);
    }

    /** The clips on the target track, if there is one. */
    ghost function TargetClips(): set<TimelineClip>
      reads timeline, timeline.tracks
    {
      match timeline.FindTrack(trackId)
      case None => {}
      case Some(t) => set c | c in t.clips
    }

    ghost function MovedSet(): set<TimelineClip>
      reads this
    {
      set s | s in movedClips :: s.clip
    }

    /** What `execute` may change: the command's record, the tracks and the clips of the target track. */
    ghost function Footprint(): set<object>
      reads this, timeline, timeline.tracks
    {
      {this as object} + (set t: TimelineTrack | t in timeline.tracks :: t as object) + TargetClips()
    }

    /**
     * The target track is ordered by start, then every clip on it is shifted as `Shift`
     * says and the shifted ones are appended to the record; an unknown track id changes nothing.
     */
    twostate predicate Executed()
      reads this, timeline, timeline.tracks, TargetClips()
    {
      timeline.tracks == old(timeline.tracks)
      && match timeline.FindTrack(trackId)
        case None =>
          movedClips == old(movedClips) && forall t | t in timeline.tracks :: t.clips == old(t.clips)
        case Some(track) =>
          var r := Shift(track.clips, old(StartsOf(track.clips)), end, end - start);
          track.clips == old(ByStart(track.clips))
          && (forall t | t in timeline.tracks && t != track :: t.clips == old(t.clips))
          && movedClips == old(movedClips) + r.1
          && forall c | c in track.clips :: c in r.0 && MovedTo(c, old(c.Fields()), r.0[c])
    }

    /** Every recorded clip gets back the start recorded last for it, and the record is emptied. */
    twostate predicate Undone(moved: seq<ClipState>)
      reads this, set s | s in moved :: s.clip
    {
      moved == old(movedClips) && movedClips == []
      && forall s | s in moved ::
        LastStart(moved, s.clip).Some? && s.clip.Fields() == old(s.clip.Fields()).(start := LastStart(moved, s.clip).value)
    }

    method Execute()
      modifies Footprint()
      ensures Executed()
    {
      var found := timeline.FindTrack(trackId);
      if found.None? {
        return;
      }
      RippleTrack(found.value);
    }

    /** `execute` once the track has been found. */
    method RippleTrack(track: TimelineTrack)
      modifies this, track, set c | c in track.clips
      ensures track.clips == old(ByStart(track.clips))
      ensures movedClips == old(movedClips) + Shift(track.clips, old(StartsOf(track.clips)), end, end - start).1
      ensures forall c | c in track.clips ::
        && c in Shift(track.clips, old(StartsOf(track.clips)), end, end - start).0
        && MovedTo(c, old(c.Fields()), Shift(track.clips, old(StartsOf(track.clips)), end, end - start).0[c])
    {
      var delta := end - start;
      ghost var before := track.clips;
      ghost var starts := StartsOf(before);
      var clips := track.GetClips();
      assert forall c | c in clips :: c in before;
      assert forall c | c in clips :: c.Fields() == old(c.Fields());
      ShiftClips(clips, delta, starts);
    }

    /** The loop of `execute` over the ordered clips of the target track. */
    method ShiftClips(clips: seq<TimelineClip>, delta: int, ghost starts: map<TimelineClip, int>)
      requires forall c | c in clips :: c in starts && starts[c] == c.start
      modifies this, set c | c in clips
      ensures movedClips == old(movedClips) + Shift(clips, starts, end, delta).1
      ensures forall c | c in clips ::
        c in Shift(clips, starts, end, delta).0 && MovedTo(c, old(c.Fields()), Shift(clips, starts, end, delta).0[c])
    {
      ghost var moved0, fields0 := movedClips, FieldsOf(clips);
      var i := 0;
      while i < |clips|
        invariant 0 <= i <= |clips|
        invariant ShiftedUpTo(clips, i, starts, delta, moved0, fields0)
      {
        ShiftAt(clips, i, delta, starts, moved0, fields0);
        i := i + 1;
      }
      assert clips[..i] == clips;
    }

    /** The loop invariant of `ShiftClips`: the first `i` clips are processed. */
    ghost predicate ShiftedUpTo(clips: seq<TimelineClip>, i: nat, starts: map<TimelineClip, int>, delta: int,
                                moved0: seq<ClipState>, fields0: map<TimelineClip, ClipFields>)
      requires i <= |clips| && forall c | c in clips :: c in starts
      reads this, set c | c in clips
    {
      && movedClips == moved0 + Shift(clips[..i], starts, end, delta).1
      && forall c | c in clips :: c in fields0 && MovedTo(c, fields0[c], Shift(clips[..i], starts, end, delta).0[c])
    }

    /** One turn of the loop of `ShiftClips`: a clip from `end` on moves back by `delta`. */
    method ShiftAt(clips: seq<TimelineClip>, i: nat, delta: int, ghost starts: map<TimelineClip, int>,
                   ghost moved0: seq<ClipState>, ghost fields0: map<TimelineClip, ClipFields>)
      requires i < |clips| && forall c | c in clips :: c in starts
      requires ShiftedUpTo(clips, i, starts, delta, moved0, fields0)
      modifies this, clips[i]
      ensures ShiftedUpTo(clips, i + 1, starts, delta, moved0, fields0)
    {
      var clip := clips[i];
      ShiftStep(clips, i, starts, end, delta);
      ghost var prev := Shift(clips[..i], starts, end, delta);
      assert clip.start == prev.0[clip];
      if clip.start >= end {
        movedClips := movedClips + [ClipState(clip, clip.start)];
        clip.SetStart(clip.start - delta);
      }
    }

    method Undo()
      modifies this, MovedSet()
      ensures Undone(old(movedClips))
    {
      var i := 0;
      ghost var fields := map s | s in movedClips :: s.clip.Fields();
      while i < |movedClips|
        invariant 0 <= i <= |movedClips| && movedClips == old(movedClips)
        invariant forall s | s in movedClips :: (s.clip.Fields() ==
          if LastStart(movedClips[..i], s.clip).Some? then fields[s].(start := LastStart(movedClips[..i], s.clip).value) else fields[s])
      {
        var state := movedClips[i];
        assert movedClips[..i + 1][..i] == movedClips[..i];
        state.clip.SetStart(state.originalStart);
        i := i + 1;
      }
      assert movedClips[..i] == movedClips;
      forall s | s in movedClips ensures LastStart(movedClips, s.clip).Some? {
        LastStartFound(movedClips, s);
      }
      movedClips := [];
    }
  }
}
