/**
 * The editing scenarios of the timeline service's tests, restated on the model: a timeline with
 * one video track behind a service with a 100 ms snap threshold, then the edits of each test.
 * Each scenario returns what its test observes and proves that these are the values the test expects.
 */
module TimelineScenarios {
  import opened Wrappers
  import opened TimelineModel
  import opened TimelineCommands
  import opened CommandHistory
  import opened Snapping
  import opened TimelineServices
  import StableSort

  /** Clips already in start order keep their order. */
  lemma ByStartInOrder(cs: seq<TimelineClip>)
    requires forall i, j :: 0 <= i < j < |cs| ==> cs[i].start <= cs[j].start
    ensures ByStart(cs) == cs
  {
    var ks := Keyed(cs);
    assert StableSort.SortedBy(ks, StartKey);
    StableSort.SortOfSorted(ks, StartKey);
  }

  /** The setting of every test: a fresh timeline, its service with a 100 ms threshold, one video track. */
  method SetUp(trackId: nat) returns (timeline: Timeline, service: TimelineService, track: TimelineTrack)
    ensures fresh(timeline) && fresh(service) && fresh(service.commandStack) && fresh(track)
    ensures service.timeline == timeline && service.snapEngine.threshold == 100
    ensures timeline.tracks == [track] && track.id == trackId && track.kind == Video && track.clips == []
    ensures service.commandStack.undoStack == [] && service.commandStack.redoStack == []
  {
    timeline := new Timeline(0);
    service := new TimelineService(timeline, SnapEngine(100));
    track := service.AddTrack(Video, trackId);
  }

  /** The setting with one clip added through the service: with nothing to snap to, it lands where asked. */
  method SetUpWithClip(start: int, duration: int) returns (timeline: Timeline, service: TimelineService, track: TimelineTrack,
                                                         clip: TimelineClip)
    requires duration > 0
    ensures fresh(timeline) && fresh(service) && fresh(service.commandStack) && fresh(track) && fresh(clip)
    ensures service.timeline == timeline && service.snapEngine.threshold == 100
    ensures timeline.tracks == [track] && track.id == 1 && track.clips == [clip]
    ensures clip.id == 2 && clip.Fields() == ClipFields(start, duration, 1.0, 0.0, NoTransition, NoTransition)
    ensures service.commandStack.redoStack == [] && |service.commandStack.undoStack| == 1
    ensures var c := service.commandStack.undoStack[0];
      c.Add? && fresh(c.add) && c.add.timeline == timeline && c.add.trackId == 1 && c.add.clip == clip
  {
    timeline, service, track := SetUp(1);
    ByStartInOrder([]);
    assert TrackAnchors(timeline.tracks) == [] by {
      assert timeline.tracks[..0] == [];
    }
    var ok := service.AddClip(1, "clip.mp4", start, duration, 2);
    clip := service.commandStack.undoStack[0].add.clip;
    assert timeline.FindTrack(1) == Some(track);
    assert [] + [clip] == [clip];
    ByStartInOrder([clip]);
  }

  /** `addClipPlacesClipWithSnap`: with nothing to snap to, a clip added at 1 s is the track's one clip, at 1 s. */
  method AddClipScenario() returns (count: nat, start: int)
    ensures count == 1 && start == 1000
  {
    var timeline, service, track, clip := SetUpWithClip(1000, 3000);
    ByStartInOrder([clip]);
    var clips := track.GetClips();
    count, start := |clips|, clips[0].start;
  }

  /** The undo of the one add on the stack takes its clip off the one track. */
  method UndoAdd(stack: CommandStack, command: AddClipCommand, track: TimelineTrack)
    requires stack.undoStack == [Add(command)]
    requires command.timeline.tracks == [track] && track.id == command.trackId && track.clips == [command.clip]
    modifies stack, command.timeline, track
    ensures stack.undoStack == [] && stack.redoStack == [Add(command)] + old(stack.redoStack)
    ensures command.timeline.tracks == [track] && track.clips == []
  {
    var ok := stack.Undo();
    assert command.timeline.FindTrack(command.trackId) == Some(track);
  }

  /** The redo of that add puts the clip back. */
  method RedoAdd(stack: CommandStack, command: AddClipCommand, track: TimelineTrack, freshId: nat)
    requires stack.redoStack != [] && stack.redoStack[0] == Add(command)
    requires command.timeline.tracks == [track] && track.id == command.trackId && track.clips == []
    modifies stack, command.timeline, track
    ensures command.timeline.tracks == [track] && track.clips == [command.clip]
  {
    var ok := stack.Redo(freshId);
    assert command.timeline.FindTrack(command.trackId) == Some(track);
    assert [] + [command.clip] == [command.clip];
    ByStartInOrder([command.clip]);
  }

  /** `commandStackSupportsUndoRedo`: after one add there is something to undo; undo empties the track and redo restores its clip. */
  method UndoRedoScenario() returns (canUndo: bool, afterUndo: nat, afterRedo: nat)
    ensures canUndo && afterUndo == 0 && afterRedo == 1
  {
    var timeline, service, track, clip := SetUpWithClip(0, 5000);
    var command := service.commandStack.undoStack[0].add;
    canUndo := service.commandStack.CanUndo();
    UndoAdd(service.commandStack, command, track);
    ByStartInOrder([]);
    var clips := track.GetClips();
    afterUndo := |clips|;
    RedoAdd(service.commandStack, command, track, 3);
    ByStartInOrder([clip]);
    clips := track.GetClips();
    afterRedo := |clips|;
  }

  /** `trimClipUpdatesStartAndDuration`: trimming a 0–10 s clip to (2 s, 5 s) leaves it starting at 2 s and lasting 5 s. */
  method TrimScenario() returns (start: int, duration: int)
    ensures start == 2000 && duration == 5000
  {
    var timeline, service, track, clip := SetUpWithClip(0, 10000);
    ByStartInOrder([clip]);
    var clips := track.GetClips();
    var first := clips[0];
    assert Located(timeline, 1, first.id) == Some(clip) by {
      assert timeline.FindTrack(1) == Some(track);
    }
    var ok := service.TrimClip(1, first.id, 2000, 5000);
    start, duration := first.start, first.duration;
  }

  /** `splitClipCreatesTwoSegments`: splitting a 0–10 s clip at 4 s leaves two clips, of 4 s and then 6 s. */
  method SplitScenario() returns (count: nat, durations: seq<int>)
    ensures count == 2 && durations == [4000, 6000]
  {
    var timeline, service, track, clip := SetUpWithClip(0, 10000);
    var right := SplitAtFour(service, track, clip);
    ByStartInOrder([clip, right]);
    var clips := track.GetClips();
    count, durations := |clips|, [clips[0].duration, clips[1].duration];
  }

  /** The split of that scenario: the clip keeps 0–4 s and a new clip 4–10 s follows it. */
  method SplitAtFour(service: TimelineService, track: TimelineTrack, clip: TimelineClip) returns (right: TimelineClip)
    requires service.timeline.tracks == [track] && track.id == 1 && track.clips == [clip]
    requires clip.Fields() == ClipFields(0, 10000, 1.0, 0.0, NoTransition, NoTransition)
    modifies service.timeline, service.timeline.tracks, service.commandStack, track, clip
    ensures service.timeline.tracks == [track] && track.clips == [clip, right]
    ensures clip.start == 0 && clip.duration == 4000 && right.start == 4000 && right.duration == 6000
  {
    var timeline := service.timeline;
    ByStartInOrder([clip]);
    var clips := track.GetClips();
    var id := clips[0].id;
    assert Located(timeline, 1, id) == Some(clip) by {
      assert timeline.FindTrack(1) == Some(track);
    }
    assert LocatedSet(timeline, 1, id) == {clip};
    forall c | c in timeline.AllClips()
      ensures c.Valid()
    {
      var t :| t in timeline.tracks && c in t.clips;
    }
    var ok := service.SplitClip(1, id, 4000, 3);
    right := service.commandStack.undoStack[0].split.rightClip.value;
    assert track.clips == ByStart([clip, right]) by {
      assert timeline.FindTrack(1) == Some(track);
      assert [clip] + [right] == [clip, right];
    }
    ByStartInOrder([clip, right]);
  }

  /** A second clip added at 6 s, a second after the end of the first: too far to snap. */
  method AddSecond(service: TimelineService, track: TimelineTrack, first: TimelineClip) returns (second: TimelineClip)
    requires service.timeline.tracks == [track] && track.id == 1 && track.clips == [first]
    requires first.start == 0 && first.duration == 5000 && service.snapEngine.threshold == 100
    modifies service.timeline, service.timeline.tracks, service.commandStack
    ensures fresh(second) && second.start == 6000 && service.timeline.tracks == [track] && track.clips == [first, second]
  {
    var timeline := service.timeline;
    assert TrackAnchors(timeline.tracks) == [0, 5000] by {
      assert timeline.tracks[..0] == [];
      ByStartInOrder([first]);
      assert [first][..0] == [];
    }
    assert SnapTo(6000, [0, 5000], 100) == 6000 by {
      assert [0, 5000][..1] == [0];
      assert [0][..0] == [];
    }
    var ok := service.AddClip(1, "b.mp4", 6000, 5000, 3);
    second := service.commandStack.undoStack[0].add.clip;
    assert timeline.FindTrack(1) == Some(track);
    assert [first] + [second] == [first, second];
    ByStartInOrder([first, second]);
  }

  /** The ripple delete of 2–4 s: only the second clip starts at or after 4 s, and it moves back to 4 s. */
  method DeleteGap(service: TimelineService, track: TimelineTrack, first: TimelineClip, second: TimelineClip)
    returns (command: RippleDeleteCommand)
    requires service.timeline.tracks == [track] && track.id == 1 && track.clips == [first, second]
    requires first.start == 0 && second.start == 6000
    modifies service.timeline, service.timeline.tracks, service.commandStack, first, second
    ensures fresh(command) && service.commandStack.undoStack != [] && service.commandStack.undoStack[0] == Ripple(command)
    ensures command.timeline == service.timeline && command.trackId == 1
    ensures service.timeline.tracks == [track] && track.clips == [first, second]
    ensures command.movedClips == [ClipState(second, 6000)] && second.start == 4000
  {
    var timeline := service.timeline;
    assert first != second;
    ByStartInOrder([first, second]);
    assert RippleTargets(timeline, 1) == {first, second} by {
      assert timeline.FindTrack(1) == Some(track);
    }
    ghost var starts := StartsOf([first, second]);
    assert starts[first] == 0 && starts[second] == 6000;
    assert Shift([first], starts, 4000, 2000) == (starts, []) by {
      assert [first][..0] == [];
    }
    assert Shift([first, second], starts, 4000, 2000) == (starts[second := 4000], [ClipState(second, 6000)]) by {
      assert [first, second][..1] == [first];
      assert [] + [ClipState(second, 6000)] == [ClipState(second, 6000)];
    }
    var ok := service.RippleDelete(1, 2000, 4000);
    command := service.commandStack.undoStack[0].ripple;
    assert second in track.clips;
  }

  /** The undo of that delete puts the second clip back at the start it recorded. */
  method UndoDelete(stack: CommandStack, command: RippleDeleteCommand, track: TimelineTrack, first: TimelineClip,
                    second: TimelineClip)
    requires stack.undoStack != [] && stack.undoStack[0] == Ripple(command)
    requires command.timeline.tracks == [track] && track.id == command.trackId && track.clips == [first, second]
    requires command.movedClips == [ClipState(second, 6000)]
    modifies stack, command, command.timeline, track, first, second
    ensures second.start == 6000
  {
    assert command.timeline.FindTrack(command.trackId) == Some(track);
    assert Touched(Ripple(command)) <= {stack, command, command.timeline, track, first, second};
    var ok := stack.Undo();
  }

  /**
   * `rippleDeleteShiftsSubsequentClips`: with clips at 0–5 s and 6–11 s, deleting 2–4 s moves the
   * second clip back to 4 s, and undoing the delete puts it back at 6 s.
   */
  method RippleScenario() returns (original: int, shifted: int, restored: int)
    ensures original == 6000 && shifted == 4000 && restored == 6000
  {
    var timeline, service, track, first := SetUpWithClip(0, 5000);
    var second := AddSecond(service, track, first);
    ByStartInOrder([first, second]);
    var clips := track.GetClips();
    original := clips[1].start;
    var command := DeleteGap(service, track, first, second);
    shifted := second.start;
    UndoDelete(service.commandStack, command, track, first, second);
    restored := second.start;
  }

  /** `snapReturnsNearestAnchor`: with a clip over 5–7 s, 5.05 s snaps to the clip's start. */
  method SnapScenario() returns (snapped: int)
    ensures snapped == 5000
  {
    var timeline, service, track, clip := SetUpWithClip(5000, 2000);
    assert TrackAnchors(timeline.tracks) == [5000, 7000] by {
      assert timeline.tracks[..0] == [];
      ByStartInOrder([clip]);
      assert [clip][..0] == [];
    }
    SnapExample();
    snapped := service.Snap(5050);
  }

  /** `addTrackCreatesTrack`: a track added through the service is one of the timeline's tracks. */
  method AddTrackScenario() returns (registered: bool, count: nat)
    ensures registered && count == 2
  {
    var timeline, service, video := SetUp(1);
    var audio := service.AddTrack(Audio, 2);
    registered, count := audio in timeline.tracks, |timeline.tracks|;
  }
}
