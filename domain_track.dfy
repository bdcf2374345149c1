/**
 * The project-level track of the domain model: an insertion-ordered list of immutable clips
 * whose length is the sum of the clips' durations.
 */
module DomainTracks {
  import opened Wrappers
  import opened TimelineModel

  /** An immutable source clip; `startOffset` and `duration` are milliseconds. */
  datatype Clip = Clip(id: nat, source: string, startOffset: int, duration: int)

  /** The durations added up, left to right from zero. */
  function TotalDuration(cs: seq<Clip>): (r: int)
    ensures cs == [] ==> r == 0
    ensures (forall i | 0 <= i < |cs| :: cs[i].duration >= 0) ==> r >= 0
  {
    if cs == [] then 0 else TotalDuration(cs[..|cs| - 1]) + cs[|cs| - 1].duration
  }

  /** The reduction splits over any cut of the list: the length of two runs of clips is the sum of theirs. */
  lemma {:induction false} TotalDurationConcat(a: seq<Clip>, b: seq<Clip>)
    ensures TotalDuration(a + b) == TotalDuration(a) + TotalDuration(b)
    decreases |b|
  {
    if b != [] {
      var b' := b[..|b| - 1];
      assert (a + b)[..|a + b| - 1] == a + b';
      TotalDurationConcat(a, b');
    } else {
      assert a + b == a;
    }
  }

  /** A track's clips, in the order they were added. */
  class Track {
    const id: nat
    const kind: TrackType
    var clips: seq<Clip>

    constructor (id: nat, kind: TrackType)
      ensures this.id == id && this.kind == kind && clips == []
    {
      this.id := id;
      this.kind := kind;
      clips := [];
    }

    /** `getDuration`. */
    function Duration(): int
      reads this
    {
      TotalDuration(clips)
    }

    /** `addClip`: appends without ordering; a null clip is rejected and nothing changes. */
    method AddClip(clip: Option<Clip>) returns (ok: bool)
      modifies this
      ensures ok <==> clip.Some?
      ensures clips == if ok then old(clips) + [clip.value] else old(clips)
      ensures Duration() == if ok then old(Duration()) + clip.value.duration else old(Duration())
    {
      if clip.None? {
        return false;
      }
      clips := clips + [clip.value];
      assert clips[..|clips| - 1] == old(clips);
      return true;
    }
  }
}
