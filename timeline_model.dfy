/**
 * The editable timeline: clips with mutable placement and settings, tracks that keep their
 * clips ordered by start, and the timeline holding the tracks, the playhead and the zoom.
 * `java.time.Duration` values are integers of milliseconds; UUIDs are natural numbers given
 * by the caller (the random generator is an input); paths are strings.
 */
module TimelineModel {
  import opened Wrappers
  import opened JavaNum
  import StableSort

  /** The transitions a clip edge can carry; only `NONE` is named by the modelled code. */
  datatype Transition = NoTransition | Named(name: string)

  /** The kind of a track; the modelled code creates video and audio tracks. */
  datatype TrackType = Video | Audio | OtherType(name: string)

  /** The mutable state of one clip, for stating what a setter leaves alone. */
  datatype ClipFields = ClipFields(
    start: int, duration: int, playbackRate: real, audioGainDb: real, transitionIn: Transition, transitionOut: Transition)

  class TimelineClip {
    const id: nat
    const source: string
    var start: int
    var duration: int
    var playbackRate: real
    var audioGainDb: real
    var transitionIn: Transition
    var transitionOut: Transition

    /** What the setters guarantee: a positive duration and a positive playback rate. */
    ghost predicate Valid()
      reads this
    {
      duration > 0 && playbackRate > 0.0
    }

    function Fields(): ClipFields
      reads this
    {
      ClipFields(start, duration, playbackRate, audioGainDb, transitionIn, transitionOut)
    }

    /** The constructor after its duration check has passed: rate 1, gain 0 dB, no transitions. */
    constructor (id: nat, source: string, start: int, duration: int)
      requires duration > 0
      ensures this.id == id && this.source == source
      ensures Fields() == ClipFields(start, duration, 1.0, 0.0, NoTransition, NoTransition)
      ensures Valid()
    {
      this.id := id;
      this.source := source;
      this.start := start;
      this.duration := duration;
      this.playbackRate := 1.0;
      this.audioGainDb := 0.0;
      this.transitionIn := NoTransition;
      this.transitionOut := NoTransition;
    }

    /** `new TimelineClip(id, source, start, duration)`: a duration that is not positive is rejected. */
    static method Create(id: nat, source: string, start: int, duration: int) returns (r: Result<TimelineClip>)
      ensures duration <= 0 ==> r == Err(IllegalArgument)
      ensures duration > 0 ==> (r.Ok? && fresh(r.value) && r.value.Valid()
        && r.value.id == id && r.value.source == source
        && r.value.Fields() == ClipFields(start, duration, 1.0, 0.0, NoTransition, NoTransition))
    {
      if duration <= 0 {
        return Err(IllegalArgument);
      }
      var clip := new TimelineClip(id, source, start, duration);
      return Ok(clip);
    }

    /** `getEnd()`: start plus duration, so a valid clip ends after it starts. */
    function End(): (e: int)
      reads this
      ensures e - start == duration
      ensures Valid() ==> e > start
    {
      start + duration
    }

    /** `setStart`: any start is accepted, negative ones included. */
    method SetStart(start: int)
      modifies this
      ensures Fields() == old(Fields()).(start := start)
    {
      this.start := start;
    }

    /** `setDuration`: zero and negative durations are rejected and leave the clip unchanged. */
    method SetDuration(duration: int) returns (ok: bool)
      modifies this
      ensures ok <==> duration > 0
      ensures ok ==> Fields() == old(Fields()).(duration := duration)
      ensures !ok ==> Fields() == old(Fields())
    {
      if duration <= 0 {
        return false;
      }
      this.duration := duration;
      return true;
    }

    /** `setPlaybackRate`: a rate that is not positive is rejected and leaves the clip unchanged. */
    method SetPlaybackRate(playbackRate: real) returns (ok: bool)
      modifies this
      ensures ok <==> playbackRate > 0.0
      ensures ok ==> Fields() == old(Fields()).(playbackRate := playbackRate)
      ensures !ok ==> Fields() == old(Fields())
    {
      if playbackRate <= 0.0 {
        return false;
      }
      this.playbackRate := playbackRate;
      return true;
    }

    /** `setAudioGainDb`: the gain is not restricted. */
    method SetAudioGainDb(audioGainDb: real)
      modifies this
      ensures Fields() == old(Fields()).(audioGainDb := audioGainDb)
    {
      this.audioGainDb := audioGainDb;
    }

    method SetTransitionIn(transition: Transition)
      modifies this
      ensures Fields() == old(Fields()).(transitionIn := transition)
    {
      this.transitionIn := transition;
    }

    method SetTransitionOut(transition: Transition)
      modifies this
      ensures Fields() == old(Fields()).(transitionOut := transition)
    {
      this.transitionOut := transition;
    }
  }

  // ----- ordering clips by start -----

  /** Each clip paired with its current start: the sort key is taken out of the heap. */
  function Keyed(cs: seq<TimelineClip>): (r: seq<(int, TimelineClip)>)
    reads cs
    ensures |r| == |cs|
    ensures forall i :: 0 <= i < |cs| ==> r[i] == (cs[i].start, cs[i])
  {
    seq(|cs|, i requires 0 <= i < |cs| reads cs => (cs[i].start, cs[i]))
  }

  function Strip(ps: seq<(int, TimelineClip)>): (r: seq<TimelineClip>)
    ensures |r| == |ps|
    ensures forall i :: 0 <= i < |ps| ==> r[i] == ps[i].1
  {
    seq(|ps|, i requires 0 <= i < |ps| => ps[i].1)
  }

  function StartKey(p: (int, TimelineClip)): real { p.0 as real }

  /** The clips of start-keyed pairs, stably ordered by the keys. */
  function Order(ps: seq<(int, TimelineClip)>): (r: seq<TimelineClip>)
    ensures |r| == |ps|
  {
    StableSort.SortProperties(ps, StartKey);
    Strip(StableSort.Sort(ps, StartKey))
  }

  lemma KeyedAppend(cs: seq<TimelineClip>, c: TimelineClip)
    ensures Keyed(cs + [c]) == Keyed(cs) + [(c.start, c)]
  {
    assert forall i :: 0 <= i < |cs| ==> (cs + [c])[i] == cs[i];
  }

  /** `clips.sort(Comparator.comparing(TimelineClip::getStart))`: a stable sort by start. */
  function ByStart(cs: seq<TimelineClip>): seq<TimelineClip>
    reads cs
  {
    Order(Keyed(cs))
  }

  /** Every pair carries its clip's current start. */
  ghost predicate Consistent(ps: seq<(int, TimelineClip)>)
    reads set p | p in ps :: p.1
  {
    forall i :: 0 <= i < |ps| ==> ps[i].0 == ps[i].1.start
  }

  /** The clips of `cs` that start at `k`, in order. */
  function StartingAt(cs: seq<TimelineClip>, k: int): (r: seq<TimelineClip>)
    reads cs
    ensures forall c :: c in r ==> c in cs && c.start == k
  {
    if cs == [] then [] else (if cs[0].start == k then [cs[0]] else []) + StartingAt(cs[1..], k)
  }

  lemma {:induction false} StripAppend(a: seq<(int, TimelineClip)>, b: seq<(int, TimelineClip)>)
    ensures Strip(a + b) == Strip(a) + Strip(b)
  {
    assert Strip(a + b) == Strip(a) + Strip(b);
  }

  lemma {:induction false} StripInsert(x: (int, TimelineClip), s: seq<(int, TimelineClip)>)
    ensures multiset(Strip(StableSort.Insert(x, s, StartKey))) == multiset(Strip(s)) + multiset{x.1}
  {
    if s == [] || StartKey(x) <= StartKey(s[0]) {
      StripAppend([x], s);
    } else {
      StripInsert(x, s[1..]);
      StripAppend([s[0]], StableSort.Insert(x, s[1..], StartKey));
      StripAppend([s[0]], s[1..]);
      assert s == [s[0]] + s[1..];
    }
  }

  /** Sorting the pairs sorts a permutation of the clips. */
  lemma {:induction false} StripSort(s: seq<(int, TimelineClip)>)
    ensures multiset(Strip(StableSort.Sort(s, StartKey))) == multiset(Strip(s))
  {
    if s != [] {
      var t := StableSort.Sort(s[1..], StartKey);
      assert StableSort.Sort(s, StartKey) == StableSort.Insert(s[0], t, StartKey);
      StripSort(s[1..]);
      StripInsert(s[0], t);
      assert Strip(s) == [s[0].1] + Strip(s[1..]);
    }
  }

  /** A permutation of consistent pairs is consistent. */
  lemma KeepsConsistent(ps: seq<(int, TimelineClip)>, qs: seq<(int, TimelineClip)>)
    requires multiset(ps) == multiset(qs) && Consistent(ps)
    ensures Consistent(qs)
  {
    forall i | 0 <= i < |qs| ensures qs[i].0 == qs[i].1.start {
      assert qs[i] in multiset(ps);
    }
  }

  lemma {:induction false} StripWithKey(ps: seq<(int, TimelineClip)>, k: int)
    requires Consistent(ps)
    ensures Strip(StableSort.WithKey(ps, StartKey, k as real)) == StartingAt(Strip(ps), k)
  {
    if ps != [] {
      StripWithKey(ps[1..], k);
      var head: seq<(int, TimelineClip)> := if StartKey(ps[0]) == k as real then [ps[0]] else [];
      StripAppend(head, StableSort.WithKey(ps[1..], StartKey, k as real));
      assert Strip(ps)[1..] == Strip(ps[1..]);
    }
  }

  lemma {:induction false} KeyedStrip(ps: seq<(int, TimelineClip)>)
    requires Consistent(ps)
    ensures Keyed(Strip(ps)) == ps
  {
  }

  lemma ByStartPermutes(cs: seq<TimelineClip>)
    ensures multiset(ByStart(cs)) == multiset(cs)
  {
    StripSort(Keyed(cs));
    assert Strip(Keyed(cs)) == cs;
  }

  lemma ByStartSameClips(cs: seq<TimelineClip>)
    ensures forall c :: c in ByStart(cs) <==> c in cs
  {
    ByStartPermutes(cs);
    forall c ensures c in ByStart(cs) <==> c in cs {
      assert c in ByStart(cs) <==> c in multiset(ByStart(cs));
      assert c in cs <==> c in multiset(cs);
    }
  }

  /**
   * Ordering by start is a permutation, leaves the clips ordered by start, keeps the
   * insertion order of clips with equal starts, and changes nothing when repeated.
   */
  lemma ByStartProperties(cs: seq<TimelineClip>)
    ensures multiset(ByStart(cs)) == multiset(cs)
    ensures forall i, j :: 0 <= i < j < |cs| ==> ByStart(cs)[i].start <= ByStart(cs)[j].start
    ensures forall k :: StartingAt(ByStart(cs), k) == StartingAt(cs, k)
    ensures ByStart(ByStart(cs)) == ByStart(cs)
  {
    var ks := Keyed(cs);
    var sorted := StableSort.Sort(ks, StartKey);
    StableSort.SortProperties(ks, StartKey);
    assert Consistent(ks);
    KeepsConsistent(ks, sorted);
    StripSort(ks);
    assert Strip(ks) == cs;
    forall i, j | 0 <= i < j < |cs| ensures ByStart(cs)[i].start <= ByStart(cs)[j].start {
      assert StartKey(sorted[i]) <= StartKey(sorted[j]);
    }
    forall k ensures StartingAt(ByStart(cs), k) == StartingAt(cs, k) {
      StableSort.SortStable(ks, StartKey, k as real);
      StripWithKey(sorted, k);
      StripWithKey(ks, k);
    }
    KeyedStrip(sorted);
    StableSort.SortOfSorted(sorted, StartKey);
  }

  lemma ByStartTwice(cs: seq<TimelineClip>)
    ensures ByStart(ByStart(cs)) == ByStart(cs)
  {
    ByStartProperties(cs);
  }

  lemma KeyedConcat(a: seq<TimelineClip>, b: seq<TimelineClip>)
    ensures Keyed(a + b) == Keyed(a) + Keyed(b)
  {
    assert forall i :: 0 <= i < |a| ==> (a + b)[i] == a[i];
    assert forall i :: |a| <= i < |a| + |b| ==> (a + b)[i] == b[i - |a|];
  }

  lemma KeyedByStart(cs: seq<TimelineClip>)
    ensures Keyed(ByStart(cs)) == StableSort.Sort(Keyed(cs), StartKey)
  {
    var ks := Keyed(cs);
    StableSort.SortProperties(ks, StartKey);
    assert Consistent(ks);
    KeepsConsistent(ks, StableSort.Sort(ks, StartKey));
    KeyedStrip(StableSort.Sort(ks, StartKey));
  }

  /**
   * Ordering the clips first and then adding clips and ordering again is the same as adding
   * them to the unordered list: `getClips` before an edit does not change where the edit
   * puts the clips.
   */
  lemma OrderAfterByStart(cs: seq<TimelineClip>, ps: seq<(int, TimelineClip)>)
    ensures Order(Keyed(ByStart(cs)) + ps) == Order(Keyed(cs) + ps)
  {
    KeyedByStart(cs);
    StableSort.SortAfterSort(Keyed(cs), ps, StartKey);
  }

  /** The keys are the clips' starts: other settings may change. */
  twostate lemma KeyedKeepsStarts(cs: seq<TimelineClip>)
    requires forall c | c in cs :: c.start == old(c.start)
    ensures Keyed(cs) == old(Keyed(cs))
  {
    forall i | 0 <= i < |cs| ensures Keyed(cs)[i] == old(Keyed(cs))[i] {
      assert cs[i] in cs;
    }
  }

  /** So the order by start depends on the starts only. */
  twostate lemma ByStartKeepsStarts(cs: seq<TimelineClip>)
    requires forall c | c in cs :: c.start == old(c.start)
    ensures ByStart(cs) == old(ByStart(cs))
  {
    KeyedKeepsStarts(cs);
  }

  lemma ByStartAfterByStart(cs: seq<TimelineClip>, ds: seq<TimelineClip>)
    ensures ByStart(ByStart(cs) + ds) == ByStart(cs + ds)
  {
    KeyedConcat(ByStart(cs), ds);
    KeyedConcat(cs, ds);
    OrderAfterByStart(cs, Keyed(ds));
  }

  /** The index of the first occurrence of `x` in `s`. */
  function IndexOf<T(==)>(s: seq<T>, x: T): (i: nat)
    requires x in s
    ensures i < |s| && s[i] == x && x !in s[..i]
  {
    if s[0] == x then 0
    else
      var j := IndexOf(s[1..], x);
      assert s[..j + 1] == [s[0]] + s[1..][..j];
      j + 1
  }

  /** `List.remove(Object)`: drops the first occurrence of `x`, if any. */
  function RemoveFirst<T(==)>(s: seq<T>, x: T): (r: seq<T>)
    ensures x !in s ==> r == s
    ensures x in s ==> r == s[..IndexOf(s, x)] + s[IndexOf(s, x) + 1..]
    ensures x in s ==> multiset(r) == multiset(s) - multiset{x} && |r| == |s| - 1
  {
    if x in s then
      var i := IndexOf(s, x);
      assert s == s[..i] + [x] + s[i + 1..];
      s[..i] + s[i + 1..]
    else s
  }

  /** `max` of the clip ends, or 0 for no clips. */
  function MaxEnd(cs: seq<TimelineClip>): (e: int)
    reads cs
    ensures cs == [] ==> e == 0
    ensures cs != [] ==> (exists c :: c in cs && c.End() == e) && forall c :: c in cs ==> c.End() <= e
  {
    if cs == [] then 0
    else if |cs| == 1 then cs[0].End()
    else
      var rest := MaxEnd(cs[1..]);
      assert forall c :: c in cs ==> c == cs[0] || c in cs[1..];
      Max(cs[0].End(), rest)
  }

  /** The clip covers `position`: it starts at or before it and ends after it. */
  predicate Covers(c: TimelineClip, position: int)
    reads c
  {
    c.start <= position < c.End()
  }

  /** The first clip in `cs` that covers `position`, if any. */
  function FirstCovering(cs: seq<TimelineClip>, position: int): (r: Option<TimelineClip>)
    reads cs
    ensures r.None? <==> forall i :: 0 <= i < |cs| ==> !Covers(cs[i], position)
    ensures r.Some? ==> exists i :: (0 <= i < |cs| && cs[i] == r.value && Covers(cs[i], position)
      && forall j :: 0 <= j < i ==> !Covers(cs[j], position))
  {
    if cs == [] then None
    else if Covers(cs[0], position) then Some(cs[0])
    else
      var r := FirstCovering(cs[1..], position);
      assert forall i :: 1 <= i < |cs| ==> cs[i] == cs[1..][i - 1];
      r
  }

  class TimelineTrack {
    const id: nat
    const kind: TrackType
    var clips: seq<TimelineClip>

    constructor (id: nat, kind: TrackType)
      ensures this.id == id && this.kind == kind && clips == []
    {
      this.id := id;
      this.kind := kind;
      clips := [];
    }

    /** `getClips`: orders the list by start in place and returns it. */
    method GetClips() returns (cs: seq<TimelineClip>)
      modifies this
      ensures clips == old(ByStart(clips)) && cs == clips
      ensures forall c :: c in cs <==> c in old(clips)
    {
      ByStartSameClips(clips);
      clips := ByStart(clips);
      cs := clips;
    }

    /** `addClip`: appends, then orders by start (stably, so the new clip follows clips with the same start). */
    method AddClip(clip: TimelineClip)
      modifies this
      ensures clips == old(ByStart(clips + [clip]))
    {
      clips := ByStart(clips + [clip]);
    }

    /** `removeClip`: removes the first occurrence of that very clip, if present. */
    method RemoveClip(clip: TimelineClip)
      modifies this
      ensures clips == RemoveFirst(old(clips), clip)
    {
      clips := RemoveFirst(clips, clip);
    }

    /** `getDuration`: the latest clip end, or 0 for an empty track. */
    function Duration(): int
      reads this, clips
    {
      MaxEnd(clips)
    }

    /** `clipAt`: the first clip in the current list order that covers the position, or none. */
    function ClipAt(position: int): Option<TimelineClip>
      reads this, clips
    {
      FirstCovering(clips, position)
    }
  }

  /** Adding a clip and removing it again leaves the track with the clips it had. */
  lemma AddThenRemove(cs: seq<TimelineClip>, clip: TimelineClip)
    ensures multiset(RemoveFirst(ByStart(cs + [clip]), clip)) == multiset(cs)
  {
    ByStartProperties(cs + [clip]);
    assert clip in multiset(ByStart(cs + [clip]));
  }

  /** Adding a clip puts it in the track, before every clip with a later start and after every one with the same start. */
  lemma AddPlacesClip(cs: seq<TimelineClip>, clip: TimelineClip)
    requires clip !in cs
    ensures multiset(ByStart(cs + [clip])) == multiset(cs) + multiset{clip}
    ensures StartingAt(ByStart(cs + [clip]), clip.start) == StartingAt(cs, clip.start) + [clip]
  {
    ByStartProperties(cs + [clip]);
    StartingAtAppend(cs, [clip], clip.start);
  }

  lemma {:induction false} StartingAtAppend(a: seq<TimelineClip>, b: seq<TimelineClip>, k: int)
    ensures StartingAt(a + b, k) == StartingAt(a, k) + StartingAt(b, k)
  {
    if a == [] {
      assert a + b == b;
    } else {
      assert (a + b)[1..] == a[1..] + b;
      StartingAtAppend(a[1..], b, k);
    }
  }

  class Timeline {
    const id: nat
    var tracks: seq<TimelineTrack>
    var playhead: int
    var zoom: real

    /** A new timeline: no tracks, the playhead at 0 and zoom 1. */
    constructor (id: nat)
      ensures this.id == id && tracks == [] && playhead == 0 && zoom == 1.0
    {
      this.id := id;
      tracks := [];
      playhead := 0;
      zoom := 1.0;
    }

    /** Every clip on every track. */
    ghost function AllClips(): set<TimelineClip>
      reads this, tracks
    {
      set t, c | t in tracks && c in t.clips :: c
    }

    /** `addTrack`: appends. */
    method AddTrack(track: TimelineTrack)
      modifies this
      ensures tracks == old(tracks) + [track] && playhead == old(playhead) && zoom == old(zoom)
    {
      tracks := tracks + [track];
    }

    /** `findTrack`: the first track with that id. */
    function FindTrack(trackId: nat): (r: Option<TimelineTrack>)
      reads this
      ensures r.Some? ==> r.value in tracks && r.value.id == trackId
      ensures r.None? <==> forall i :: 0 <= i < |tracks| ==> tracks[i].id != trackId
      ensures r.Some? ==> exists i :: (0 <= i < |tracks| && tracks[i] == r.value && r.value.id == trackId
        && forall j :: 0 <= j < i ==> tracks[j].id != trackId)
    {
      FirstWithId(tracks, trackId)
    }

    /** `setPlayhead`: a negative position is rejected and the playhead stays where it was. */
    method SetPlayhead(position: int) returns (ok: bool)
      modifies this
      ensures ok <==> position >= 0
      ensures playhead == (if ok then position else old(playhead))
      ensures tracks == old(tracks) && zoom == old(zoom)
    {
      if position < 0 {
        return false;
      }
      playhead := position;
      return true;
    }

    /** `setZoom`: only values in (0.05, 10] are accepted; others leave the zoom as it was. */
    method SetZoom(zoom: real) returns (ok: bool)
      modifies this
      ensures ok <==> 0.05 < zoom <= 10.0
      ensures this.zoom == (if ok then zoom else old(this.zoom))
      ensures tracks == old(tracks) && playhead == old(playhead)
    {
      if zoom <= 0.05 || zoom > 10.0 {
        return false;
      }
      this.zoom := zoom;
      return true;
    }
  }

  function FirstWithId(ts: seq<TimelineTrack>, trackId: nat): (r: Option<TimelineTrack>)
    ensures r.None? <==> forall i :: 0 <= i < |ts| ==> ts[i].id != trackId
    ensures r.Some? ==> exists i :: (0 <= i < |ts| && ts[i] == r.value && r.value.id == trackId
      && forall j :: 0 <= j < i ==> ts[j].id != trackId)
  {
    if ts == [] then None
    else if ts[0].id == trackId then Some(ts[0])
    else
      var r := FirstWithId(ts[1..], trackId);
      assert forall i :: 1 <= i < |ts| ==> ts[i] == ts[1..][i - 1];
      r
  }
}
