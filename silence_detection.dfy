/**
 * Silence detection (`SilenceDetectionService`): a two-state machine over fixed-size windows of
 * audio samples. The decoder and the RMS computation are inputs: the audio frames in order
 * (each either a buffer of 16-bit samples or something else, which is skipped) and the RMS
 * value a window of samples has.
 */
module SilenceDetection {
  import opened Wrappers
  import opened JavaNum
  import opened AiValues
  import opened AiConfig

  /** One frame from `grabSamples`: a `ShortBuffer` of samples, or a frame without one. */
  datatype AudioFrame = Samples(samples: seq<int>) | NoShortSamples

  /** What the grabber reports about a media file. */
  datatype Audio = Audio(fileExists: bool, channels: int, sampleRate: int, frames: seq<AudioFrame>)

  /** The sample rate, 48000 when the stream reports none. */
  function EffectiveRate(sampleRate: int): (rate: int)
    ensures rate >= 1
    ensures sampleRate > 0 ==> rate == sampleRate
    ensures sampleRate <= 0 ==> rate == 48000
  {
    if sampleRate <= 0 then 48000 else sampleRate
  }

  /** `max(1024, sampleRate / 20)` samples: about 50 ms, never fewer than 1024 samples. */
  function WindowSize(rate: int): (w: int)
    requires rate >= 1
    ensures w >= 1024 && w >= rate / 20 && (w == 1024 || w == rate / 20)
  {
    Max(1024, rate / 20)
  }

  /** `(long) ((samplesProcessed / (double) sampleRate) * 1000)`: whole milliseconds of audio processed. */
  function ProcessedMillis(processed: int, rate: int): int
    requires rate >= 1
  {
    Trunc(processed as real / rate as real * 1000.0)
  }

  lemma ProcessedMillisMonotone(p: int, q: int, rate: int)
    requires rate >= 1 && 0 <= p <= q
    ensures 0 <= ProcessedMillis(p, rate) <= ProcessedMillis(q, rate)
  {
    var x, y := p as real / rate as real * 1000.0, q as real / rate as real * 1000.0;
    assert 0.0 <= x <= y by {
      assert p as real / rate as real <= q as real / rate as real;
    }
  }

  // ---------------------------------------------------------------- windows

  /** The chunks `min(windowSize, remaining)` a buffer is read in. */
  function Chunks(buffer: seq<int>, w: int): seq<seq<int>>
    requires w >= 1
    decreases |buffer|
  {
    if buffer == [] then []
    else
      var n := Min(w, |buffer|);
      [buffer[..n]] + Chunks(buffer[n..], w)
  }

  /** The windows of all frames in order; a frame without a `ShortBuffer` contributes none. */
  function Windows(frames: seq<AudioFrame>, w: int): seq<seq<int>>
    requires w >= 1
  {
    if frames == [] then []
    else (if frames[0].Samples? then Chunks(frames[0].samples, w) else []) + Windows(frames[1..], w)
  }

  function Flatten(chunks: seq<seq<int>>): seq<int> {
    if chunks == [] then [] else chunks[0] + Flatten(chunks[1..])
  }

  /** The total number of samples in `chunks`. */
  function SampleCount(chunks: seq<seq<int>>): nat {
    if chunks == [] then 0 else |chunks[0]| + SampleCount(chunks[1..])
  }

  /** A buffer is cut into non-empty chunks of at most `w` samples that put together give the buffer back. */
  lemma {:induction false} ChunksCover(buffer: seq<int>, w: int)
    requires w >= 1
    ensures Flatten(Chunks(buffer, w)) == buffer
    ensures SampleCount(Chunks(buffer, w)) == |buffer|
    ensures forall i :: 0 <= i < |Chunks(buffer, w)| ==> 1 <= |Chunks(buffer, w)[i]| <= w
    decreases |buffer|
  {
    if buffer != [] {
      var n := Min(w, |buffer|);
      ChunksCover(buffer[n..], w);
      var c := Chunks(buffer, w);
      assert c[1..] == Chunks(buffer[n..], w);
      assert buffer[..n] + buffer[n..] == buffer;
      forall i | 0 <= i < |c| ensures 1 <= |c[i]| <= w {
        if i > 0 {
          assert c[i] == Chunks(buffer[n..], w)[i - 1];
        }
      }
    }
  }

  // ---------------------------------------------------------------- the state machine

  /** The detection state: an open silence and its start, samples processed so far, closed ranges. */
  datatype State = State(active: bool, start: int, processed: int, silences: seq<SilenceRange>)

  const Initial: State := State(false, 0, 0, [])

  /** One window, timed at its start: a quiet window opens a silence, a loud one closes an open one. */
  function Step(st: State, window: seq<int>, rate: int, rms: seq<int> -> real, config: SilenceDetectionConfig): Result<State>
    requires rate >= 1
  {
    var now := ProcessedMillis(st.processed, rate);
    var next := st.(processed := st.processed + |window|);
    if rms(window) < config.rmsThreshold then
      if !st.active then Ok(next.(active := true, start := now)) else Ok(next)
    else if st.active then
      if now - st.start >= config.minimumSilence then
        var range :- NewSilenceRange(st.start, now);
        Ok(next.(active := false, silences := st.silences + [range]))
      else
        Ok(next.(active := false))
    else
      Ok(next)
  }

  /** The state after the windows `windows`, in order. */
  function Scan(st: State, windows: seq<seq<int>>, rate: int, rms: seq<int> -> real, config: SilenceDetectionConfig): Result<State>
    requires rate >= 1
    decreases |windows|
  {
    if windows == [] then Ok(st)
    else
      var next :- Step(st, windows[0], rate, rms, config);
      Scan(next, windows[1..], rate, rms, config)
  }

  /** At end of stream an open silence is closed at the processed time, under the same length test. */
  function Finish(st: State, rate: int, config: SilenceDetectionConfig): Result<seq<SilenceRange>>
    requires rate >= 1
  {
    if st.active then
      var end := ProcessedMillis(st.processed, rate);
      if end - st.start >= config.minimumSilence then
        var range :- NewSilenceRange(st.start, end);
        Ok(st.silences + [range])
      else Ok(st.silences)
    else Ok(st.silences)
  }

  /** `detectSilence`. */
  function Detection(audio: Audio, rms: seq<int> -> real, config: SilenceDetectionConfig): Result<seq<SilenceRange>> {
    if !audio.fileExists then Err(InputNotFound)
    else if audio.channels <= 0 then Ok([])
    else
      var rate := EffectiveRate(audio.sampleRate);
      var st :- Scan(Initial, Windows(audio.frames, WindowSize(rate)), rate, rms, config);
      Finish(st, rate, config)
  }

  method DetectSilence(audio: Audio, rms: seq<int> -> real, config: SilenceDetectionConfig) returns (r: Result<seq<SilenceRange>>)
    ensures r == Detection(audio, rms, config)
  {
    if !audio.fileExists {
      return Err(InputNotFound);
    }
    if audio.channels <= 0 {
      return Ok([]);
    }
    var sampleRate := audio.sampleRate;
    if sampleRate <= 0 {
      sampleRate := 48000;
    }
    var windowSize := Max(1024, sampleRate / 20);
    var st := Initial;
    ghost var goal := Scan(Initial, Windows(audio.frames, windowSize), sampleRate, rms, config);
    var frames := audio.frames;
    var i := 0;
    while i < |frames|
      invariant 0 <= i <= |frames|
      invariant Scan(st, Windows(frames[i..], windowSize), sampleRate, rms, config) == goal
    {
      assert frames[i..][1..] == frames[i + 1..];
      var rest := Windows(frames[i + 1..], windowSize);
      if frames[i].NoShortSamples? {
        assert Windows(frames[i..], windowSize) == [] + rest;
        assert [] + rest == rest;
        i := i + 1;
        continue;
      }
      assert Windows(frames[i..], windowSize) == Chunks(frames[i].samples, windowSize) + rest;
      ScanAppend(st, Chunks(frames[i].samples, windowSize), rest, sampleRate, rms, config);
      var next := ReadBuffer(st, frames[i].samples, windowSize, sampleRate, rms, config);
      if next.Err? {
        return Err(next.error);
      }
      st := next.value;
      i := i + 1;
    }
    assert frames[i..] == [];
    var silences := st.silences;
    if st.active {
      var end := ProcessedMillis(st.processed, sampleRate);
      if end - st.start >= config.minimumSilence {
        var range := NewSilenceRange(st.start, end);
        if range.Err? {
          return Err(range.error);
        }
        silences := silences + [range.value];
      }
    }
    return Ok(silences);
  }

  /** The inner `while (buffer.hasRemaining())` loop: reads one buffer window by window. */
  method ReadBuffer(st: State, buffer: seq<int>, windowSize: int, sampleRate: int, rms: seq<int> -> real,
                    config: SilenceDetectionConfig) returns (r: Result<State>)
    requires windowSize >= 1 && sampleRate >= 1
    ensures r == Scan(st, Chunks(buffer, windowSize), sampleRate, rms, config)
  {
    var silenceActive, silenceStart, samplesProcessed, silences := st.active, st.start, st.processed, st.silences;
    ghost var goal := Scan(st, Chunks(buffer, windowSize), sampleRate, rms, config);
    var pos := 0;
    assert buffer[pos..] == buffer;
    while pos < |buffer|
      invariant 0 <= pos <= |buffer|
      invariant Scan(State(silenceActive, silenceStart, samplesProcessed, silences), Chunks(buffer[pos..], windowSize),
                     sampleRate, rms, config) == goal
      decreases |buffer| - pos
    {
      var chunk := Min(windowSize, |buffer| - pos);
      var temp := buffer[pos..pos + chunk];
      ghost var rest := Chunks(buffer[pos + chunk..], windowSize);
      assert buffer[pos..][..chunk] == temp && buffer[pos..][chunk..] == buffer[pos + chunk..];
      assert Chunks(buffer[pos..], windowSize) == [temp] + rest;
      assert ([temp] + rest)[1..] == rest;
      var currentTime := ProcessedMillis(samplesProcessed, sampleRate);
      samplesProcessed := samplesProcessed + chunk;
      if rms(temp) < config.rmsThreshold {
        if !silenceActive {
          silenceActive := true;
          silenceStart := currentTime;
        }
      } else if silenceActive {
        var silenceEnd := currentTime;
        if silenceEnd - silenceStart >= config.minimumSilence {
          var range := NewSilenceRange(silenceStart, silenceEnd);
          if range.Err? {
            return Err(range.error);
          }
          silences := silences + [range.value];
        }
        silenceActive := false;
      }
      pos := pos + chunk;
    }
    assert buffer[pos..] == [];
    return Ok(State(silenceActive, silenceStart, samplesProcessed, silences));
  }

  /** Scanning two runs of windows is scanning the first, then the second from where the first stopped. */
  lemma {:induction false} ScanAppend(st: State, a: seq<seq<int>>, b: seq<seq<int>>, rate: int, rms: seq<int> -> real,
                                      config: SilenceDetectionConfig)
    requires rate >= 1
    ensures var m := Scan(st, a, rate, rms, config);
      Scan(st, a + b, rate, rms, config) == if m.Err? then m else Scan(m.value, b, rate, rms, config)
    decreases |a|
  {
    if a == [] {
      assert a + b == b;
    } else {
      assert (a + b)[0] == a[0] && (a + b)[1..] == a[1..] + b;
      var next := Step(st, a[0], rate, rms, config);
      if next.Ok? {
        ScanAppend(next.value, a[1..], b, rate, rms, config);
      }
    }
  }

  // ---------------------------------------------------------------- properties

  /** Ranges in ascending order, each ending no later than any later one starts. */
  predicate Disjoint(s: seq<SilenceRange>) {
    forall i, j :: 0 <= i < j < |s| ==> s[i].end <= s[j].start
  }

  predicate AllValid(s: seq<SilenceRange>) {
    forall i :: 0 <= i < |s| ==> s[i].Valid()
  }

  predicate AllLong(s: seq<SilenceRange>, minimumSilence: int) {
    forall i :: 0 <= i < |s| ==> s[i].Duration() >= minimumSilence
  }

  /** Everything so far lies at or before `time`; an open silence starts after every closed range. */
  predicate Inv(st: State, rate: int, minimumSilence: int)
    requires rate >= 1
  {
    var now := ProcessedMillis(st.processed, rate);
    st.processed >= 0 && st.start >= 0
    && AllValid(st.silences) && AllLong(st.silences, minimumSilence) && Disjoint(st.silences)
    && (forall i :: 0 <= i < |st.silences| ==> st.silences[i].end <= now)
    && (st.active ==> st.start <= now && forall i :: 0 <= i < |st.silences| ==> st.silences[i].end <= st.start)
  }

  lemma AppendRange(s: seq<SilenceRange>, range: SilenceRange, minimumSilence: int)
    requires AllValid(s) && AllLong(s, minimumSilence) && Disjoint(s)
    requires range.Valid() && range.Duration() >= minimumSilence
    requires forall i :: 0 <= i < |s| ==> s[i].end <= range.start
    ensures var t := s + [range];
      AllValid(t) && AllLong(t, minimumSilence) && Disjoint(t)
      && forall i :: 0 <= i < |t| ==> t[i].end <= range.end
  {
    var t := s + [range];
    assert t[|s|] == range;
    assert forall i :: 0 <= i < |s| ==> t[i] == s[i];
  }

  lemma StepKeepsInv(st: State, window: seq<int>, rate: int, rms: seq<int> -> real, config: SilenceDetectionConfig)
    requires rate >= 1 && Inv(st, rate, config.minimumSilence)
    ensures var r := Step(st, window, rate, rms, config);
      r.Ok? ==> Inv(r.value, rate, config.minimumSilence) && r.value.processed == st.processed + |window|
  {
    var now := ProcessedMillis(st.processed, rate);
    ProcessedMillisMonotone(st.processed, st.processed + |window|, rate);
    var r := Step(st, window, rate, rms, config);
    if r.Ok? && !(rms(window) < config.rmsThreshold) && st.active && now - st.start >= config.minimumSilence {
      AppendRange(st.silences, NewSilenceRange(st.start, now).value, config.minimumSilence);
    }
  }

  lemma {:induction false} ScanKeepsInv(st: State, windows: seq<seq<int>>, rate: int, rms: seq<int> -> real, config: SilenceDetectionConfig)
    requires rate >= 1 && Inv(st, rate, config.minimumSilence)
    ensures var r := Scan(st, windows, rate, rms, config);
      r.Ok? ==> Inv(r.value, rate, config.minimumSilence) && r.value.processed == st.processed + SampleCount(windows)
    decreases |windows|
  {
    if windows != [] {
      StepKeepsInv(st, windows[0], rate, rms, config);
      var next := Step(st, windows[0], rate, rms, config);
      if next.Ok? {
        ScanKeepsInv(next.value, windows[1..], rate, rms, config);
      }
    }
  }

  /** With a positive minimum every candidate has positive length, so no step can fail. */
  lemma {:induction false} ScanSucceeds(st: State, windows: seq<seq<int>>, rate: int, rms: seq<int> -> real, config: SilenceDetectionConfig)
    requires rate >= 1 && Inv(st, rate, config.minimumSilence) && config.minimumSilence > 0
    ensures Scan(st, windows, rate, rms, config).Ok?
    decreases |windows|
  {
    if windows != [] {
      StepKeepsInv(st, windows[0], rate, rms, config);
      ScanSucceeds(Step(st, windows[0], rate, rms, config).value, windows[1..], rate, rms, config);
    }
  }

  /** The total of the window sizes is the total of the short-sample buffers. */
  lemma {:induction false} WindowsCount(frames: seq<AudioFrame>, w: int)
    requires w >= 1
    ensures SampleCount(Windows(frames, w)) == TotalSamples(frames)
  {
    if frames != [] {
      WindowsCount(frames[1..], w);
      var head := if frames[0].Samples? then Chunks(frames[0].samples, w) else [];
      if frames[0].Samples? {
        ChunksCover(frames[0].samples, w);
      }
      SampleCountAppend(head, Windows(frames[1..], w));
    }
  }

  lemma {:induction false} SampleCountAppend(a: seq<seq<int>>, b: seq<seq<int>>)
    ensures SampleCount(a + b) == SampleCount(a) + SampleCount(b)
  {
    if a != [] {
      SampleCountAppend(a[1..], b);
      assert (a + b)[1..] == a[1..] + b;
    } else {
      assert a + b == b;
    }
  }

  function TotalSamples(frames: seq<AudioFrame>): nat {
    if frames == [] then 0 else (if frames[0].Samples? then |frames[0].samples| else 0) + TotalSamples(frames[1..])
  }

  /**
   * The emitted silences are valid, at least the minimum long, in ascending order and pairwise
   * disjoint, and none ends after the total processed time; a missing file is an error and a
   * stream without audio channels gives none. With a positive minimum detection cannot fail.
   */
  lemma DetectionProperties(audio: Audio, rms: seq<int> -> real, config: SilenceDetectionConfig)
    ensures !audio.fileExists ==> Detection(audio, rms, config) == Err(InputNotFound)
    ensures audio.fileExists && audio.channels <= 0 ==> Detection(audio, rms, config) == Ok([])
    ensures var r := Detection(audio, rms, config);
      r.Ok? ==>
        AllValid(r.value) && AllLong(r.value, config.minimumSilence) && Disjoint(r.value)
        && forall i :: 0 <= i < |r.value| ==>
             r.value[i].end <= ProcessedMillis(TotalSamples(audio.frames), EffectiveRate(audio.sampleRate))
    ensures audio.fileExists && config.minimumSilence > 0 ==> Detection(audio, rms, config).Ok?
  {
    if audio.fileExists && audio.channels > 0 {
      var rate := EffectiveRate(audio.sampleRate);
      var w := WindowSize(rate);
      var windows := Windows(audio.frames, w);
      assert Inv(Initial, rate, config.minimumSilence);
      ScanKeepsInv(Initial, windows, rate, rms, config);
      WindowsCount(audio.frames, w);
      if config.minimumSilence > 0 {
        ScanSucceeds(Initial, windows, rate, rms, config);
      }
      var s := Scan(Initial, windows, rate, rms, config);
      if s.Ok? {
        var st := s.value;
        var end := ProcessedMillis(st.processed, rate);
        if st.active && end - st.start >= config.minimumSilence && NewSilenceRange(st.start, end).Ok? {
          AppendRange(st.silences, NewSilenceRange(st.start, end).value, config.minimumSilence);
        }
      }
    }
  }

  /** A quiet window keeps the silence start of the one that opened it. */
  lemma QuietKeepsStart(st: State, window: seq<int>, rate: int, rms: seq<int> -> real, config: SilenceDetectionConfig)
    requires rate >= 1 && st.active && rms(window) < config.rmsThreshold
    ensures Step(st, window, rate, rms, config) == Ok(st.(processed := st.processed + |window|))
  {
  }

  /** A loud window always ends an open silence; it emits the range exactly when it is long enough. */
  lemma LoudCloses(st: State, window: seq<int>, rate: int, rms: seq<int> -> real, config: SilenceDetectionConfig)
    requires rate >= 1 && st.active && !(rms(window) < config.rmsThreshold) && st.start >= 0
    ensures var r := Step(st, window, rate, rms, config);
      var now := ProcessedMillis(st.processed, rate);
      r.Ok? ==>
        !r.value.active
        && (r.value.silences == st.silences + [SilenceRange(st.start, now)] <==> now - st.start >= config.minimumSilence)
        && (r.value.silences == st.silences <==> now - st.start < config.minimumSilence)
  {
    var now := ProcessedMillis(st.processed, rate);
    assert |st.silences + [SilenceRange(st.start, now)]| != |st.silences|;
  }
}
