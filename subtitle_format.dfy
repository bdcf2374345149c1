/**
 * Subtitle serialisation: milliseconds to an `HH:MM:SS,mmm` timestamp, and the SRT and
 * WebVTT layouts. The WebVTT output follows the file structure of the W3C WebVTT
 * specification, section 4.1 ("WebVTT file structure"): the `WEBVTT` signature line, a blank
 * line, then cues of the form `start --> end` LF text LF LF, with '.' before the milliseconds.
 */
module SubtitleFormat {
  import opened Wrappers
  import opened AiValues

  const CRLF: string := "\r\n"
  const VttHeader: string := "WEBVTT\n\n"

  // ---------------------------------------------------------------- decimal digits

  predicate IsDigit(c: char) { '0' <= c <= '9' }

  predicate AllDigits(s: string) { forall i :: 0 <= i < |s| ==> IsDigit(s[i]) }

  function DigitChar(d: nat): (c: char)
    requires d < 10
    ensures IsDigit(c) && c as int - '0' as int == d
  {
    ('0' as int + d) as char
  }

  /** The decimal representation of `n` without leading zeros (`Long.toString`). */
  function Digits(n: nat): (s: string)
    ensures |s| >= 1 && AllDigits(s)
  {
    if n < 10 then [DigitChar(n)] else Digits(n / 10) + [DigitChar(n % 10)]
  }

  function Zeros(k: nat): (s: string)
    ensures |s| == k && AllDigits(s)
  {
    if k == 0 then [] else Zeros(k - 1) + ['0']
  }

  /** `%0wd`: the digits of `n`, left-padded with zeros to at least `w` characters. */
  function Pad(n: nat, w: nat): (s: string)
    ensures AllDigits(s) && |s| >= w && |s| >= 1
  {
    var d := Digits(n);
    (if |d| < w then Zeros(w - |d|) else []) + d
  }

  /** The number a string of decimal digits denotes. */
  function DigitsValue(s: string): nat
    requires AllDigits(s)
  {
    if s == [] then 0 else 10 * DigitsValue(s[..|s| - 1]) + (s[|s| - 1] as int - '0' as int)
  }

  // ---------------------------------------------------------------- timestamps

  /** The four fields `formatTimestamp` prints, by Java's truncating `/` and `%` on a non-negative long. */
  function Hours(ms: nat): nat { ms / 3600000 }
  function Minutes(ms: nat): nat { (ms % 3600000) / 60000 }
  function Seconds(ms: nat): nat { (ms % 60000) / 1000 }
  function Millis(ms: nat): nat { ms % 1000 }

  /** Taking the remainder by a multiple first does not change the remainder by the divisor. */
  lemma {:induction false} ModOfMod(x: nat, a: nat, k: nat)
    requires a > 0 && k > 0
    ensures (x % (a * k)) % a == x % a
  {
    var q, r := x / (a * k), x % (a * k);
    var q2, r2 := r / a, r % a;
    assert x == (q * k + q2) * a + r2 by {
      assert x == q * (a * k) + r;
      assert r == q2 * a + r2;
    }
    ModUnique(x, a, q * k + q2, r2);
  }

  lemma {:induction false} ModUnique(x: nat, a: nat, q: int, r: int)
    requires a > 0 && 0 <= r < a && x == q * a + r
    ensures x % a == r
  {
    var q', r' := x / a, x % a;
    assert (q' - q) * a == r - r';
    SmallMultiple(q' - q, a);
  }

  /** The only multiple of `a` strictly between `-a` and `a` is `0`. */
  lemma SmallMultiple(k: int, a: int)
    requires a > 0 && -a < k * a < a
    ensures k == 0
  {
  }

  /** The fields are in range and recompose to the input exactly. */
  lemma {:induction false} FieldsRecompose(ms: nat)
    ensures Minutes(ms) < 60 && Seconds(ms) < 60 && Millis(ms) < 1000
    ensures Hours(ms) * 3600000 + Minutes(ms) * 60000 + Seconds(ms) * 1000 + Millis(ms) == ms
  {
    ModOfMod(ms, 60000, 60);
    ModOfMod(ms, 1000, 60);
    var r1 := ms % 3600000;
    assert ms == Hours(ms) * 3600000 + r1;
    var r2 := r1 % 60000;
    assert r1 == Minutes(ms) * 60000 + r2;
    assert r2 == ms % 60000;
    assert r2 == Seconds(ms) * 1000 + ms % 1000;
  }

  /** The timestamp layout with the given separator before the milliseconds. */
  function Layout(ms: nat, sep: char): string {
    Pad(Hours(ms), 2) + ":" + Pad(Minutes(ms), 2) + ":" + Pad(Seconds(ms), 2) + [sep] + Pad(Millis(ms), 3)
  }

  /** `String.format("%02d:%02d:%02d,%03d", ...)` of the fields of `ms`. */
  function FormatTimestamp(ms: nat): string {
    Layout(ms, ',')
  }

  /** `String.replace(a, b)` on characters. */
  function ReplaceChar(s: string, a: char, b: char): (t: string)
    ensures |t| == |s|
  {
    if s == [] then [] else [if s[0] == a then b else s[0]] + ReplaceChar(s[1..], a, b)
  }

  /** Each character equal to `a` becomes `b`; every other character stays. */
  lemma {:induction false} ReplaceCharAt(s: string, a: char, b: char, i: nat)
    requires i < |s|
    ensures ReplaceChar(s, a, b)[i] == (if s[i] == a then b else s[i])
    decreases i
  {
    if i > 0 {
      ReplaceCharAt(s[1..], a, b, i - 1);
    }
  }

  /** The four digit groups of a string laid out as `H+:MM:SS<sep>mmm`, if it is laid out so. */
  function Fields(t: string, sep: char): Option<(string, string, string, string)> {
    if |t| < 12 then None
    else
      var n := |t|;
      var h, m, s, f := t[..n - 10], t[n - 9..n - 7], t[n - 6..n - 4], t[n - 3..];
      if t[n - 10] == ':' && t[n - 7] == ':' && t[n - 4] == sep
         && AllDigits(h) && AllDigits(m) && AllDigits(s) && AllDigits(f)
      then Some((h, m, s, f))
      else None
  }

  /** Reads back a timestamp laid out as `H+:MM:SS<sep>mmm`. */
  function ParseTimestamp(t: string, sep: char): Option<nat> {
    match Fields(t, sep)
    case None => None
    case Some((h, m, s, f)) =>
      Some(DigitsValue(h) * 3600000 + DigitsValue(m) * 60000 + DigitsValue(s) * 1000 + DigitsValue(f))
  }

  // ---------------------------------------------------------------- digit lemmas

  lemma {:induction false} DigitsRoundTrip(n: nat)
    ensures DigitsValue(Digits(n)) == n
  {
    if n >= 10 {
      DigitsRoundTrip(n / 10);
      var d := Digits(n);
      assert d[..|d| - 1] == Digits(n / 10);
    }
  }

  lemma {:induction false} DigitsLength(n: nat)
    ensures n < 10 ==> |Digits(n)| == 1
    ensures n < 100 ==> |Digits(n)| <= 2
    ensures n < 1000 ==> |Digits(n)| <= 3
    ensures n >= 100 ==> |Digits(n)| >= 3
  {
    if n >= 10 {
      DigitsLength(n / 10);
    }
  }

  lemma {:induction false} ZerosValue(k: nat)
    ensures DigitsValue(Zeros(k)) == 0
  {
    if k > 0 {
      ZerosValue(k - 1);
      assert Zeros(k)[..k - 1] == Zeros(k - 1);
    }
  }

  lemma {:induction false} LeadingZeros(k: nat, d: string)
    requires AllDigits(d)
    ensures DigitsValue(Zeros(k) + d) == DigitsValue(d)
    decreases |d|
  {
    var s := Zeros(k) + d;
    if d == [] {
      assert s == Zeros(k);
      ZerosValue(k);
    } else {
      LeadingZeros(k, d[..|d| - 1]);
      assert s[..|s| - 1] == Zeros(k) + d[..|d| - 1];
      assert s[|s| - 1] == d[|d| - 1];
    }
  }

  lemma PadValue(n: nat, w: nat)
    ensures DigitsValue(Pad(n, w)) == n
    ensures n < 100 && w == 2 ==> |Pad(n, w)| == 2
    ensures n < 1000 && w == 3 ==> |Pad(n, w)| == 3
    ensures n >= 100 ==> |Pad(n, w)| >= 3
  {
    DigitsLength(n);
    PadDigitsValue(n, w);
    var d := Digits(n);
    assert |Pad(n, w)| == if |d| < w then w else |d|;
  }

  lemma PadDigitsValue(n: nat, w: nat)
    ensures DigitsValue(Pad(n, w)) == n
  {
    DigitsRoundTrip(n);
    var d := Digits(n);
    var k := if |d| < w then w - |d| else 0;
    assert Pad(n, w) == Zeros(k) + d;
    LeadingZeros(k, d);
  }

  // ---------------------------------------------------------------- timestamp properties

  /** The positions of the parts of `H:MM:SS<sep>mmm`, for any strings of those lengths. */
  lemma PartsShape(h: string, m: string, s: string, f: string, sep: char)
    requires |m| == 2 && |s| == 2 && |f| == 3
    ensures var t := h + ":" + m + ":" + s + [sep] + f; var n := |t|;
      n == |h| + 10
      && t[..n - 10] == h && t[n - 10] == ':'
      && t[n - 9..n - 7] == m && t[n - 7] == ':'
      && t[n - 6..n - 4] == s && t[n - 4] == sep
      && t[n - 3..] == f
  {
  }

  /**
   * The printed minutes, seconds and milliseconds have exactly 2, 2 and 3 digits, the hours at
   * least 2 (more from 100 hours on), and the separators sit at fixed distances from the end.
   */
  lemma {:induction false} LayoutShape(ms: nat, sep: char)
    ensures var t := Layout(ms, sep); var n := |t|;
      n >= 12 && n == |Pad(Hours(ms), 2)| + 10
      && t[..n - 10] == Pad(Hours(ms), 2) && t[n - 10] == ':'
      && t[n - 9..n - 7] == Pad(Minutes(ms), 2) && t[n - 7] == ':'
      && t[n - 6..n - 4] == Pad(Seconds(ms), 2) && t[n - 4] == sep
      && t[n - 3..] == Pad(Millis(ms), 3)
    ensures Hours(ms) >= 100 ==> |Layout(ms, sep)| >= 13
  {
    FieldsRecompose(ms);
    var h, m, s, f := Pad(Hours(ms), 2), Pad(Minutes(ms), 2), Pad(Seconds(ms), 2), Pad(Millis(ms), 3);
    PadValue(Hours(ms), 2);
    PadValue(Minutes(ms), 2);
    PadValue(Seconds(ms), 2);
    PadValue(Millis(ms), 3);
    PartsShape(h, m, s, f, sep);
  }

  /** A string whose parts sit where `PartsShape` puts them splits into exactly those parts. */
  lemma ParseParts(t: string, h: string, m: string, s: string, f: string, sep: char)
    requires AllDigits(h) && AllDigits(m) && AllDigits(s) && AllDigits(f)
    requires var n := |t|;
      n >= 12 && t[..n - 10] == h && t[n - 10] == ':' && t[n - 9..n - 7] == m && t[n - 7] == ':'
      && t[n - 6..n - 4] == s && t[n - 4] == sep && t[n - 3..] == f
    ensures Fields(t, sep) == Some((h, m, s, f))
  {
  }

  /** Reading a formatted timestamp back gives the milliseconds it was made from. */
  lemma {:induction false} TimestampRoundTrip(ms: nat, sep: char)
    ensures ParseTimestamp(Layout(ms, sep), sep) == Some(ms)
  {
    var h, m, s, f := Pad(Hours(ms), 2), Pad(Minutes(ms), 2), Pad(Seconds(ms), 2), Pad(Millis(ms), 3);
    var t := Layout(ms, sep);
    LayoutShape(ms, sep);
    ParseParts(t, h, m, s, f, sep);
    ParsePadded(t, sep, ms);
  }

  /** A string whose fields are the padded parts of `ms` reads back as `ms`. */
  lemma ParsePadded(t: string, sep: char, ms: nat)
    requires Fields(t, sep) == Some((Pad(Hours(ms), 2), Pad(Minutes(ms), 2), Pad(Seconds(ms), 2), Pad(Millis(ms), 3)))
    ensures ParseTimestamp(t, sep) == Some(ms)
  {
    var hv, mv, sv, fv := Hours(ms), Minutes(ms), Seconds(ms), Millis(ms);
    PadValue(hv, 2);
    PadValue(mv, 2);
    PadValue(sv, 2);
    PadValue(fv, 3);
    FieldsRecompose(ms);
    ParseValues(t, sep, Pad(hv, 2), Pad(mv, 2), Pad(sv, 2), Pad(fv, 3), hv, mv, sv, fv, ms);
  }

  /** Found fields worth `hv`, `mv`, `sv`, `fv` read back as their weighted sum `total`. */
  lemma ParseValues(t: string, sep: char, h: string, m: string, s: string, f: string, hv: nat, mv: nat, sv: nat, fv: nat,
                    total: nat)
    requires Fields(t, sep) == Some((h, m, s, f))
    requires DigitsValue(h) == hv && DigitsValue(m) == mv && DigitsValue(s) == sv && DigitsValue(f) == fv
    requires hv * 3600000 + mv * 60000 + sv * 1000 + fv == total
    ensures ParseTimestamp(t, sep) == Some(total)
  {
  }

  /** Replacing characters works piecewise on a concatenation. */
  lemma {:induction false} ReplaceConcat(x: string, y: string, a: char, b: char)
    ensures ReplaceChar(x + y, a, b) == ReplaceChar(x, a, b) + ReplaceChar(y, a, b)
  {
    if x == [] {
      assert x + y == y;
    } else {
      assert (x + y)[1..] == x[1..] + y;
      ReplaceConcat(x[1..], y, a, b);
    }
  }

  /** A string of digits has no ',' to replace. */
  lemma {:induction false} DigitsUnchanged(x: string)
    requires AllDigits(x)
    ensures ReplaceChar(x, ',', '.') == x
  {
    if x != [] {
      DigitsUnchanged(x[1..]);
    }
  }

  /** The only ',' of an SRT timestamp is the millisecond separator, so replacing it gives the VTT form. */
  lemma VttTimestamp(ms: nat)
    ensures ReplaceChar(FormatTimestamp(ms), ',', '.') == Layout(ms, '.')
  {
    var h, m, s, f := Pad(Hours(ms), 2), Pad(Minutes(ms), 2), Pad(Seconds(ms), 2), Pad(Millis(ms), 3);
    DigitsUnchanged(h);
    DigitsUnchanged(m);
    DigitsUnchanged(s);
    DigitsUnchanged(f);
    assert ReplaceChar(":", ',', '.') == ":" && ReplaceChar([','], ',', '.') == ['.'];
    ReplaceConcat(h, ":", ',', '.');
    ReplaceConcat(h + ":", m, ',', '.');
    ReplaceConcat(h + ":" + m, ":", ',', '.');
    ReplaceConcat(h + ":" + m + ":", s, ',', '.');
    ReplaceConcat(h + ":" + m + ":" + s, [','], ',', '.');
    ReplaceConcat(h + ":" + m + ":" + s + [','], f, ',', '.');
  }

  /** Zero prints as in the SRT example. */
  lemma TimestampZero()
    ensures FormatTimestamp(0) == "00:00:00,000"
  {
    SmallPads();
    assert Hours(0) == 0 && Minutes(0) == 0 && Seconds(0) == 0 && Millis(0) == 0;
  }

  /** Two seconds print as in the SRT example. */
  lemma TimestampTwoSeconds()
    ensures FormatTimestamp(2000) == "00:00:02,000"
  {
    SmallPads();
    assert Hours(2000) == 0 && Minutes(2000) == 0 && Seconds(2000) == 2 && Millis(2000) == 0;
  }

  lemma SmallPads()
    ensures Pad(0, 2) == "00" && Pad(0, 3) == "000" && Pad(2, 2) == "02"
  {
    assert Digits(0) == "0" && Digits(2) == "2";
    assert Zeros(1) == "0";
    assert Zeros(2) == Zeros(1) + "0";
  }

  // ---------------------------------------------------------------- SRT and VTT layout

  /** The lines that the `SubtitleLine` constructor lets through. */
  type Line = l: SubtitleLine | l.Valid() witness SubtitleLine(1, 0, 1, "")

  /** The concatenation of `f` of each element, in order. */
  function Join<T>(xs: seq<T>, f: T -> string): string {
    if xs == [] then "" else Join(xs[..|xs| - 1], f) + f(xs[|xs| - 1])
  }

  lemma JoinSnoc<T>(xs: seq<T>, x: T, f: T -> string)
    ensures Join(xs + [x], f) == Join(xs, f) + f(x)
  {
    assert (xs + [x])[..|xs|] == xs;
  }

  /** Joining a concatenation is concatenating the joins: every element is laid out on its own, in order. */
  lemma {:induction false} JoinAppend<T>(a: seq<T>, b: seq<T>, f: T -> string)
    ensures Join(a + b, f) == Join(a, f) + Join(b, f)
    decreases |b|
  {
    if b == [] {
      assert a + b == a;
    } else {
      var b', x := b[..|b| - 1], b[|b| - 1];
      assert a + b == (a + b') + [x];
      assert b == b' + [x];
      calc {
        Join(a + b, f);
        { JoinSnoc(a + b', x, f); }
        Join(a + b', f) + f(x);
        { JoinAppend(a, b', f); }
        (Join(a, f) + Join(b', f)) + f(x);
        Join(a, f) + (Join(b', f) + f(x));
        { JoinSnoc(b', x, f); }
        Join(a, f) + Join(b, f);
      }
    }
  }

  /** One SRT block: index CRLF, `start --> end` CRLF, text CRLF CRLF. */
  function SrtBlock(line: Line): string {
    Digits(line.index) + CRLF + FormatTimestamp(line.start) + " --> " + FormatTimestamp(line.end) + CRLF
      + line.text + CRLF + CRLF
  }

  /** One WebVTT cue: `start --> end` LF text LF LF, with '.' before the milliseconds and no index. */
  function VttCue(line: Line): string {
    ReplaceChar(FormatTimestamp(line.start), ',', '.') + " --> " + ReplaceChar(FormatTimestamp(line.end), ',', '.')
      + "\n" + line.text + "\n\n"
  }

  /** The SRT document: the blocks of the lines in input order. */
  function Srt(lines: seq<Line>): string {
    Join(lines, SrtBlock)
  }

  /** The cues of the lines in input order (the WebVTT document without its header). */
  function VttCues(lines: seq<Line>): string {
    Join(lines, VttCue)
  }

  /** The `StringBuilder` loop of both formatters: appends `f` of each element to `prefix`, in order. */
  method AppendEach<T>(prefix: string, xs: seq<T>, f: T -> string) returns (sb: string)
    ensures sb == prefix + Join(xs, f)
  {
    sb := prefix;
    for i := 0 to |xs|
      invariant sb == prefix + Join(xs[..i], f)
    {
      assert xs[..i + 1] == xs[..i] + [xs[i]];
      JoinSnoc(xs[..i], xs[i], f);
      sb := sb + f(xs[i]);
    }
    assert xs[..|xs|] == xs;
  }

  /** `SubtitleFormatter.toSrt`: a null list is rejected, otherwise one block per line is appended. */
  method ToSrt(lines: Option<seq<Line>>) returns (r: Result<string>)
    ensures lines.None? ==> r == Err(NullArgument)
    ensures lines.Some? ==> r == Ok(Srt(lines.value))
  {
    if lines.None? {
      return Err(NullArgument);
    }
    var sb := AppendEach("", lines.value, SrtBlock);
    assert sb == Srt(lines.value);
    return Ok(sb);
  }

  /** `SubtitleFormatter.toVtt`: the `WEBVTT` header, a blank line, then one cue per line. */
  method ToVtt(lines: Option<seq<Line>>) returns (r: Result<string>)
    ensures lines.None? ==> r == Err(NullArgument)
    ensures lines.Some? ==> r == Ok(VttHeader + VttCues(lines.value))
  {
    if lines.None? {
      return Err(NullArgument);
    }
    var sb := AppendEach(VttHeader, lines.value, VttCue);
    return Ok(sb);
  }

  /** The SRT of a concatenation is the concatenation of the SRTs. */
  lemma SrtAppend(a: seq<Line>, b: seq<Line>)
    ensures Srt(a + b) == Srt(a) + Srt(b)
  {
    JoinAppend(a, b, SrtBlock);
  }

  /** Likewise for the WebVTT cues. */
  lemma VttCuesAppend(a: seq<Line>, b: seq<Line>)
    ensures VttCues(a + b) == VttCues(a) + VttCues(b)
  {
    JoinAppend(a, b, VttCue);
  }

  /** A one-line document is exactly that line's block; each cue uses the '.' timestamp layout. */
  lemma SingleLine(line: Line)
    ensures Srt([line]) == SrtBlock(line)
    ensures VttCues([line]) == Layout(line.start, '.') + " --> " + Layout(line.end, '.') + "\n" + line.text + "\n\n"
  {
    JoinSnoc([], line, SrtBlock);
    JoinSnoc([], line, VttCue);
    assert [] + [line] == [line];
    VttTimestamp(line.start);
    VttTimestamp(line.end);
  }

  /** An empty list gives "" as SRT and exactly the header as WebVTT. */
  lemma EmptyDocuments()
    ensures Srt([]) == ""
    ensures VttHeader + VttCues([]) == "WEBVTT\n\n"
  {
  }

  /** The first line of the formatter's test prints its timing as `00:00:00,000 --> 00:00:02,000`. */
  lemma SrtExample()
    ensures Srt([SubtitleLine(1, 0, 2000, "Hello world")])
         == "1" + CRLF + "00:00:00,000" + " --> " + "00:00:02,000" + CRLF + "Hello world" + CRLF + CRLF
  {
    var l: Line := SubtitleLine(1, 0, 2000, "Hello world");
    SingleLine(l);
    TimestampZero();
    TimestampTwoSeconds();
    assert Digits(1) == "1";
    BlockParts(l, "1", "00:00:00,000", "00:00:02,000");
  }

  lemma BlockParts(l: Line, ix: string, st: string, en: string)
    requires Digits(l.index) == ix && FormatTimestamp(l.start) == st && FormatTimestamp(l.end) == en
    ensures SrtBlock(l) == ix + CRLF + st + " --> " + en + CRLF + l.text + CRLF + CRLF
  {
  }
}
