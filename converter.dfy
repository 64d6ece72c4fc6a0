/**
 * The conversion stage (backend/conversion_service/converter.py): `convert_to_mp3`
 * derives the output path, asks ffprobe for the duration, follows ffmpeg's `time=`
 * reports while it encodes, writes a throttled share of them to the task record as
 * progress, and ends with a completed or failed record.
 */
module Converter {
  import opened Wrappers
  import opened Text
  import opened Disk
  import opened TaskStore

  // ---------------------------------------------------------------- the output path

  /** `STORAGE_DIR/<input basename without its extension>.mp3`. */
  function OutputPath(input: string): (out: string)
    ensures EndsWith(out, ".mp3")
    ensures Basename(out) == StemOf(Basename(input)) + ".mp3"
  {
    var name := StemOf(Basename(input)) + ".mp3";
    assert '/' !in name by {
      assert forall j :: 0 <= j < |StemOf(Basename(input))| ==> name[j] == Basename(input)[j];
    }
    BasenameOfJoin(StorageDir, name);
    Join(StorageDir, name)
  }

  /** A downloaded `<dir>/<title>.<ext>` becomes `STORAGE_DIR/<title>.mp3`. */
  lemma OutputKeepsTitle(dir: string, title: string, ext: string, i: nat)
    requires |dir| > 0 && dir[|dir| - 1] != '/'
    requires '/' !in title && '/' !in ext && '.' !in ext && i < |title| && title[i] != '.'
    ensures OutputPath(Join(dir, title + "." + ext)) == Join(StorageDir, title + ".mp3")
  {
    var name := title + "." + ext;
    assert '/' !in name by {
      assert forall j :: |title| < j < |name| ==> name[j] == ext[j - |title| - 1];
    }
    BasenameOfJoin(dir, name);
    StemOfNamed(title, ext, i);
  }

  // ---------------------------------------------------------------- the `time=` reports

  const Marker := "time="

  /**
   * `line.split("time=")[1].split()[0]`: the first whitespace-delimited token between the
   * first and the second "time="; None where Python raises IndexError.
   */
  function TimeToken(line: string): Option<string>
    requires Contains(line, Marker)
  {
    var k := IndexOf(line, Marker).value;
    FirstToken(Segment(line[k + |Marker|..]))
  }

  /** The text after a "time=" up to the next one, if any. */
  function Segment(after: string): string {
    match IndexOf(after, Marker)
    case None => after
    case Some(j) => after[..j]
  }

  /** `h, m, s = t.split(":")` then `int(h) * 3600 + int(m) * 60 + float(s)`, with Python's error texts. */
  function ParseClock(t: string): (r: Result<real>)
  {
    ClockOfFields(Split(t, ':'))
  }

  /** The unpacking and conversions of `ParseClock`, on the fields of the clock. */
  function ClockOfFields(parts: seq<string>): Result<real>
  {
    if |parts| < 3 then Err("not enough values to unpack (expected 3, got " + NatToText(|parts|) + ")")
    else if |parts| > 3 then Err("too many values to unpack (expected 3)")
    else
      match ParseInt(parts[0])
      case None => Err("invalid literal for int() with base 10: '" + parts[0] + "'")
      case Some(h) =>
        match ParseInt(parts[1])
        case None => Err("invalid literal for int() with base 10: '" + parts[1] + "'")
        case Some(m) =>
          match ParseReal(parts[2])
          case None => Err("could not convert string to float: '" + parts[2] + "'")
          case Some(s) => Ok(ClockSeconds(h, m, s))
  }

  /** The seconds a clock of `h` hours, `m` minutes and `s` seconds stands for. */
  function ClockSeconds(h: int, m: int, s: real): real {
    (h * 3600 + m * 60) as real + s
  }

  /** The time, in seconds, of an ffmpeg line holding "time=". */
  function ParseSample(line: string): Result<real>
    requires Contains(line, Marker)
  {
    match TimeToken(line)
    case None => Err("list index out of range")
    case Some(t) => ParseClock(t)
  }

  /** `min(100, t / total * 100)` for a known duration, else 50. */
  function Progress(t: real, total: real): (p: real)
    ensures p <= 100.0
    ensures t >= 0.0 ==> p >= 0.0
    ensures total <= 0.0 ==> p == 50.0
  {
    if total > 0.0 then
      var x := t / total * 100.0;
      if x < 100.0 then x else 100.0
    else 50.0
  }

  lemma ProgressMonotone(t: real, u: real, total: real)
    requires t <= u
    ensures Progress(t, total) <= Progress(u, total)
  {
    if total > 0.0 {
      assert t / total <= u / total;
    }
  }

  /** Two digits, padded with '0' on the left for values below 10. */
  function TwoDigits(n: nat): string {
    ZeroPad(NatToText(n), 2)
  }

  /** The seconds field ffmpeg prints for `cs` hundredths of a second: `SS.cc`. */
  function SecondsField(cs: nat): string {
    TwoDigits(cs / 100) + "." + TwoDigits(cs % 100)
  }

  /** `cs` hundredths of a second, in seconds. */
  function Hundredths(cs: nat): real {
    cs as real / 100.0
  }

  /** The clock ffmpeg prints: `HH:MM:SS.cc` for whole hours and minutes and `cs` hundredths. */
  function FfmpegClock(h: nat, m: nat, cs: nat): string {
    JoinWith([TwoDigits(h), TwoDigits(m), SecondsField(cs)], ':')
  }

  /** Two-digit padding keeps the value `int` reads. */
  lemma PaddedValue(n: nat)
    ensures var t := TwoDigits(n);
      |t| > 0 && AllDigits(t) && DigitsValue(t) == n
  {
    ZeroPadValue(NatToText(n), 2);
    DigitsValueOfNatToText(n);
  }

  /** `float` reads the seconds field back as `cs` hundredths. */
  lemma SecondsValue(cs: nat)
    ensures ParseReal(SecondsField(cs)) == Some(Hundredths(cs))
  {
    DivModBounds(cs, 100);
    var q: nat, r: nat := cs / 100, cs % 100;
    var whole, frac := TwoDigits(q), TwoDigits(r);
    PaddedValue(q);
    PaddedValue(r);
    NatToTextShort(r, 2);
    SecondsDecimal(cs, q, r, whole, frac);
    ParseDecimal(whole, frac);
    var s := whole + "." + frac;
    assert s[0] == whole[0] && s[|s| - 1] == frac[|frac| - 1];
    UnsignedParse(s, Hundredths(cs));
  }

  /** Whole seconds and two digits of hundredths make up the time in seconds. */
  lemma SecondsDecimal(cs: nat, q: nat, r: nat, whole: string, frac: string)
    requires cs == q * 100 + r
    requires AllDigits(whole) && AllDigits(frac) && |frac| == 2
    requires DigitsValue(whole) == q && DigitsValue(frac) == r
    ensures DecimalValue(whole, frac) == Hundredths(cs)
  {
    assert Pow10(2) == 100;
    QuotientValue(cs, 100, q, r);
  }

  /** Every clock ffmpeg prints is read back as the time it stands for. */
  lemma ClockRoundTrip(h: nat, m: nat, cs: nat)
    ensures ParseClock(FfmpegClock(h, m, cs)) == Ok(ClockSeconds(h, m, Hundredths(cs)))
  {
    var hh, mm, ss := TwoDigits(h), TwoDigits(m), SecondsField(cs);
    assert ':' !in hh && ParseInt(hh) == Some(h) by {
      PaddedValue(h);
      ParseDigits(hh);
    }
    assert ':' !in mm && ParseInt(mm) == Some(m) by {
      PaddedValue(m);
      ParseDigits(mm);
    }
    assert ':' !in ss by {
      SecondsFieldShape(cs);
    }
    assert ParseReal(ss) == Some(Hundredths(cs)) by {
      SecondsValue(cs);
    }
    ClockFields(hh, mm, ss, h, m);
  }

  /** A clock is digits, ':' and '.'. */
  lemma ClockShape(h: nat, m: nat, cs: nat)
    ensures forall j :: 0 <= j < |FfmpegClock(h, m, cs)| ==>
      var c := FfmpegClock(h, m, cs)[j]; IsDigit(c) || c == ':' || c == '.'
  {
    var hh, mm, ss := TwoDigits(h), TwoDigits(m), SecondsField(cs);
    PaddedValue(h);
    PaddedValue(m);
    SecondsFieldShape(cs);
    assert JoinWith([ss], ':') == ss;
    assert [hh, mm, ss][1..] == [mm, ss] && [mm, ss][1..] == [ss];
    assert JoinWith([mm, ss], ':') == mm + [':'] + ss;
    assert FfmpegClock(h, m, cs) == hh + [':'] + (mm + [':'] + ss);
  }

  /** The seconds field is digits around one '.'. */
  lemma SecondsFieldShape(cs: nat)
    ensures forall j :: 0 <= j < |SecondsField(cs)| ==> IsDigit(SecondsField(cs)[j]) || SecondsField(cs)[j] == '.'
  {
    PaddedValue(cs / 100);
    PaddedValue(cs % 100);
  }

  /** Three fields that read as `h`, `m` and some `s`, joined by ':', stand for `h`*3600 + `m`*60 + `s` seconds. */
  lemma ClockFields(hh: string, mm: string, ss: string, h: int, m: int)
    requires ':' !in hh && ':' !in mm && ':' !in ss
    requires ParseInt(hh) == Some(h) && ParseInt(mm) == Some(m) && ParseReal(ss).Some?
    ensures ParseClock(JoinWith([hh, mm, ss], ':')) == Ok(ClockSeconds(h, m, ParseReal(ss).value))
  {
    SplitThree(hh, mm, ss);
    ThreeFields(hh, mm, ss, h, m);
  }

  lemma SplitThree(hh: string, mm: string, ss: string)
    requires ':' !in hh && ':' !in mm && ':' !in ss
    ensures Split(JoinWith([hh, mm, ss], ':'), ':') == [hh, mm, ss]
  {
    var fields := [hh, mm, ss];
    assert forall i :: 0 <= i < |fields| ==> ':' !in fields[i];
    SplitJoin(fields, ':');
  }

  lemma ThreeFields(hh: string, mm: string, ss: string, h: int, m: int)
    requires ParseInt(hh) == Some(h) && ParseInt(mm) == Some(m) && ParseReal(ss).Some?
    ensures ClockOfFields([hh, mm, ss]) == Ok(ClockSeconds(h, m, ParseReal(ss).value))
  {
  }

  /** No "time=" can start inside a text that has no 't'. */
  lemma NoMarkerWithoutT(tok: string, rest: string, j: nat)
    requires 't' !in tok && (|rest| > 0 ==> rest[0] != 't') && OccursAt(tok + rest, Marker, j)
    ensures j > |tok|
  {
    var s := tok + rest;
    assert s[j] == 't';
  }

  /**
   * The token after the first "time=" of a line: a prefix without "time=", the marker,
   * a token without 't' or whitespace, and the rest of the line from a whitespace on.
   */
  lemma TokenAfterMarker(prefix: string, tok: string, rest: string)
    requires !Contains(prefix, Marker)
    requires |tok| > 0 && 't' !in tok && forall j :: 0 <= j < |tok| ==> !IsSpace(tok[j])
    requires |rest| > 0 ==> IsSpace(rest[0])
    ensures Contains(prefix + Marker + tok + rest, Marker)
    ensures TimeToken(prefix + Marker + tok + rest) == Some(tok)
  {
    var head := prefix + Marker;
    MarkerFirstAt(prefix, tok + rest);
    AppendAssoc(head, tok, rest);
    assert (head + (tok + rest))[|head|..] == tok + rest;
    SegmentOf(tok, rest);
  }

  /** The first "time=" of a line is the one after a prefix that has none. */
  lemma MarkerFirstAt(prefix: string, suffix: string)
    requires !Contains(prefix, Marker)
    ensures IndexOf(prefix + Marker + suffix, Marker) == Some(|prefix|)
  {
    var line := prefix + Marker + suffix;
    assert OccursAt(line, Marker, |prefix|);
    forall j: nat | j < |prefix|
      ensures !OccursAt(line, Marker, j)
    {
      if j + |Marker| <= |prefix| {
        assert !OccursAt(prefix, Marker, j);
        assert line[j..j + |Marker|] == prefix[j..j + |Marker|];
      } else {
        var k := j + 4 - |prefix|;
        assert 0 <= k < 4 && Marker[k] != '=';
        assert line[j + 4] == Marker[k];
        assert j + |Marker| <= |line| ==> line[j..j + |Marker|][4] == line[j + 4];
      }
    }
  }

  /** The token that starts a segment is the token before any further "time=". */
  lemma SegmentOf(tok: string, rest: string)
    requires |tok| > 0 && 't' !in tok && forall j :: 0 <= j < |tok| ==> !IsSpace(tok[j])
    requires |rest| > 0 ==> IsSpace(rest[0])
    ensures FirstToken(Segment(tok + rest)) == Some(tok)
  {
    var after := tok + rest;
    match IndexOf(after, Marker) {
      case None =>
        FirstTokenOf(tok, rest);
      case Some(j) =>
        NoMarkerWithoutT(tok, rest, j);
        assert after[..j] == tok + rest[..j - |tok|];
        FirstTokenOf(tok, rest[..j - |tok|]);
    }
  }

  /** A status line from ffmpeg yields its clock as the sample time. */
  lemma SampleOfStatusLine(prefix: string, h: nat, m: nat, cs: nat, rest: string)
    requires !Contains(prefix, Marker)
    requires |rest| > 0 ==> IsSpace(rest[0])
    ensures var line := prefix + Marker + FfmpegClock(h, m, cs) + rest;
      Contains(line, Marker)
      && ParseSample(line) == Ok(ClockSeconds(h, m, Hundredths(cs)))
  {
    var clock := FfmpegClock(h, m, cs);
    ClockShape(h, m, cs);
    TokenAfterMarker(prefix, clock, rest);
    ClockRoundTrip(h, m, cs);
  }

  /**
   * ffmpeg's "time=N/A", printed before the first timestamp is known, does not parse:
   * the unpacking raises, and the conversion fails.
   */
  lemma NotAvailableFails(prefix: string, rest: string)
    requires !Contains(prefix, Marker)
    requires |rest| > 0 ==> IsSpace(rest[0])
    ensures var line := prefix + Marker + "N/A" + rest;
      Contains(line, Marker)
      && ParseSample(line) == Err("not enough values to unpack (expected 3, got 1)")
  {
    TokenAfterMarker(prefix, "N/A", rest);
    NotAvailableClock();
  }

  lemma NotAvailableClock()
    ensures ParseClock("N/A") == Err("not enough values to unpack (expected 3, got 1)")
  {
    assert Split("N/A", ':') == ["N/A"];
    assert NatToText(1) == "1";
  }

  // ---------------------------------------------------------------- the progress loop

  /** The sample times read from ffmpeg's lines, and the error that ends the reading, if any. */
  datatype Reading = Reading(times: seq<real>, error: Option<string>)

  /**
   * Reading `lines` in order: a line without "time=" is skipped; a sample that does not
   * parse ends the reading with its error, keeping the times read before it.
   */
  function Readings(lines: seq<string>): (r: Reading)
    ensures |r.times| <= |lines|
    decreases |lines|
  {
    if |lines| == 0 then Reading([], None)
    else if !Contains(lines[0], Marker) then Readings(lines[1..])
    else
      match ParseSample(lines[0])
      case Err(e) => Reading([], Some(e))
      case Ok(t) =>
        var rest := Readings(lines[1..]);
        Reading([t] + rest.times, rest.error)
  }

  /**
   * The progress values written for the sample `times` when `counter` samples were seen
   * before them: a sample is written when the counter is a multiple of 3 or its progress
   * reaches 100, and the counter counts every sample.
   */
  function Throttle(times: seq<real>, total: real, counter: nat): (written: seq<real>)
    ensures |written| <= |times|
    decreases |times|
  {
    if |times| == 0 then [] else SampleWrite(times[0], total, counter) + Throttle(times[1..], total, counter + 1)
  }

  /** The progress written for sample time `t` with the counter at `counter`: on every third sample or at 100. */
  function SampleWrite(t: real, total: real, counter: nat): (written: seq<real>)
    ensures |written| <= 1
  {
    var p := Progress(t, total);
    if counter % 3 == 0 || p >= 100.0 then [p] else []
  }

  lemma {:induction false} ThrottleAppend(a: seq<real>, b: seq<real>, total: real, c: nat)
    ensures Throttle(a + b, total, c) == Throttle(a, total, c) + Throttle(b, total, c + |a|)
    decreases |a|
  {
    if |a| > 0 {
      var first := SampleWrite(a[0], total, c);
      assert (a + b)[0] == a[0] && (a + b)[1..] == a[1..] + b;
      assert Throttle(a + b, total, c) == first + Throttle(a[1..] + b, total, c + 1);
      ThrottleAppend(a[1..], b, total, c + 1);
      AppendAssoc(first, Throttle(a[1..], total, c + 1), Throttle(b, total, c + |a|));
    } else {
      assert a + b == b;
    }
  }

  function SamplePatch(p: real): Patch {
    Patch(status := Some(Converting), progress := Some(p),
          message := Some("Converting to MP3... " + FormatFixed(p, 1) + "%"))
  }

  function SamplePatches(ps: seq<real>): (patches: seq<Patch>)
    ensures |patches| == |ps|
    ensures forall i :: 0 <= i < |ps| ==> patches[i] == SamplePatch(ps[i])
  {
    seq(|ps|, i requires 0 <= i < |ps| => SamplePatch(ps[i]))
  }

  /** The writes the loop makes for the samples of `reading` against a duration of `total`. */
  function SampleWrites(reading: Reading, total: real): seq<Patch> {
    SamplePatches(Throttle(reading.times, total, 0))
  }

  /** How many of the counters `c`, `c`+1, ..., `c`+`n`-1 are multiples of 3. */
  function Thirds(c: nat, n: nat): nat
    decreases n
  {
    if n == 0 then 0 else (if c % 3 == 0 then 1 else 0) + Thirds(c + 1, n - 1)
  }

  lemma {:induction false} ThirdsCount(c: nat, n: nat)
    ensures Thirds(c, n) == (c + n + 2) / 3 - (c + 2) / 3
    decreases n
  {
    if n > 0 {
      ThirdsCount(c + 1, n - 1);
    }
  }

  /**
   * The throttle: while no sample reaches 100, exactly the samples whose counter is a
   * multiple of 3 are written.
   */
  lemma {:induction false} WritesEveryThirdSample(times: seq<real>, total: real, c: nat)
    requires forall i :: 0 <= i < |times| ==> Progress(times[i], total) < 100.0
    ensures |Throttle(times, total, c)| == Thirds(c, |times|)
    decreases |times|
  {
    if |times| > 0 {
      assert Progress(times[0], total) < 100.0;
      WritesEveryThirdSample(times[1..], total, c + 1);
    }
  }

  /** From the first sample on, one in three is written: the 1st, the 4th, the 7th, ... */
  lemma OneInThree(times: seq<real>, total: real)
    requires forall i :: 0 <= i < |times| ==> Progress(times[i], total) < 100.0
    ensures |Throttle(times, total, 0)| == (|times| + 2) / 3
  {
    WritesEveryThirdSample(times, total, 0);
    ThirdsCount(0, |times|);
  }

  /** A sample that reaches 100 is always written, whatever the counter. */
  lemma FullSampleWritten(t: real, times: seq<real>, total: real, c: nat)
    requires Progress(t, total) >= 100.0
    ensures Throttle([t] + times, total, c)[0] == 100.0
  {
    assert ([t] + times)[1..] == times;
  }

  /** Every progress written is at most 100, not negative for times that are not, and 50 for an unknown duration. */
  lemma {:induction false} ThrottleBounded(times: seq<real>, total: real, c: nat)
    ensures forall i :: 0 <= i < |Throttle(times, total, c)| ==>
      var p := Throttle(times, total, c)[i];
      p <= 100.0 && (total <= 0.0 ==> p == 50.0)
      && ((forall j :: 0 <= j < |times| ==> times[j] >= 0.0) ==> p >= 0.0)
    decreases |times|
  {
    if |times| > 0 {
      ThrottleBounded(times[1..], total, c + 1);
      assert Throttle(times, total, c) == SampleWrite(times[0], total, c) + Throttle(times[1..], total, c + 1);
      if forall j :: 0 <= j < |times| ==> times[j] >= 0.0 {
        assert forall j :: 0 <= j < |times[1..]| ==> times[1..][j] == times[j + 1];
      }
    }
  }

  /** Every progress written for times from `lo` on is at least the progress of `lo`. */
  lemma {:induction false} ThrottleAbove(times: seq<real>, total: real, c: nat, lo: real)
    requires forall j :: 0 <= j < |times| ==> lo <= times[j]
    ensures forall i :: 0 <= i < |Throttle(times, total, c)| ==> Progress(lo, total) <= Throttle(times, total, c)[i]
    decreases |times|
  {
    if |times| > 0 {
      ProgressMonotone(lo, times[0], total);
      ThrottleAbove(times[1..], total, c + 1, lo);
    }
  }

  /** ffmpeg's clock only moves forward, so the progress written never falls. */
  lemma {:induction false} ThrottleNeverFalls(times: seq<real>, total: real, c: nat)
    requires forall i, j :: 0 <= i < j < |times| ==> times[i] <= times[j]
    ensures forall i, j :: 0 <= i < j < |Throttle(times, total, c)| ==>
      Throttle(times, total, c)[i] <= Throttle(times, total, c)[j]
    decreases |times|
  {
    if |times| > 0 {
      var rest := Throttle(times[1..], total, c + 1);
      ThrottleNeverFalls(times[1..], total, c + 1);
      ThrottleAbove(times[1..], total, c + 1, times[0]);
      assert Throttle(times, total, c) == SampleWrite(times[0], total, c) + rest;
    }
  }

  /** Lines without "time=" are passed over. */
  lemma SkipsOtherLines(lines: seq<string>, i: nat)
    requires i < |lines| && !Contains(lines[i], Marker)
    ensures Readings(lines[i..]) == Readings(lines[i + 1..])
  {
    assert lines[i..][1..] == lines[i + 1..];
  }

  /** A sample that parses is read, and the reading goes on after it. */
  lemma ReadsSample(lines: seq<string>, i: nat)
    requires i < |lines| && Contains(lines[i], Marker) && ParseSample(lines[i]).Ok?
    ensures Readings(lines[i..]).times == [ParseSample(lines[i]).value] + Readings(lines[i + 1..]).times
    ensures Readings(lines[i..]).error == Readings(lines[i + 1..]).error
  {
    assert lines[i..][1..] == lines[i + 1..];
  }

  /** A sample that fails to parse ends the reading there with its error. */
  lemma BadSampleStops(lines: seq<string>, i: nat)
    requires i < |lines| && Contains(lines[i], Marker) && ParseSample(lines[i]).Err?
    ensures Readings(lines[i..]) == Reading([], Some(ParseSample(lines[i]).message))
  {
  }

  /** The progress written for one more sample `t` after `seen`. */
  lemma ThrottleStep(seen: seq<real>, t: real, total: real)
    ensures Throttle(seen + [t], total, 0) == Throttle(seen, total, 0) + SampleWrite(t, total, |seen|)
  {
    ThrottleAppend(seen, [t], total, 0);
    var first := SampleWrite(t, total, |seen|);
    assert [t][0] == t && [t][1..] == [];
    assert Throttle([t], total, |seen|) == first + Throttle([], total, |seen| + 1);
    assert first + [] == first;
  }

  lemma SamplePatchesSnoc(ps: seq<real>, p: real)
    ensures SamplePatches(ps + [p]) == SamplePatches(ps) + [SamplePatch(p)]
  {
  }

  /** A sample on the `|seen|`-th line with a marker that is written. */
  lemma ThrottleTake(seen: seq<real>, t: real, total: real)
    requires |seen| % 3 == 0 || Progress(t, total) >= 100.0
    ensures Throttle(seen + [t], total, 0) == Throttle(seen, total, 0) + [Progress(t, total)]
  {
    ThrottleStep(seen, t, total);
  }

  /** A sample that is counted but not written. */
  lemma ThrottleSkip(seen: seq<real>, t: real, total: real)
    requires !(|seen| % 3 == 0 || Progress(t, total) >= 100.0)
    ensures Throttle(seen + [t], total, 0) == Throttle(seen, total, 0)
  {
    ThrottleStep(seen, t, total);
    assert Throttle(seen, total, 0) + [] == Throttle(seen, total, 0);
  }

  /** The samples `seen` before line `i` and the reading from line `i` on make up the whole reading. */
  predicate ReadSoFar(lines: seq<string>, i: nat, seen: seq<real>)
    requires i <= |lines|
  {
    Readings(lines).times == seen + Readings(lines[i..]).times
    && Readings(lines).error == Readings(lines[i..]).error
  }

  lemma ReadNothingYet(lines: seq<string>)
    ensures ReadSoFar(lines, 0, [])
  {
    assert lines[0..] == lines;
  }

  lemma ReadOtherLine(lines: seq<string>, i: nat, seen: seq<real>)
    requires i < |lines| && !Contains(lines[i], Marker) && ReadSoFar(lines, i, seen)
    ensures ReadSoFar(lines, i + 1, seen)
  {
    SkipsOtherLines(lines, i);
  }

  lemma ReadSample(lines: seq<string>, i: nat, seen: seq<real>)
    requires i < |lines| && Contains(lines[i], Marker) && ParseSample(lines[i]).Ok?
    requires ReadSoFar(lines, i, seen)
    ensures ReadSoFar(lines, i + 1, seen + [ParseSample(lines[i]).value])
  {
    ReadsSample(lines, i);
    AppendAssoc(seen, [ParseSample(lines[i]).value], Readings(lines[i + 1..]).times);
  }

  lemma ReadBadSample(lines: seq<string>, i: nat, seen: seq<real>)
    requires i < |lines| && Contains(lines[i], Marker) && ParseSample(lines[i]).Err?
    requires ReadSoFar(lines, i, seen)
    ensures Readings(lines) == Reading(seen, Some(ParseSample(lines[i]).message))
  {
    BadSampleStops(lines, i);
  }

  lemma ReadAll(lines: seq<string>, seen: seq<real>)
    requires ReadSoFar(lines, |lines|, seen)
    ensures Readings(lines) == Reading(seen, None)
  {
    assert lines[|lines|..] == [];
  }

  /** Writing one more sample's patch extends the run of sample writes. */
  lemma WriteStep(st: StoreState, id: string, written: seq<real>, p: real, now: int)
    ensures UpdateAll(st, id, SamplePatches(written + [p]), now)
         == Update(UpdateAll(st, id, SamplePatches(written), now), id, SamplePatch(p), now)
  {
    SamplePatchesSnoc(written, p);
    UpdateAllSnoc(st, id, SamplePatches(written), SamplePatch(p), now);
  }

  /**
   * The `while True` loop over ffmpeg's stderr lines: each line holding "time=" is parsed
   * and counted, and written to the task record on every third sample or at 100.
   */
  method FollowProgress(store: TaskStoreServer, taskId: string, lines: seq<string>, total: real, now: int)
    returns (error: Option<string>)
    modifies store
    ensures error == Readings(lines).error
    ensures store.State() == UpdateAll(old(store.State()), taskId, SampleWrites(Readings(lines), total), now)
  {
    ghost var st0 := store.State();
    ghost var seen: seq<real> := [];
    ghost var written: seq<real> := [];
    var counter := 0;
    var i := 0;
    ReadNothingYet(lines);
    while i < |lines|
      invariant 0 <= i <= |lines|
      invariant counter == |seen|
      invariant ReadSoFar(lines, i, seen)
      invariant written == Throttle(seen, total, 0)
      invariant store.State() == UpdateAll(st0, taskId, SamplePatches(written), now)
    {
      var line := lines[i];
      if Contains(line, Marker) {
        var sample := ParseSample(line);
        if sample.Err? {
          ReadBadSample(lines, i, seen);
          return Some(sample.message);
        }
        var t := sample.value;
        var p := Progress(t, total);
        ReadSample(lines, i, seen);
        if counter % 3 == 0 || p >= 100.0 {
          store.UpdateTask(taskId, SamplePatch(p), now);
          ThrottleTake(seen, t, total);
          WriteStep(st0, taskId, written, p, now);
          written := written + [p];
        } else {
          ThrottleSkip(seen, t, total);
        }
        seen := seen + [t];
        counter := counter + 1;
      } else {
        ReadOtherLine(lines, i, seen);
      }
      i := i + 1;
      assert ReadSoFar(lines, i, seen);
    }
    ReadAll(lines, seen);
    error := None;
  }

  // ---------------------------------------------------------------- the stage

  /** How ffprobe ended: its exit code and what it printed. */
  datatype ProbeOutcome = Probe(code: int, stdout: string, stderr: string)

  /** `(success, output_path, error_message)`. */
  datatype ConversionResult = Converted(path: string) | ConversionFailed(error: string)

  /** The writes one call makes to the task record, and what it returns. */
  datatype ConversionPlan = ConversionPlan(patches: seq<Patch>, result: ConversionResult)

  const InitPatch := Patch(status := Some(Converting), progress := Some(0.0),
                           message := Some("Initializing conversion..."))
  const ErrorPrefix := "Conversion error: "
  const NotInstalled := "ffmpeg not installed or not in PATH"

  /** `float(stdout.strip())`, or 0 where it raises. */
  function TotalDuration(stdout: string): real {
    ParseReal(stdout).GetOr(0.0)
  }

  function DonePatch(out: string, elapsed: real): Patch {
    Patch(status := Some(Completed), progress := Some(100.0),
          message := Some("Conversion completed in " + FormatFixed(elapsed, 1) + " seconds"),
          filePath := Some(out))
  }

  /** Any exception: status failed and the error, nothing else. */
  function Failure(patches: seq<Patch>, reason: string): ConversionPlan {
    ConversionPlan(patches + [Patch(status := Some(Failed), error := Some(ErrorPrefix + reason))],
                   ConversionFailed(ErrorPrefix + reason))
  }

  /**
   * What ends the encode in failure once the duration is known: a sample that does not
   * parse, else a non-zero exit code. The text after the code is the rest of stderr,
   * which the loop has already read to its end.
   */
  function EncodeFailure(reading: Reading, exitCode: int): Option<string> {
    if reading.error.Some? then reading.error
    else if exitCode != 0 then Some("ffmpeg conversion failed with code " + IntToText(exitCode) + ": ")
    else None
  }

  /**
   * The stage once the record says converting: `probe` is how ffprobe ended, `reading`
   * what the loop read from ffmpeg's stderr, `exitCode` how ffmpeg ended and `elapsed`
   * how long it all took.
   */
  function AfterInit(input: string, probe: ProbeOutcome, reading: Reading, exitCode: int, elapsed: real): ConversionPlan {
    if probe.code != 0 then Failure([], "Failed to get audio duration: " + probe.stderr)
    else Encoding(input, TotalDuration(probe.stdout), reading, exitCode, elapsed)
  }

  /** The encode against a duration of `total`: the progress writes, then failure or completion. */
  function Encoding(input: string, total: real, reading: Reading, exitCode: int, elapsed: real): ConversionPlan {
    var writes := SampleWrites(reading, total);
    match EncodeFailure(reading, exitCode)
    case Some(reason) => Failure(writes, reason)
    case None => ConversionPlan(writes + [DonePatch(OutputPath(input), elapsed)], Converted(OutputPath(input)))
  }

  /** `convert_to_mp3(task_id, input_file)`, `installed` saying whether ffmpeg can be started. */
  function ConvertPlan(input: string, installed: bool, probe: ProbeOutcome, reading: Reading,
                       exitCode: int, elapsed: real): ConversionPlan
  {
    if !installed then Failure([], NotInstalled)
    else
      var rest := AfterInit(input, probe, reading, exitCode, elapsed);
      ConversionPlan([InitPatch] + rest.patches, rest.result)
  }

  /** The files after a best-effort removal of `path`. */
  function RemovedIfAllowed(files: map<string, FileEntry>, path: string, undeletable: set<string>): map<string, FileEntry> {
    if path in files && path !in undeletable then files - {path} else files
  }

  /**
   * The files once ffmpeg has run with `-y out`: whatever it left at `out` (its whole
   * output, a partial one, or nothing) replaces what was there.
   */
  function WithOutput(files: map<string, FileEntry>, out: string, encoded: Option<FileEntry>): (r: map<string, FileEntry>)
    ensures encoded.Some? ==> out in r && r[out] == encoded.value
    ensures forall p :: p != out ==> (p in r <==> p in files) && (p in r ==> r[p] == files[p])
  {
    if encoded.Some? then files[out := encoded.value] else files
  }

  /**
   * The files after the encode: ffmpeg's output in place, and on success the input removed
   * where the filesystem allows.
   */
  function AfterEncode(files: map<string, FileEntry>, input: string, encoded: Option<FileEntry>, converted: bool,
                       undeletable: set<string>): map<string, FileEntry>
  {
    var written := WithOutput(files, OutputPath(input), encoded);
    if converted then RemovedIfAllowed(written, input, undeletable) else written
  }

  /** The files after `convert_to_mp3`: untouched unless ffmpeg was started, which needs it installed and ffprobe to succeed. */
  function FilesAfter(files: map<string, FileEntry>, input: string, installed: bool, probe: ProbeOutcome,
                      encoded: Option<FileEntry>, converted: bool, undeletable: set<string>): map<string, FileEntry>
  {
    if installed && probe.code == 0 then AfterEncode(files, input, encoded, converted, undeletable) else files
  }

  /**
   * `convert_to_mp3`: `encoded` is what ffmpeg leaves at the output path once started,
   * whether it succeeds or not; on success the input is removed where the filesystem
   * allows, and a failed removal changes nothing else.
   */
  method ConvertToMp3(store: TaskStoreServer, fs: FileSystem, taskId: string, input: string, installed: bool,
                      probe: ProbeOutcome, lines: seq<string>, exitCode: int, encoded: Option<FileEntry>,
                      elapsed: real, now: int)
    returns (result: ConversionResult)
    modifies store, fs
    ensures result == ConvertPlan(input, installed, probe, Readings(lines), exitCode, elapsed).result
    ensures store.State() ==
      UpdateAll(old(store.State()), taskId, ConvertPlan(input, installed, probe, Readings(lines), exitCode, elapsed).patches, now)
    ensures fs.undeletable == old(fs.undeletable)
    ensures fs.files == FilesAfter(old(fs.files), input, installed, probe, encoded, result.Converted?, fs.undeletable)
  {
    ghost var st0 := store.State();
    if !installed {
      var plan := Failure([], NotInstalled);
      store.UpdateTask(taskId, plan.patches[0], now);
      UpdateAllSnoc(st0, taskId, [], plan.patches[0], now);
      assert [] + [plan.patches[0]] == plan.patches;
      return plan.result;
    }
    store.UpdateTask(taskId, InitPatch, now);
    UpdateAllSnoc(st0, taskId, [], InitPatch, now);

    if probe.code != 0 {
      var plan := Failure([], "Failed to get audio duration: " + probe.stderr);
      store.UpdateTask(taskId, plan.patches[0], now);
      UpdateAllSnoc(st0, taskId, [InitPatch], plan.patches[0], now);
      assert [InitPatch] + [plan.patches[0]] == [InitPatch] + plan.patches;
      return plan.result;
    }
    var total := TotalDuration(probe.stdout);
    result := Encode(store, fs, taskId, input, total, lines, exitCode, encoded, elapsed, now);
    UpdateAllAppend(st0, taskId, [InitPatch], Encoding(input, total, Readings(lines), exitCode, elapsed).patches, now);
  }

  /** From the start of ffmpeg on: follow its progress, then record the failure or the completion. */
  method Encode(store: TaskStoreServer, fs: FileSystem, taskId: string, input: string, total: real,
                lines: seq<string>, exitCode: int, encoded: Option<FileEntry>, elapsed: real, now: int)
    returns (result: ConversionResult)
    modifies store, fs
    ensures result == Encoding(input, total, Readings(lines), exitCode, elapsed).result
    ensures store.State() ==
      UpdateAll(old(store.State()), taskId, Encoding(input, total, Readings(lines), exitCode, elapsed).patches, now)
    ensures fs.undeletable == old(fs.undeletable)
    ensures fs.files == AfterEncode(old(fs.files), input, encoded, result.Converted?, fs.undeletable)
  {
    ghost var st0 := store.State();
    var out := OutputPath(input);
    ghost var writes := SampleWrites(Readings(lines), total);
    if encoded.Some? {
      fs.Write(out, encoded.value);
    }
    var error := FollowProgress(store, taskId, lines, total, now);

    var reason: Option<string> := None;
    if error.Some? {
      reason := error;
    } else if exitCode != 0 {
      reason := Some("ffmpeg conversion failed with code " + IntToText(exitCode) + ": ");
    }
    assert reason == EncodeFailure(Readings(lines), exitCode);
    if reason.Some? {
      var failed := Patch(status := Some(Failed), error := Some(ErrorPrefix + reason.value));
      store.UpdateTask(taskId, failed, now);
      UpdateAllSnoc(st0, taskId, writes, failed, now);
      return ConversionFailed(ErrorPrefix + reason.value);
    }

    var done := DonePatch(out, elapsed);
    store.UpdateTask(taskId, done, now);
    UpdateAllSnoc(st0, taskId, writes, done, now);
    var _ := fs.Remove(input);
    result := Converted(out);
  }

  // ---------------------------------------------------------------- properties of a run

  /** A failure leaves the record failed with the error returned, "Conversion error: " and the reason. */
  lemma FailureRecord(r: TaskRecord, patches: seq<Patch>, reason: string)
    ensures var plan := Failure(patches, reason);
      var final := ApplyAll(r, plan.patches);
      plan.result.ConversionFailed? && final.status == Some(Failed) && final.error == Some(plan.result.error)
      && |ErrorPrefix| <= |plan.result.error| && plan.result.error[..|ErrorPrefix|] == ErrorPrefix
  {
    var f := Patch(status := Some(Failed), error := Some(ErrorPrefix + reason));
    ApplyAllSnoc(r, patches, f);
    assert (ErrorPrefix + reason)[..|ErrorPrefix|] == ErrorPrefix;
  }

  /**
   * What the call returns is what the record ends up saying: a failure leaves status
   * failed and the returned error, which starts with "Conversion error: "; a success
   * leaves status completed at progress 100 with the output path as the file path.
   */
  lemma ResultAgreesWithRecord(input: string, installed: bool, probe: ProbeOutcome, reading: Reading,
                               exitCode: int, elapsed: real, r: TaskRecord)
    ensures var plan := ConvertPlan(input, installed, probe, reading, exitCode, elapsed);
      var final := ApplyAll(r, plan.patches);
      match plan.result
      case ConversionFailed(e) =>
        final.status == Some(Failed) && final.error == Some(e)
        && |ErrorPrefix| <= |e| && e[..|ErrorPrefix|] == ErrorPrefix
      case Converted(out) =>
        out == OutputPath(input) && final.status == Some(Completed)
        && final.progress == Some(100.0) && final.filePath == Some(out)
  {
    var plan := ConvertPlan(input, installed, probe, reading, exitCode, elapsed);
    if !installed {
      FailureRecord(r, [], NotInstalled);
    } else if probe.code != 0 {
      var reason := "Failed to get audio duration: " + probe.stderr;
      assert plan == Failure([InitPatch], reason);
      FailureRecord(r, [InitPatch], reason);
    } else {
      var writes := SampleWrites(reading, TotalDuration(probe.stdout));
      match EncodeFailure(reading, exitCode) {
        case Some(reason) =>
          var f := Patch(status := Some(Failed), error := Some(ErrorPrefix + reason));
          AppendAssoc([InitPatch], writes, [f]);
          assert plan == Failure([InitPatch] + writes, reason);
          FailureRecord(r, [InitPatch] + writes, reason);
        case None =>
          var done := DonePatch(OutputPath(input), elapsed);
          AppendAssoc([InitPatch], writes, [done]);
          assert plan.patches == ([InitPatch] + writes) + [done];
          ApplyAllSnoc(r, [InitPatch] + writes, done);
      }
    }
  }

  /**
   * A conversion that fails once ffmpeg has started leaves ffmpeg's output at the output
   * path and keeps the input; one that stops before ffmpeg starts touches no file.
   */
  lemma FailedConversionKeepsFiles(files: map<string, FileEntry>, input: string, installed: bool, probe: ProbeOutcome,
                                   encoded: Option<FileEntry>, undeletable: set<string>)
    ensures var r := FilesAfter(files, input, installed, probe, encoded, false, undeletable);
      (!installed || probe.code != 0 ==> r == files)
      && (installed && probe.code == 0 && encoded.Some? ==> OutputPath(input) in r && r[OutputPath(input)] == encoded.value)
      && (input != OutputPath(input) ==> (input in r <==> input in files))
  {
  }

  /**
   * A failed encode is reported without ffmpeg's diagnostics: the progress loop has
   * already read stderr to its end, so the text after the exit code is always empty.
   */
  lemma EncoderErrorOmitsDiagnostics(input: string, probe: ProbeOutcome, reading: Reading,
                                     exitCode: int, elapsed: real)
    requires probe.code == 0 && exitCode != 0 && reading.error.None?
    ensures ConvertPlan(input, true, probe, reading, exitCode, elapsed).result
      == ConversionFailed(ErrorPrefix + "ffmpeg conversion failed with code " + IntToText(exitCode) + ": ")
  {
    var a, n := "ffmpeg conversion failed with code ", IntToText(exitCode);
    AppendAssoc(ErrorPrefix, a + n, ": ");
    AppendAssoc(ErrorPrefix, a, n);
  }

  /** Without ffmpeg nothing but the failure is written: the record never says converting. */
  lemma MissingEncoderFailsAtOnce(input: string, probe: ProbeOutcome, reading: Reading,
                                  exitCode: int, elapsed: real)
    ensures var plan := ConvertPlan(input, false, probe, reading, exitCode, elapsed);
      plan.patches == [Patch(status := Some(Failed), error := Some(ErrorPrefix + NotInstalled))]
      && plan.result == ConversionFailed(ErrorPrefix + NotInstalled)
  {
    assert [] + [Patch(status := Some(Failed), error := Some(ErrorPrefix + NotInstalled))]
      == [Patch(status := Some(Failed), error := Some(ErrorPrefix + NotInstalled))];
  }

  /** ffprobe's "N/A" for a duration it cannot tell is not a number: the duration counts as unknown. */
  lemma NotANumberDuration()
    ensures TotalDuration("N/A") == 0.0
  {
    NotANumber("N/A");
  }

  /** With the duration unknown every sample written reports 50. */
  lemma UnknownDurationReportsHalf(reading: Reading, total: real)
    requires total <= 0.0
    ensures forall i :: 0 <= i < |SampleWrites(reading, total)| ==> SampleWrites(reading, total)[i].progress == Some(50.0)
  {
    ThrottleBounded(reading.times, total, 0);
  }
}
