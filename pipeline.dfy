/**
 * `Main.extract_metadata_from_video`: the cut times read from the scene
 * detector's output, the probed duration appended as the final cut, and
 * the metadata document written for them. The two ffmpeg/ffprobe runs
 * are replaced by their outputs, passed in as text.
 */
module Pipeline {
  import opened Wrappers
  import opened Decimal
  import opened CutTimeParser
  import opened Metadata
  import opened Seqs

  /**
   * The cut list of lines 158-160: the parsed cut times, then the
   * duration in milliseconds; the first `ValueError` otherwise, the
   * detector's before the probe's.
   */
  function VideoCuts(cutsRaw: seq<string>, durationOutput: string): (r: Result<seq<nat>, Error>)
    ensures r.Ok? <==> CutTimes(cutsRaw).Ok? && ParseDuration(durationOutput).Ok?
    ensures CutTimes(cutsRaw).Err? ==> r == Err(CutTimes(cutsRaw).error)
    ensures r.Ok? ==>
      && |r.value| == |Captures(cutsRaw)| + 2
      && r.value[0] == 0
      && r.value[|r.value| - 1] == ParseDuration(durationOutput).value
  {
    match CutTimes(cutsRaw)
    case Err(e) => Err(e)
    case Ok(ts) =>
      match ParseDuration(durationOutput)
      case Err(e) => Err(e)
      case Ok(d) => Ok(ts + [d])
  }

  /** The metadata document written for a video, or the error raised on the way. */
  function VideoMetadata(cutsRaw: seq<string>, durationOutput: string, artist: string, title: string): (r: Result<string, Error>)
    ensures r.Ok? <==> CutTimes(cutsRaw).Ok? && ParseDuration(durationOutput).Ok?
    ensures CutTimes(cutsRaw).Err? ==> r == Err(CutTimes(cutsRaw).error)
  {
    match VideoCuts(cutsRaw, durationOutput)
    case Err(e) => Err(e)
    case Ok(cuts) => Ok(MetadataText(title, artist, Chapters(cuts)))
  }

  /**
   * Lines 158-161 with the detector output `cutsRaw` and the probe output
   * `durationOutput` as inputs; the temporary file is not modelled.
   */
  method ExtractMetadataFromVideo(cutsRaw: seq<string>, durationOutput: string, artist: string, title: string)
    returns (r: Result<string, Error>)
    ensures r == VideoMetadata(cutsRaw, durationOutput, artist, title)
  {
    var cutTimes := ExtractCutTimes(cutsRaw);
    if cutTimes.Err? {
      return Err(cutTimes.error);
    }
    var duration := ParseDuration(durationOutput);
    if duration.Err? {
      return Err(duration.error);
    }
    var cuts := cutTimes.value + [duration.value];
    var metadata := AssembleMetadata(artist, cuts, title);
    return Ok(metadata);
  }

  /**
   * For k lines with a marker and a duration of D ms, the video gets k + 1
   * chapters: the first starts at 0, each ends a millisecond before the
   * next starts, and the last ends at D - 1.
   */
  lemma VideoTimeline(cutsRaw: seq<string>, durationOutput: string)
    requires VideoCuts(cutsRaw, durationOutput).Ok?
    ensures var cuts := VideoCuts(cutsRaw, durationOutput).value;
      var cs := Chapters(cuts);
      var d := ParseDuration(durationOutput).value;
      && |cs| == |Captures(cutsRaw)| + 1
      && cs[0].start == 0
      && cs[|cs| - 1].end == d - 1
      && (forall i :: 0 <= i < |cs| - 1 ==> cs[i].end + 1 == cs[i + 1].start)
  {
    var ts := CutTimes(cutsRaw).value;
    var d := ParseDuration(durationOutput).value;
    var cuts := ts + [d];
    CutTimesMeaning(cutsRaw);
    ChaptersShape(cuts);
    ChaptersContiguous(cuts);
    LastChapter(cuts);
    assert cuts[0] == 0 && cuts[|cuts| - 1] == d;
  }

  /** Without a single marker the video is one chapter from 0 to the end. */
  lemma NoCutsOneChapter(cutsRaw: seq<string>, durationOutput: string, artist: string, title: string, d: nat)
    requires forall k :: 0 <= k < |cutsRaw| ==> CaptureTime(cutsRaw[k]).None?
    requires ParseDuration(durationOutput) == Ok(d)
    ensures VideoMetadata(cutsRaw, durationOutput, artist, title)
      == Ok(MetadataText(title, artist, [Chapter(1, 0, d as int - 1)]))
  {
    NoMarkerTwoCuts(cutsRaw, durationOutput, d);
    OneChapterMetadata(cutsRaw, durationOutput, artist, title, d);
  }

  lemma OneChapterMetadata(cutsRaw: seq<string>, durationOutput: string, artist: string, title: string, d: nat)
    requires VideoCuts(cutsRaw, durationOutput) == Ok([0, d])
    ensures VideoMetadata(cutsRaw, durationOutput, artist, title)
      == Ok(MetadataText(title, artist, [Chapter(1, 0, d as int - 1)]))
  {
    VideoMetadataOk(cutsRaw, durationOutput, artist, title, [0, d]);
    TwoCutsOneChapter(0, d);
  }

  lemma NoMarkerTwoCuts(cutsRaw: seq<string>, durationOutput: string, d: nat)
    requires forall k :: 0 <= k < |cutsRaw| ==> CaptureTime(cutsRaw[k]).None?
    requires ParseDuration(durationOutput) == Ok(d)
    ensures VideoCuts(cutsRaw, durationOutput) == Ok([0, d])
  {
    NoMarkerOnlyZero(cutsRaw);
    VideoCutsOk(cutsRaw, durationOutput, [0], d);
    assert [0] + [d] == [0, d];
  }

  lemma VideoMetadataOk(cutsRaw: seq<string>, durationOutput: string, artist: string, title: string, cuts: seq<nat>)
    requires VideoCuts(cutsRaw, durationOutput) == Ok(cuts)
    ensures VideoMetadata(cutsRaw, durationOutput, artist, title) == Ok(MetadataText(title, artist, Chapters(cuts)))
  {
  }

  lemma NoMarkerOnlyZero(cutsRaw: seq<string>)
    requires forall k :: 0 <= k < |cutsRaw| ==> CaptureTime(cutsRaw[k]).None?
    ensures CutTimes(cutsRaw) == Ok([0])
  {
    NoMarkerNoCaptures(cutsRaw);
    assert ConvertCaptures([]) == Ok([]);
    assert [0] + [] == [0];
  }

  lemma TwoCutsOneChapter(a: int, b: int)
    ensures Chapters([a, b]) == [Chapter(1, a, b - 1)]
  {
    ChaptersShape([a, b]);
  }

  lemma VideoCutsOk(cutsRaw: seq<string>, durationOutput: string, ts: seq<nat>, d: nat)
    requires CutTimes(cutsRaw) == Ok(ts) && ParseDuration(durationOutput) == Ok(d)
    ensures VideoCuts(cutsRaw, durationOutput) == Ok(ts + [d])
  {
  }

  lemma {:induction false} NoMarkerNoCaptures(lines: seq<string>)
    requires forall k :: 0 <= k < |lines| ==> CaptureTime(lines[k]).None?
    ensures Captures(lines) == []
    decreases |lines|
  {
    if lines != [] {
      NoMarkerNoCaptures(lines[1..]);
    }
  }

  /** A line the detector could print for a scene change at 2.5 s. */
  const SceneAt2500 := "frame:1 pts_time:2.5 pos:100"

  /** One at 7 s. */
  const SceneAt7000 := "frame:2 pts_time:7.0 pos:200"

  /** Every marker starts with a 'p'. */
  lemma MarkerFirstChar(line: string, j: int)
    ensures MarkerAt(line, j) ==> line[j] == 'p'
  {
    if MarkerAt(line, j) {
      assert line[j..j + |Marker|][0] == line[j];
    }
  }

  /** A line without a 'p' holds no marker, so it gives no cut. */
  lemma NoLetterPNoCapture(line: string)
    requires forall j :: 0 <= j < |line| ==> line[j] != 'p'
    ensures CaptureTime(line) == None
  {
    forall j | 0 <= j < |line|
      ensures !MarkerAt(line, j)
    {
      MarkerFirstChar(line, j);
    }
    CaptureTimeMeaning(line);
  }

  /**
   * A detector line laid out as `frame:N ` followed by the marker and a
   * three-character time ending before a space gives that time.
   */
  lemma MarkerAtEight(line: string)
    requires |line| > 20 && line[8..17] == Marker
    requires forall j :: 0 <= j < 8 ==> line[j] != 'p'
    requires IsTimeChar(line[17]) && IsTimeChar(line[18]) && IsTimeChar(line[19]) && !IsTimeChar(line[20])
    ensures CaptureTime(line) == Some([line[17], line[18], line[19]])
  {
    forall j | 0 <= j < 8
      ensures !MarkerAt(line, j)
    {
      MarkerFirstChar(line, j);
    }
    assert FirstMarker(line, 8);
    CaptureTimeOf(line, 8, 20);
    assert line[17..20] == [line[17], line[18], line[19]];
  }

  lemma SceneAt2500Captured()
    ensures CaptureTime(SceneAt2500) == Some("2.5")
  {
    MarkerAtEight(SceneAt2500);
  }

  lemma SceneAt7000Captured()
    ensures CaptureTime(SceneAt7000) == Some("7.0")
  {
    MarkerAtEight(SceneAt7000);
  }

  lemma GarbageLineIgnored()
    ensures CaptureTime("garbage line") == None
  {
    NoLetterPNoCapture("garbage line");
  }

  /** The detector output of the example: two scene changes around a line without a marker. */
  const ExampleLines: seq<string> := [SceneAt2500, "garbage line", SceneAt7000]

  /**
   * Two scene changes and a 10.25 s video give the cuts 0, 2500, 7000 and
   * 10250; `ExampleChapters` gives the chapters 0-2499, 2500-6999 and
   * 7000-10249 they make.
   */
  lemma TwoScenesExample()
    ensures VideoCuts(ExampleLines, "10.25\n") == Ok([0, 2500, 7000, 10250])
  {
    ExampleCutTimes();
    DurationExample();
    VideoCutsOk(ExampleLines, "10.25\n", [0, 2500, 7000], 10250);
    ThreeThenOne(0, 2500, 7000, 10250);
  }

  /** Kept apart: the same step inside the lemma above runs out of resource. */
  lemma ThreeThenOne(a: nat, b: nat, c: nat, d: nat)
    ensures [a, b, c] + [d] == [a, b, c, d]
  {
  }

  lemma ExampleCutTimes()
    ensures CutTimes(ExampleLines) == Ok([0, 2500, 7000])
  {
    SceneAt2500Captured();
    SceneAt7000Captured();
    GarbageLineIgnored();
    Millis2500();
    Millis7000();
    CutTimesOfThree(SceneAt2500, "garbage line", SceneAt7000, "2.5", "7.0", 2500, 7000);
  }

  /** Three lines, the middle one without a marker, give two cuts after the 0. */
  lemma CutTimesOfThree(a: string, b: string, c: string, ta: string, tc: string, ma: nat, mc: nat)
    requires CaptureTime(a) == Some(ta) && CaptureTime(b) == None && CaptureTime(c) == Some(tc)
    requires SecondsToMillis(ta) == Some(ma) && SecondsToMillis(tc) == Some(mc)
    ensures CutTimes([a, b, c]) == Ok([0, ma, mc])
  {
    CapturesOfThree(a, b, c, ta, tc);
    ConvertTwo(ta, tc, ma, mc);
    assert [0] + [ma, mc] == [0, ma, mc];
  }

  lemma CapturesOfThree(a: string, b: string, c: string, ta: string, tc: string)
    requires CaptureTime(a) == Some(ta) && CaptureTime(b) == None && CaptureTime(c) == Some(tc)
    ensures Captures([a, b, c]) == [ta, tc]
  {
    assert [a, b, c] == [a] + ([b] + [c]);
    assert [c] == [c] + [];
    CapturesCons(c, []);
    CapturesCons(b, [c]);
    CapturesCons(a, [b] + [c]);
    assert [ta] + ([] + ([tc] + [])) == [ta, tc];
  }

  lemma ConvertTwo(ta: string, tc: string, ma: nat, mc: nat)
    requires SecondsToMillis(ta) == Some(ma) && SecondsToMillis(tc) == Some(mc)
    ensures ConvertCaptures([ta, tc]) == Ok([ma, mc])
  {
    assert [ta, tc][1..] == [tc] && [tc][1..] == [];
    assert ConvertCaptures([tc]) == Ok([mc] + []);
    assert [mc] + [] == [mc] && [ma] + [mc] == [ma, mc];
  }

  lemma Millis2500()
    ensures SecondsToMillis("2.5") == Some(2500)
  {
    OneDecimal('2', '5');
  }

  lemma Millis7000()
    ensures SecondsToMillis("7.0") == Some(7000)
  {
    OneDecimal('7', '0');
  }

  /** `w.f` with one digit on each side. */
  lemma OneDecimal(w: char, f: char)
    requires IsDigit(w) && IsDigit(f)
    ensures SecondsToMillis([w, '.', f]) == Some(1000 * DigitValue(w) + 100 * DigitValue(f))
  {
    var t := [w, '.', f];
    assert IndexOf(t, '.') == 1;
    assert t[..1] == [w] && t[2..] == [f];
    OneDigit(w);
    OneDigit(f);
  }

  lemma ExampleChapters()
    ensures Chapters([0, 2500, 7000, 10250])
      == [Chapter(1, 0, 2499), Chapter(2, 2500, 6999), Chapter(3, 7000, 10249)]
  {
    var cuts := [0, 2500, 7000, 10250];
    ChaptersShape(cuts);
    var cs := Chapters(cuts);
    assert cs[0] == Chapter(1, 0, 2499);
    assert cs[1] == Chapter(2, 2500, 6999);
    assert cs[2] == Chapter(3, 7000, 10249);
  }

  lemma DurationExample()
    ensures ParseDuration("10.25\n") == Ok(10250)
  {
    var text := "10.25\n";
    assert TrimStart(text) == text;
    assert text[..5] == "10.25";
    assert TrimEnd(text[..5]) == "10.25";
    assert TrimEnd(text) == "10.25";
    DurationMillis();
  }

  lemma DurationMillis()
    ensures SecondsToMillis("10.25") == Some(10250)
  {
    var t := "10.25";
    assert IndexOf(t, '.') == 2;
    assert t[..2] == ['1', '0'] && t[3..] == ['2', '5'];
    TwoDigits('1', '0');
    TwoDigits('2', '5');
  }
}
