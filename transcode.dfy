/**
 * The encoder options of `write_new_video_file`: five independent switches
 * decide an ordered list of ffmpeg option tokens, video options first and
 * audio options after them, and the final ffmpeg command wraps that list
 * between the two inputs and the output file.
 */
module Transcode {
  import opened Wrappers

  /** The five command-line switches that shape the re-encoding. */
  datatype Settings = Settings(
    scale: bool,
    optimize: bool,
    reduceFramerate: bool,
    compressAudio: bool,
    downmixMono: bool)

  /** The video stream is re-encoded exactly when a video switch is set. */
  predicate ReencodeVideo(s: Settings)
  {
    s.scale || s.optimize || s.reduceFramerate
  }

  /** The audio stream is re-encoded exactly when an audio switch is set. */
  predicate ReencodeAudio(s: Settings)
  {
    s.compressAudio || s.downmixMono
  }

  // The option groups, as written in `write_new_video_file`.
  const ScaleTo720: seq<string> := ["-vf", "scale=-1:720"]
  const TuneStillImage: seq<string> := ["-tune", "stillimage"]
  const FiveFps: seq<string> := ["-r", "5"]
  const X264Fast: seq<string> := ["-c:v", "libx264", "-crf", "23", "-pix_fmt", "yuv420p", "-preset", "ultrafast"]
  const CopyVideo: seq<string> := ["-c:v", "copy"]
  const Mp3Quality8: seq<string> := ["-q:a", "8"]
  const Mono: seq<string> := ["-ac", "1"]
  const Mp3Audio: seq<string> := ["-c:a", "libmp3lame"]
  const CopyAudio: seq<string> := ["-c:a", "copy"]

  // ---------------------------------------------------------------------
  // The option list, piece by piece
  // ---------------------------------------------------------------------

  function When(b: bool, tokens: seq<string>): seq<string>
  {
    if b then tokens else []
  }

  function VideoCodec(s: Settings): seq<string>
  {
    if ReencodeVideo(s) then X264Fast
    else CopyVideo
  }

  function AudioCodec(s: Settings): seq<string>
  {
    if ReencodeAudio(s) then Mp3Audio else CopyAudio
  }

  function VideoParams(s: Settings): seq<string>
  {
    When(s.scale, ScaleTo720) + When(s.optimize, TuneStillImage)
      + When(s.reduceFramerate, FiveFps) + VideoCodec(s)
  }

  function AudioParams(s: Settings): seq<string>
  {
    When(s.compressAudio, Mp3Quality8) + When(s.downmixMono, Mono) + AudioCodec(s)
  }

  /** `codec_params` as `write_new_video_file` leaves it. */
  function CodecParams(s: Settings): (p: seq<string>)
    ensures |p| % 2 == 0 && 4 <= |p| <= 20
  {
    VideoParams(s) + AudioParams(s)
  }

  /** The command prefix: overwrite, the video, the metadata file, and metadata taken from input 1. */
  function CommandHead(videoFileName: string, metaFileName: string): seq<string>
  {
    ["ffmpeg", "-y", "-i", videoFileName, "-i", metaFileName, "-map_metadata", "1"]
  }

  /**
   * `write_new_video_file` without the final `run`: the option list grown
   * by one conditional append per switch, then the command around it.
   */
  method NewVideoFileCommand(filenameOutput: string, metaFileName: string, settings: Settings, videoFileName: string)
    returns (command: seq<string>)
    ensures command == CommandHead(videoFileName, metaFileName) + CodecParams(settings) + [filenameOutput]
  {
    var codecParams := AddVideoParams([], settings);
    assert codecParams == VideoParams(settings);
    codecParams := AddAudioParams(codecParams, settings);
    command := ["ffmpeg", "-y", "-i", videoFileName, "-i", metaFileName, "-map_metadata", "1"];
    command := command + codecParams;
    command := command + [filenameOutput];
  }

  /** The video half of the `codec_params` construction. */
  method AddVideoParams(codecParams0: seq<string>, settings: Settings) returns (codecParams: seq<string>)
    ensures codecParams == codecParams0 + VideoParams(settings)
  {
    codecParams := codecParams0;
    if settings.scale {
      codecParams := codecParams + ScaleTo720;
    }
    if settings.optimize {
      codecParams := codecParams + TuneStillImage;
    }
    if settings.reduceFramerate {
      codecParams := codecParams + FiveFps;
    }
    if settings.scale || settings.optimize || settings.reduceFramerate {
      codecParams := codecParams + X264Fast;
    } else {
      codecParams := codecParams + CopyVideo;
    }
  }

  /** The audio half, appended after every video option. */
  method AddAudioParams(codecParams0: seq<string>, settings: Settings) returns (codecParams: seq<string>)
    ensures codecParams == codecParams0 + AudioParams(settings)
  {
    codecParams := codecParams0;
    if settings.compressAudio {
      codecParams := codecParams + Mp3Quality8;
    }
    if settings.downmixMono {
      codecParams := codecParams + Mono;
    }
    if settings.compressAudio || settings.downmixMono {
      codecParams := codecParams + Mp3Audio;
    } else {
      codecParams := codecParams + CopyAudio;
    }
  }

  // ---------------------------------------------------------------------
  // Reading the option list as name/value pairs
  // ---------------------------------------------------------------------

  /**
   * The value of the first occurrence of option `name`, reading `p` as
   * name/value pairs. In `CodecParams` every name occurs at most once
   * (`OptionOrder`), so the first occurrence is the only one.
   */
  function OptionValue(p: seq<string>, name: string): Option<string>
    decreases |p|
  {
    if |p| < 2 then None
    else if p[0] == name then Some(p[1])
    else OptionValue(p[2..], name)
  }

  /** Option names, at the even positions of a list of pairs. */
  function Names(p: seq<string>): seq<string>
    decreases |p|
  {
    if |p| < 2 then [] else [p[0]] + Names(p[2..])
  }

  function FirstOf(a: Option<string>, b: Option<string>): Option<string>
  {
    if a.Some? then a else b
  }

  /** Looking an option up in two lists of pairs: the first list is searched first. */
  lemma {:induction false} OptionValueAppend(a: seq<string>, b: seq<string>, name: string)
    requires |a| % 2 == 0
    ensures OptionValue(a + b, name) == FirstOf(OptionValue(a, name), OptionValue(b, name))
    decreases |a|
  {
    if a == [] {
      assert a + b == b;
    } else {
      assert (a + b)[0] == a[0] && (a + b)[1] == a[1];
      assert (a + b)[2..] == a[2..] + b;
      OptionValueAppend(a[2..], b, name);
    }
  }

  lemma {:induction false} NamesAppend(a: seq<string>, b: seq<string>)
    requires |a| % 2 == 0
    ensures Names(a + b) == Names(a) + Names(b)
    decreases |a|
  {
    if a == [] {
      assert a + b == b;
    } else {
      assert (a + b)[0] == a[0];
      assert (a + b)[2..] == a[2..] + b;
      NamesAppend(a[2..], b);
    }
  }

  lemma ConsPair(n: string, v: string, rest: seq<string>, name: string)
    ensures OptionValue([n, v] + rest, name) == if n == name then Some(v) else OptionValue(rest, name)
    ensures Names([n, v] + rest) == [n] + Names(rest)
  {
    assert ([n, v] + rest)[2..] == rest;
  }

  lemma PairValue(n: string, v: string, name: string)
    ensures OptionValue([n, v], name) == if n == name then Some(v) else None
    ensures Names([n, v]) == [n]
  {
    assert [n, v][2..] == [];
  }

  /** A switched pair names its option exactly when the switch is on. */
  lemma WhenValue(b: bool, n: string, v: string, name: string)
    ensures OptionValue(When(b, [n, v]), name) == if b && n == name then Some(v) else None
    ensures Names(When(b, [n, v])) == if b then [n] else []
  {
    PairValue(n, v, name);
  }

  /** The seven groups in the order the writer appends them. */
  lemma CodecGroups(s: Settings)
    ensures CodecParams(s) == When(s.scale, ScaleTo720) + (When(s.optimize, TuneStillImage)
      + (When(s.reduceFramerate, FiveFps) + (VideoCodec(s) + (When(s.compressAudio, Mp3Quality8)
      + (When(s.downmixMono, Mono) + AudioCodec(s))))))
  {
    Regroup(When(s.scale, ScaleTo720), When(s.optimize, TuneStillImage), When(s.reduceFramerate, FiveFps),
      VideoCodec(s), When(s.compressAudio, Mp3Quality8), When(s.downmixMono, Mono), AudioCodec(s));
  }

  /**
   * Re-association over opaque sequences; stated on the concrete groups
   * inside the lemma above, it runs out of resource.
   */
  lemma Regroup<T>(a: seq<T>, b: seq<T>, c: seq<T>, d: seq<T>, e: seq<T>, f: seq<T>, g: seq<T>)
    ensures (a + b + c + d) + (e + f + g) == a + (b + (c + (d + (e + (f + g)))))
  {
  }

  /** Where the value of an option comes from: the first group that sets it. */
  lemma CodecLookup(s: Settings, name: string)
    ensures OptionValue(CodecParams(s), name)
      == FirstOf(OptionValue(When(s.scale, ScaleTo720), name),
         FirstOf(OptionValue(When(s.optimize, TuneStillImage), name),
         FirstOf(OptionValue(When(s.reduceFramerate, FiveFps), name),
         FirstOf(OptionValue(VideoCodec(s), name),
         FirstOf(OptionValue(When(s.compressAudio, Mp3Quality8), name),
         FirstOf(OptionValue(When(s.downmixMono, Mono), name),
                 OptionValue(AudioCodec(s), name)))))))
  {
    var g1, g2, g3, g4, g5, g6, g7 := When(s.scale, ScaleTo720), When(s.optimize, TuneStillImage),
      When(s.reduceFramerate, FiveFps), VideoCodec(s), When(s.compressAudio, Mp3Quality8),
      When(s.downmixMono, Mono), AudioCodec(s);
    CodecGroups(s);
    OptionValueAppend(g6, g7, name);
    OptionValueAppend(g5, g6 + g7, name);
    OptionValueAppend(g4, g5 + (g6 + g7), name);
    OptionValueAppend(g3, g4 + (g5 + (g6 + g7)), name);
    OptionValueAppend(g2, g3 + (g4 + (g5 + (g6 + g7))), name);
    OptionValueAppend(g1, g2 + (g3 + (g4 + (g5 + (g6 + g7)))), name);
  }

  /** The options the groups are made of, in order. */
  lemma CodecNames(s: Settings)
    ensures Names(CodecParams(s)) == Names(When(s.scale, ScaleTo720)) + (Names(When(s.optimize, TuneStillImage))
      + (Names(When(s.reduceFramerate, FiveFps)) + (Names(VideoCodec(s)) + (Names(When(s.compressAudio, Mp3Quality8))
      + (Names(When(s.downmixMono, Mono)) + Names(AudioCodec(s)))))))
  {
    var g1, g2, g3, g4, g5, g6, g7 := When(s.scale, ScaleTo720), When(s.optimize, TuneStillImage),
      When(s.reduceFramerate, FiveFps), VideoCodec(s), When(s.compressAudio, Mp3Quality8),
      When(s.downmixMono, Mono), AudioCodec(s);
    CodecGroups(s);
    NamesAppend(g6, g7);
    NamesAppend(g5, g6 + g7);
    NamesAppend(g4, g5 + (g6 + g7));
    NamesAppend(g3, g4 + (g5 + (g6 + g7)));
    NamesAppend(g2, g3 + (g4 + (g5 + (g6 + g7))));
    NamesAppend(g1, g2 + (g3 + (g4 + (g5 + (g6 + g7)))));
  }

  /** The video codec group, read as pairs. */
  lemma VideoCodecLookup(s: Settings, name: string)
    ensures OptionValue(VideoCodec(s), name)
      == if name == "-c:v" then Some(if ReencodeVideo(s) then "libx264" else "copy")
         else if ReencodeVideo(s) && name == "-crf" then Some("23")
         else if ReencodeVideo(s) && name == "-pix_fmt" then Some("yuv420p")
         else if ReencodeVideo(s) && name == "-preset" then Some("ultrafast")
         else None
    ensures Names(VideoCodec(s)) == if ReencodeVideo(s) then ["-c:v", "-crf", "-pix_fmt", "-preset"] else ["-c:v"]
  {
    if ReencodeVideo(s) {
      var p4 := ["-preset", "ultrafast"];
      var p3 := ["-pix_fmt", "yuv420p"] + p4;
      var p2 := ["-crf", "23"] + p3;
      assert VideoCodec(s) == ["-c:v", "libx264"] + p2;
      ConsPair("-c:v", "libx264", p2, name);
      ConsPair("-crf", "23", p3, name);
      ConsPair("-pix_fmt", "yuv420p", p4, name);
      PairValue("-preset", "ultrafast", name);
    } else {
      PairValue("-c:v", "copy", name);
    }
  }

  /** The audio codec group, read as pairs. */
  lemma AudioCodecLookup(s: Settings, name: string)
    ensures OptionValue(AudioCodec(s), name)
      == if name == "-c:a" then Some(if ReencodeAudio(s) then "libmp3lame" else "copy") else None
    ensures Names(AudioCodec(s)) == ["-c:a"]
  {
    if ReencodeAudio(s) {
      PairValue("-c:a", "libmp3lame", name);
    } else {
      PairValue("-c:a", "copy", name);
    }
  }

  // ---------------------------------------------------------------------
  // What the switches resolve to
  // ---------------------------------------------------------------------

  /**
   * Every group's answer for one option name: the value of its first (and,
   * by `OptionOrder`, only) occurrence, taken from the groups in the order
   * they are appended.
   */
  lemma GroupValues(s: Settings, name: string)
    ensures OptionValue(CodecParams(s), name)
      == if s.scale && name == "-vf" then Some("scale=-1:720")
         else if s.optimize && name == "-tune" then Some("stillimage")
         else if s.reduceFramerate && name == "-r" then Some("5")
         else if OptionValue(VideoCodec(s), name).Some? then OptionValue(VideoCodec(s), name)
         else if s.compressAudio && name == "-q:a" then Some("8")
         else if s.downmixMono && name == "-ac" then Some("1")
         else OptionValue(AudioCodec(s), name)
  {
    CodecLookup(s, name);
    WhenValue(s.scale, "-vf", "scale=-1:720", name);
    WhenValue(s.optimize, "-tune", "stillimage", name);
    WhenValue(s.reduceFramerate, "-r", "5", name);
    WhenValue(s.compressAudio, "-q:a", "8", name);
    WhenValue(s.downmixMono, "-ac", "1", name);
  }

  /** `-vf scale=-1:720` is given exactly when scaling is on. */
  lemma ScaleOption(s: Settings)
    ensures OptionValue(CodecParams(s), "-vf") == if s.scale then Some("scale=-1:720") else None
  {
    GroupValues(s, "-vf");
    VideoCodecLookup(s, "-vf");
    AudioCodecLookup(s, "-vf");
  }

  /** `-tune stillimage` is given exactly when the still-image optimisation is on. */
  lemma TuneOption(s: Settings)
    ensures OptionValue(CodecParams(s), "-tune") == if s.optimize then Some("stillimage") else None
  {
    GroupValues(s, "-tune");
    VideoCodecLookup(s, "-tune");
    AudioCodecLookup(s, "-tune");
  }

  /** `-r 5` is given exactly when the frame rate is reduced. */
  lemma FramerateOption(s: Settings)
    ensures OptionValue(CodecParams(s), "-r") == if s.reduceFramerate then Some("5") else None
  {
    GroupValues(s, "-r");
    VideoCodecLookup(s, "-r");
    AudioCodecLookup(s, "-r");
  }

  /**
   * Exactly one video codec is chosen: libx264 with quality 23, yuv420p and
   * the ultrafast preset when any video switch is set, stream copy otherwise.
   */
  lemma VideoCodecOption(s: Settings)
    ensures OptionValue(CodecParams(s), "-c:v") == Some(if ReencodeVideo(s) then "libx264" else "copy")
    ensures OptionValue(CodecParams(s), "-crf") == if ReencodeVideo(s) then Some("23") else None
    ensures OptionValue(CodecParams(s), "-pix_fmt") == if ReencodeVideo(s) then Some("yuv420p") else None
    ensures OptionValue(CodecParams(s), "-preset") == if ReencodeVideo(s) then Some("ultrafast") else None
  {
    GroupValues(s, "-c:v");
    VideoCodecLookup(s, "-c:v");
    GroupValues(s, "-crf");
    VideoCodecLookup(s, "-crf");
    AudioCodecLookup(s, "-crf");
    GroupValues(s, "-pix_fmt");
    VideoCodecLookup(s, "-pix_fmt");
    AudioCodecLookup(s, "-pix_fmt");
    GroupValues(s, "-preset");
    VideoCodecLookup(s, "-preset");
    AudioCodecLookup(s, "-preset");
  }

  /** `-q:a 8` is given exactly when audio compression is on. */
  lemma AudioQualityOption(s: Settings)
    ensures OptionValue(CodecParams(s), "-q:a") == if s.compressAudio then Some("8") else None
  {
    GroupValues(s, "-q:a");
    VideoCodecLookup(s, "-q:a");
    AudioCodecLookup(s, "-q:a");
  }

  /** `-ac 1` is given exactly when downmixing to mono. */
  lemma MonoOption(s: Settings)
    ensures OptionValue(CodecParams(s), "-ac") == if s.downmixMono then Some("1") else None
  {
    GroupValues(s, "-ac");
    VideoCodecLookup(s, "-ac");
    AudioCodecLookup(s, "-ac");
  }

  /** The audio codec is libmp3lame exactly when an audio switch is set, whatever the video switches. */
  lemma AudioCodecOption(s: Settings)
    ensures OptionValue(CodecParams(s), "-c:a") == Some(if ReencodeAudio(s) then "libmp3lame" else "copy")
  {
    GroupValues(s, "-c:a");
    VideoCodecLookup(s, "-c:a");
    AudioCodecLookup(s, "-c:a");
  }

  /** With every switch off both streams are copied and nothing else is asked for. */
  lemma AllSwitchesOff()
    ensures CodecParams(Settings(false, false, false, false, false)) == ["-c:v", "copy", "-c:a", "copy"]
  {
  }

  // ---------------------------------------------------------------------
  // Order of the options
  // ---------------------------------------------------------------------

  /** The place of each option the writer can emit; 10 for any other name. */
  function Rank(name: string): nat
  {
    if name == "-vf" then 0
    else if name == "-tune" then 1
    else if name == "-r" then 2
    else if name == "-c:v" then 3
    else if name == "-crf" then 4
    else if name == "-pix_fmt" then 5
    else if name == "-preset" then 6
    else if name == "-q:a" then 7
    else if name == "-ac" then 8
    else if name == "-c:a" then 9
    else 10
  }

  predicate IsVideoOption(name: string) { Rank(name) < 7 }

  predicate IsAudioOption(name: string) { 7 <= Rank(name) < 10 }

  /** Names strictly in rank order, every rank in [lo, hi). */
  predicate Ranked(ns: seq<string>, lo: nat, hi: nat)
  {
    (forall i :: 0 <= i < |ns| ==> lo <= Rank(ns[i]) < hi)
    && (forall i, j :: 0 <= i < j < |ns| ==> Rank(ns[i]) < Rank(ns[j]))
  }

  lemma RankedAppend(a: seq<string>, b: seq<string>, lo: nat, mid: nat, hi: nat)
    requires lo <= mid <= hi && Ranked(a, lo, mid) && Ranked(b, mid, hi)
    ensures Ranked(a + b, lo, hi)
  {
    var ab := a + b;
    forall i | 0 <= i < |ab|
      ensures lo <= Rank(ab[i]) < hi
    {
      if i < |a| {
        assert ab[i] == a[i];
      } else {
        assert ab[i] == b[i - |a|];
      }
    }
    forall i, j | 0 <= i < j < |ab|
      ensures Rank(ab[i]) < Rank(ab[j])
    {
      if j < |a| {
      } else if i >= |a| {
        assert ab[i] == b[i - |a|] && ab[j] == b[j - |a|];
      } else {
        assert ab[j] == b[j - |a|];
      }
    }
  }

  lemma RankedWhen(b: bool, group: seq<string>, rank: nat)
    requires |group| == 2 && Rank(group[0]) == rank
    ensures Ranked(Names(When(b, group)), rank, rank + 1)
  {
    assert group == [group[0], group[1]];
    WhenValue(b, group[0], group[1], group[0]);
  }

  lemma GroupRanks()
    ensures Rank(ScaleTo720[0]) == 0 && Rank(TuneStillImage[0]) == 1 && Rank(FiveFps[0]) == 2
    ensures Rank(Mp3Quality8[0]) == 7 && Rank(Mono[0]) == 8
  {
  }

  lemma VideoSwitchesRanked(s: Settings)
    ensures Ranked(Names(When(s.scale, ScaleTo720)), 0, 1)
    ensures Ranked(Names(When(s.optimize, TuneStillImage)), 1, 2)
    ensures Ranked(Names(When(s.reduceFramerate, FiveFps)), 2, 3)
  {
    GroupRanks();
    RankedWhen(s.scale, ScaleTo720, 0);
    RankedWhen(s.optimize, TuneStillImage, 1);
    RankedWhen(s.reduceFramerate, FiveFps, 2);
  }

  lemma AudioSwitchesRanked(s: Settings)
    ensures Ranked(Names(When(s.compressAudio, Mp3Quality8)), 7, 8)
    ensures Ranked(Names(When(s.downmixMono, Mono)), 8, 9)
  {
    GroupRanks();
    RankedWhen(s.compressAudio, Mp3Quality8, 7);
    RankedWhen(s.downmixMono, Mono, 8);
  }

  lemma CodecRanks()
    ensures Rank("-c:v") == 3 && Rank("-crf") == 4 && Rank("-pix_fmt") == 5 && Rank("-preset") == 6
  {
  }

  lemma RankedFour(a: string, b: string, c: string, d: string, lo: nat)
    requires Rank(a) == lo && Rank(b) == lo + 1 && Rank(c) == lo + 2 && Rank(d) == lo + 3
    ensures Ranked([a, b, c, d], lo, lo + 4)
  {
  }

  lemma VideoCodecRanked(s: Settings)
    ensures Ranked(Names(VideoCodec(s)), 3, 7)
  {
    VideoCodecLookup(s, "-c:v");
    CodecRanks();
    RankedFour("-c:v", "-crf", "-pix_fmt", "-preset", 3);
  }

  lemma AudioCodecRanked(s: Settings)
    ensures Ranked(Names(AudioCodec(s)), 9, 10)
  {
    AudioCodecLookup(s, "-c:a");
  }

  lemma RankedChain(n1: seq<string>, n2: seq<string>, n3: seq<string>, n4: seq<string>,
                    n5: seq<string>, n6: seq<string>, n7: seq<string>)
    requires Ranked(n1, 0, 1) && Ranked(n2, 1, 2) && Ranked(n3, 2, 3) && Ranked(n4, 3, 7)
    requires Ranked(n5, 7, 8) && Ranked(n6, 8, 9) && Ranked(n7, 9, 10)
    ensures Ranked(n1 + (n2 + (n3 + (n4 + (n5 + (n6 + n7))))), 0, 10)
  {
    RankedAppend(n6, n7, 8, 9, 10);
    RankedAppend(n5, n6 + n7, 7, 8, 10);
    RankedAppend(n4, n5 + (n6 + n7), 3, 7, 10);
    RankedAppend(n3, n4 + (n5 + (n6 + n7)), 2, 3, 10);
    RankedAppend(n2, n3 + (n4 + (n5 + (n6 + n7))), 1, 2, 10);
    RankedAppend(n1, n2 + (n3 + (n4 + (n5 + (n6 + n7)))), 0, 1, 10);
  }

  /**
   * Every option name is one the writer knows, each appears at most once,
   * and they come in a fixed order: `-vf`, `-tune`, `-r`, then the video
   * codec group, then `-q:a`, `-ac` and the audio codec.
   */
  lemma OptionOrder(s: Settings)
    ensures Ranked(Names(CodecParams(s)), 0, 10)
  {
    CodecNames(s);
    VideoSwitchesRanked(s);
    AudioSwitchesRanked(s);
    VideoCodecRanked(s);
    AudioCodecRanked(s);
    RankedChain(Names(When(s.scale, ScaleTo720)), Names(When(s.optimize, TuneStillImage)),
      Names(When(s.reduceFramerate, FiveFps)), Names(VideoCodec(s)),
      Names(When(s.compressAudio, Mp3Quality8)), Names(When(s.downmixMono, Mono)), Names(AudioCodec(s)));
  }

  /** No video option follows an audio option. */
  lemma AudioAfterVideo(s: Settings)
    ensures var ns := Names(CodecParams(s));
      forall i, j :: 0 <= i < j < |ns| && IsAudioOption(ns[i]) ==> !IsVideoOption(ns[j])
  {
    OptionOrder(s);
  }
}
