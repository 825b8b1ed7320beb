# chaptinator, modelled in Dafny

chaptinator adds chapters to a video at its scene changes. It runs
ffmpeg's scene detector and collects the `pts_time:` of each reported
frame as a cut time in milliseconds. The video's duration, read with
ffprobe, is appended as the final cut. Each pair of consecutive cuts
becomes a `[CHAPTER]` block of an FFmpeg `;FFMETADATA1` document. The
video is then re-muxed or re-encoded with that metadata; five switches
decide the encoder options.

This project models the logic between those external calls:

- `cut_times.dfy` (module `CutTimeParser`):
  - the search for the first `pts_time:` token in a line, and the run of
    digits and dots after it;
  - seconds to milliseconds by truncation, with `None` for the texts that
    `float()` rejects;
  - the loop of `extract_cut_times` as a method;
  - the duration conversion, including the `strip()` of the probe output.
- `metadata.dfy` (module `Metadata`):
  - the chapter timeline made from the cut list;
  - the document text;
  - the `assemble_new_metadata` loop as a method;
  - a reader for the document, used to state that the written text reads
    back.
- `transcode.dfy` (module `Transcode`):
  - the `codec_params` construction and the ffmpeg command list of
    `write_new_video_file`, as methods;
  - the option list read as name/value pairs, each name taking the value
    of its first (and, by `OptionOrder`, only) occurrence.
- `pipeline.dfy` (module `Pipeline`): `Main.extract_metadata_from_video`.
  The detector output and the probe output are inputs. The result is the
  metadata text, or the `ValueError` raised on the way.
- Support modules:
  - `decimal.dfy` (`Decimal`): digit strings, and Python's `str()` of an
    integer as the f-strings write it;
  - `wrappers.dfy` (`Wrappers`): `Option` and `Result`;
  - `seqs.dfy` (`Seqs`): generic facts about splitting and joining
    sequences.

The imperative functions are modelled as methods:

- `extract_cut_times` appends to a list that starts as `[0]`;
- `assemble_new_metadata` grows a string with `+=`;
- `write_new_video_file` grows the option list with conditional `+=`.

Each method's `ensures` ties its result to a specification function. The
properties are proved as lemmas about those functions.

Three behaviours of the code that a reader might expect otherwise:

- `extract_cut_times` itself starts the list as `[0]`
  (`chaptinator/chaptinator.py:27`); the caller only appends the duration.
  `ExtractCutTimes` does the same.
- For the texts the model covers (digits and dots), the only error is the
  `ValueError` of `float()`, for the detector output and the probe output
  alike. The model has one error, `ValueError(text)`, carrying the text
  that could not be read.
- A last chapter whose END is below its START is written silently; nothing
  checks the order of the cuts. `LastChapter` states when this happens.

## Model

| member | source | states |
|---|---|---|
| CutTimeParser.CutTimes | chaptinator/chaptinator.py:26-33 | what `extract_cut_times` returns: `Ok` holds one more value than there are captures and starts with 0; an error carries a captured text that `float()` rejects. Its full meaning is `CutTimesMeaning`; the loop is `ExtractCutTimes` |
| CutTimeParser.ExtractCutTimes | chaptinator/chaptinator.py:26-33 | the loop returns `CutTimes(cutsRaw)`: a 0, then one value per line with a marker, or the first conversion error |
| CutTimeParser.CutTimesMeaning | chaptinator/chaptinator.py:26-33 | the result is `Ok` iff every captured time converts; it then starts with 0 and holds, in line order, one converted value per line with a marker |
| CutTimeParser.ExtractSkip | chaptinator/chaptinator.py:29-30 | a line without a marker leaves the converted times unchanged |
| CutTimeParser.ExtractAppend | chaptinator/chaptinator.py:30-32 | a line whose time converts appends exactly that number of milliseconds |
| CutTimeParser.ExtractFail | chaptinator/chaptinator.py:30-32 | once the lines before convert, a line whose time `float()` rejects makes the whole extraction fail with that text, whatever the later lines hold |
| CutTimeParser.CaptureTime | chaptinator/chaptinator.py:29-31 | `re.search(...).group(1)` for one line: `None` iff no position holds `pts_time:`, and a capture is made of digits and dots only. Both directions of its meaning are `CaptureTimeMeaning` and `CaptureTimeOf` |
| CutTimeParser.Captures | chaptinator/chaptinator.py:28-31 | the captured texts of the detector lines, in order, at most one per line; `CapturesAppend` and `CapturesSnoc` state how it grows |
| CutTimeParser.FindMarker | chaptinator/chaptinator.py:29 | the position found holds the marker, and no earlier position from `from` on does; `None` means no position holds it |
| CutTimeParser.TimeRunEnd | chaptinator/chaptinator.py:29 | the run of `[0-9.]` that starts at `i` is maximal: every character before the end is a digit or dot, and the one at the end is not |
| CutTimeParser.CaptureTimeMeaning | chaptinator/chaptinator.py:29-31 | no capture iff the line holds no `pts_time:`; otherwise the capture is the maximal digit-and-dot run after the first marker |
| CutTimeParser.CaptureTimeOf | chaptinator/chaptinator.py:29-31 | conversely, a first marker followed by a maximal run determines the capture |
| CutTimeParser.CapturesAppend | chaptinator/chaptinator.py:28-31 | the captures of concatenated detector output are the captures of each part, in order |
| CutTimeParser.CapturesSnoc | chaptinator/chaptinator.py:28-31 | a further line adds one capture if it has a marker and none otherwise |
| CutTimeParser.ConvertCaptures | chaptinator/chaptinator.py:28-32 | converts each capture in turn: `Ok` gives one value per capture; an error carries a capture that `float()` rejects. `ConvertCapturesMeaning` and `ConvertCapturesFirstError` state which values and which error |
| CutTimeParser.ConvertCapturesMeaning | chaptinator/chaptinator.py:32 | the conversion succeeds iff every capture converts, and then gives one value per capture, in order |
| CutTimeParser.ConvertCapturesFirstError | chaptinator/chaptinator.py:32 | the error reported is the text of the first capture that does not convert |
| CutTimeParser.SecondsToMillis | chaptinator/chaptinator.py:32 | `int(float(t) * 1000)` (also used for the duration at :43) read as an exact decimal: when it converts, the text before the first dot is digits and is exactly the thousands of the result, so the fraction never carries into the seconds. Which texts convert is `SecondsToMillisDefined`; the truncation is `SecondsToMillisTruncates` |
| CutTimeParser.FractionMillis | chaptinator/chaptinator.py:32 | the milliseconds contributed by the fractional digits stay below 1000; `FractionTruncates` states they are the fraction's value rounded down |
| CutTimeParser.SecondsToMillisDefined | chaptinator/chaptinator.py:32 | a captured text converts iff it has at least one digit and at most one dot; `""`, `"."` and two dots raise |
| CutTimeParser.MalformedSecondsRejected | chaptinator/chaptinator.py:29-32 | `""`, `"."` and `"1.2.3"`, which the pattern `[0-9.]*` can capture, are rejected |
| CutTimeParser.SecondsToMillisTruncates | chaptinator/chaptinator.py:32 | for `whole.frac`, ms * 10^\|frac\| <= 1000 * D(whole frac) < (ms + 1) * 10^\|frac\|: the largest whole number of ms not above the exact value |
| CutTimeParser.FractionTruncates | chaptinator/chaptinator.py:32 | the first three fractional digits are the fraction's milliseconds rounded down |
| CutTimeParser.WholeSecondsToMillis | chaptinator/chaptinator.py:32 | a whole number of seconds without a dot gives 1000 times that number |
| CutTimeParser.FormatMillisRoundTrip | chaptinator/chaptinator.py:32 | converting ms written as seconds with three decimals gives back the same ms |
| CutTimeParser.TrimStart | chaptinator/chaptinator.py:42 | the result is a suffix of the input that does not start with white space; everything removed is white space |
| CutTimeParser.TrimEnd | chaptinator/chaptinator.py:42 | the result is a prefix of the input that does not end with white space; everything removed is white space |
| CutTimeParser.ParseDuration | chaptinator/chaptinator.py:42-43 | the duration is `Ok` iff the stripped output is decimal seconds, and its value is then `SecondsToMillis` of that text, the same conversion as the cut times; otherwise the error carries the stripped text |
| Metadata.Chapters | chaptinator/chaptinator.py:52-58 | the `zip`/`enumerate` pairing of the cuts: max(n - 1, 0) chapters, the first numbered 1 from cut 0 to one ms before cut 1, the last ending one ms before the last cut. `ChaptersShape` gives every chapter |
| Decimal.IntToString | chaptinator/chaptinator.py:56-58 | `str()` of an integer as the f-strings write START, END and title: `ParseInt` reads it back to the same integer, and the spelling is the canonical one: a leading `-` iff the integer is negative, then digits with no leading zero (so never `007` or `-0`) |
| Metadata.ChaptersShape | chaptinator/chaptinator.py:52-58 | n cuts give max(n - 1, 0) chapters; chapter i has START = cut i-1, END = cut i minus 1, title i |
| Metadata.ChaptersFromShape | chaptinator/chaptinator.py:52-53 | the same shape for numbering that starts at any index |
| Metadata.ChaptersContiguous | chaptinator/chaptinator.py:56-57 | each chapter ends one millisecond before the next starts |
| Metadata.LastChapter | chaptinator/chaptinator.py:57 | the last chapter ends one ms before the last cut; it ends before it starts iff the last cut is not after the previous one |
| Metadata.CutsRecovered | chaptinator/chaptinator.py:52-57 | the chapters' STARTs and the last END + 1 give back the cut list |
| Metadata.MetadataText | chaptinator/chaptinator.py:47-59 | the document `assemble_new_metadata` builds; it is non-empty and starts with the `;` of `;FFMETADATA1`. Its header is `MetadataHeader`, its blocks `ChapterTextLines` and `MetadataTextSnoc`, and reading it back `MetadataRoundTrip` |
| Metadata.MetadataHeader | chaptinator/chaptinator.py:48-51 | the document starts with `;FFMETADATA1`, `title=<title>` and `artist=<artist>`, inserted verbatim, each ending in a line feed |
| Metadata.HeaderOnly | chaptinator/chaptinator.py:48-51 | an empty timeline gives exactly the three header lines |
| Metadata.FewCutsHeaderOnly | chaptinator/chaptinator.py:52-53 | fewer than two cuts give the header alone |
| Metadata.ChapterTextLines | chaptinator/chaptinator.py:54-59 | a chapter's text is its five lines `[CHAPTER]`, `TIMEBASE=1/1000`, `START=`, `END=`, `title=`, each ending in a line feed |
| Metadata.MetadataTextSnoc | chaptinator/chaptinator.py:53-59 | one more chapter appends exactly its block to the document |
| Metadata.AssembleMetadata | chaptinator/chaptinator.py:47-62 | the loop returns the header followed by one block per consecutive pair of cuts, in order |
| Metadata.LinesUnlines | chaptinator/chaptinator.py:48-59 | text written line by line splits back into the same lines |
| Metadata.ChapterRoundTrip | chaptinator/chaptinator.py:54-59 | one block reads back as the same chapter, and none of its lines holds a line feed |
| Metadata.BlocksRoundTrip | chaptinator/chaptinator.py:53-59 | all blocks read back as the same chapters, in order |
| Metadata.MetadataRoundTrip | chaptinator/chaptinator.py:47-59 | for a title and artist without line feeds, the document reads back as the same title, artist and chapters |
| Metadata.CutsRecoveredFromText | chaptinator/chaptinator.py:52-59 | reading back the document written for at least two cuts gives back exactly those cuts |
| Metadata.NewlineInTitleBreaksHeader | chaptinator/chaptinator.py:49 | a line feed in the title is written unescaped; when the text after it does not start with `artist=`, the document no longer reads back |
| Transcode.CodecParams | chaptinator/chaptinator.py:68-97 | the `codec_params` list: name/value pairs (even length), 4 to 20 entries. Each option's value is stated by the per-switch lemmas below and `GroupValues`, their order by `OptionOrder` |
| Transcode.NewVideoFileCommand | chaptinator/chaptinator.py:68-105 | the command is `ffmpeg -y -i <video> -i <meta> -map_metadata 1`, then the codec options, then the output file |
| Transcode.AddVideoParams | chaptinator/chaptinator.py:68-85 | the video appends give the scale, tune and frame-rate pairs for the switches that are set, then one video codec group |
| Transcode.AddAudioParams | chaptinator/chaptinator.py:88-97 | the audio appends give the quality and mono pairs for the switches that are set, then one audio codec pair |
| Transcode.ScaleOption | chaptinator/chaptinator.py:70-71 | `-vf scale=-1:720` is given iff scaling is on |
| Transcode.TuneOption | chaptinator/chaptinator.py:73-74 | `-tune stillimage` is given iff optimising is on |
| Transcode.FramerateOption | chaptinator/chaptinator.py:76-77 | `-r 5` is given iff the frame rate is reduced |
| Transcode.VideoCodecOption | chaptinator/chaptinator.py:79-85 | exactly one video codec: libx264 with `-crf 23 -pix_fmt yuv420p -preset ultrafast` iff a video switch is set, `copy` otherwise |
| Transcode.AudioQualityOption | chaptinator/chaptinator.py:88-89 | `-q:a 8` is given iff audio compression is on |
| Transcode.MonoOption | chaptinator/chaptinator.py:91-92 | `-ac 1` is given iff downmixing to mono |
| Transcode.AudioCodecOption | chaptinator/chaptinator.py:94-97 | the audio codec is libmp3lame iff an audio switch is set, whatever the video switches; `copy` otherwise |
| Transcode.AllSwitchesOff | chaptinator/chaptinator.py:68-97 | with every switch off the options are exactly `-c:v copy -c:a copy` |
| Transcode.GroupValues | chaptinator/chaptinator.py:68-97 | an option's value is the one given by the first group that sets it, in the order the groups are appended |
| Transcode.VideoCodecLookup | chaptinator/chaptinator.py:79-85 | the values and option names of each video codec group |
| Transcode.AudioCodecLookup | chaptinator/chaptinator.py:94-97 | the values and option names of each audio codec group |
| Transcode.OptionOrder | chaptinator/chaptinator.py:68-97 | option names come in the fixed order `-vf`, `-tune`, `-r`, `-c:v`, `-crf`, `-pix_fmt`, `-preset`, `-q:a`, `-ac`, `-c:a`, each at most once |
| Transcode.AudioAfterVideo | chaptinator/chaptinator.py:68-97 | no video option follows an audio option |
| Pipeline.VideoCuts | chaptinator/chaptinator.py:158-160 | the cut list after the duration is appended: `Ok` iff the detector output and the probe output both convert, the detector's error first; then one cut per marker plus two, starting at 0 and ending at the duration |
| Pipeline.VideoMetadata | chaptinator/chaptinator.py:158-161 | the document for those cuts: `Ok` iff the detector output and the probe output both convert, the detector's error first. `VideoTimeline` and `NoCutsOneChapter` state its chapters |
| Pipeline.ExtractMetadataFromVideo | chaptinator/chaptinator.py:157-161 | the document for the cut times with the duration appended, or the first `ValueError`: the detector's before the probe's |
| Pipeline.VideoTimeline | chaptinator/chaptinator.py:158-161 | k lines with a marker give k + 1 chapters; the first starts at 0, they are contiguous, and the last ends at duration - 1 |
| Pipeline.NoCutsOneChapter | chaptinator/chaptinator.py:158-161 | without any marker, the video is one chapter from 0 to duration - 1 |
| Pipeline.NoLetterPNoCapture | chaptinator/chaptinator.py:29-30 | a line without the letter `p` holds no marker and contributes nothing |
| Pipeline.CutTimesOfThree | chaptinator/chaptinator.py:26-33 | two lines with a marker around one without give 0 and the two converted times |
| Pipeline.Millis2500 | chaptinator/chaptinator.py:32 | `"2.5"` converts to 2500 |
| Pipeline.DurationExample | chaptinator/chaptinator.py:42-43 | the probe output `"10.25\n"` gives a duration of 10250 |
| Pipeline.TwoScenesExample | chaptinator/chaptinator.py:158-160 | scene changes at 2.5 s and 7.0 s, a line without a marker, and a 10.25 s video give the cuts 0, 2500, 7000, 10250 |
| Pipeline.ExampleChapters | chaptinator/chaptinator.py:52-58 | those cuts give the chapters 1: 0-2499, 2: 2500-6999 and 3: 7000-10249 |

## Left out

- Running ffmpeg and ffprobe is not modelled: `video_extract_cuts`, `video_extract_duration` and the `run` of `write_new_video_file`. Their outputs are inputs, and `NewVideoFileCommand` returns the command it would run.
- SecondsToMillis: reads the captured text as an exact decimal and truncates. Python computes `int(float(t) * 1000)` in IEEE-754 doubles. A time such as `1.001` is stored slightly below its decimal value, so the product can fall just below a whole millisecond and truncation loses one. Very large values and binary rounding are not modelled either: a captured run of about 309 or more digits makes `float()` return `inf`, and `int(inf * 1000)` then raises `OverflowError`, where the model returns the exact value.
- ParseDuration: accepts only digits with at most one dot, like the detector's times. Python's `float()` also reads a sign, an exponent, `inf`, `nan` and underscores. ffprobe prints plain decimals, so none of these is modelled. Nor are the errors they lead to: for `inf`, `int(inf * 1000)` raises `OverflowError` (`chaptinator/chaptinator.py:43`), and for `nan`, `int()` raises a `ValueError` of its own; the model returns `ValueError` carrying the text for both.
- CaptureTime: Python's regex engine is not modelled. `re.search(r'pts_time:([0-9.]*)', line)` is modelled as the first occurrence of the marker, then the longest run of digits and dots after it.
- The UTF-8 decoding and the split into lines of the detector output are not modelled. Lines are given as strings.
- The temporary metadata file (`chaptinator/chaptinator.py:162-165`) is not modelled; the pipeline returns the document text. The file is created with `delete=False` and never removed.
- Argument parsing, the output file name and the default title (`Main.__init__`, `Main.main`) are not modelled. They rely on `argparse` and `os.path`.
- The debug printing under `__debug__` is not modelled; it has no effect on results.
- `setup.py` is packaging metadata and is not part of this model.
- The `Settings` datatype holds only the five switches that `write_new_video_file` reads from the parsed arguments.
- `write_new_video_file` is split into `AddVideoParams` and `AddAudioParams` for the two halves of the `codec_params` construction. `NewVideoFileCommand` calls them in the source's order.
- `Metadata.ParseMetadata` is a reader written for this model; it is not part of the program. It reads only documents shaped like the writer's output.
