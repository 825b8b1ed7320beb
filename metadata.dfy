/**
 * The chapter metadata writer, `assemble_new_metadata`: consecutive cut
 * times become chapters, and the chapters are written, after a header
 * with title and artist, as FFmpeg's `;FFMETADATA1` text. A reader for
 * that text is used to state that the written document reads back.
 */
module Metadata {
  import opened Wrappers
  import opened Decimal
  import opened Seqs

  /** One `[CHAPTER]` block: its 1-based `title` number and its START/END in milliseconds. */
  datatype Chapter = Chapter(index: nat, start: int, end: int)

  // ---------------------------------------------------------------------
  // The chapter timeline
  // ---------------------------------------------------------------------

  /**
   * `enumerate(zip(cuts[:-1], cuts[1:]), start=index)` turned into
   * chapters: each pair of consecutive cuts gives START = first and
   * END = second - 1.
   */
  function ChaptersFrom(cuts: seq<int>, index: nat): (cs: seq<Chapter>)
    ensures |cs| == if |cuts| < 2 then 0 else |cuts| - 1
  {
    if |cuts| < 2 then []
    else [Chapter(index, cuts[0], cuts[1] - 1)] + ChaptersFrom(cuts[1..], index + 1)
  }

  /** The chapters written for a list of cut times, numbered from 1. */
  function Chapters(cuts: seq<int>): (cs: seq<Chapter>)
    ensures |cs| == if |cuts| < 2 then 0 else |cuts| - 1
    ensures |cs| > 0 ==> cs[0] == Chapter(1, cuts[0], cuts[1] - 1)
    ensures |cs| > 0 ==> cs[|cs| - 1].end == cuts[|cuts| - 1] - 1
  {
    ChaptersFromShape(cuts, 1);
    ChaptersFrom(cuts, 1)
  }

  lemma {:induction false} ChaptersFromShape(cuts: seq<int>, index: nat)
    ensures |ChaptersFrom(cuts, index)| == if |cuts| < 2 then 0 else |cuts| - 1
    ensures forall i :: 0 <= i < |ChaptersFrom(cuts, index)| ==>
      ChaptersFrom(cuts, index)[i] == Chapter(index + i, cuts[i], cuts[i + 1] - 1)
    decreases |cuts|
  {
    if |cuts| >= 2 {
      ChaptersFromShape(cuts[1..], index + 1);
      var cs, rest := ChaptersFrom(cuts, index), ChaptersFrom(cuts[1..], index + 1);
      assert cs == [Chapter(index, cuts[0], cuts[1] - 1)] + rest;
      forall i | 1 <= i < |cs|
        ensures cs[i] == Chapter(index + i, cuts[i], cuts[i + 1] - 1)
      {
        assert cs[i] == rest[i - 1];
        assert cuts[1..][i - 1] == cuts[i] && cuts[1..][i] == cuts[i + 1];
      }
    }
  }

  /**
   * A list of n cut times gives max(n - 1, 0) chapters; chapter i (1-based)
   * runs from cut i - 1 to one millisecond before cut i and is titled i.
   */
  lemma ChaptersShape(cuts: seq<int>)
    ensures |Chapters(cuts)| == if |cuts| < 2 then 0 else |cuts| - 1
    ensures forall i :: 1 <= i <= |Chapters(cuts)| ==>
      Chapters(cuts)[i - 1] == Chapter(i, cuts[i - 1], cuts[i] - 1)
  {
    ChaptersFromShape(cuts, 1);
  }

  /** Consecutive chapters touch: one ends a millisecond before the next starts. */
  lemma ChaptersContiguous(cuts: seq<int>)
    ensures forall i :: 0 <= i < |Chapters(cuts)| - 1 ==>
      Chapters(cuts)[i].end + 1 == Chapters(cuts)[i + 1].start
  {
    ChaptersShape(cuts);
    var cs := Chapters(cuts);
    forall i | 0 <= i < |cs| - 1
      ensures cs[i].end + 1 == cs[i + 1].start
    {
      assert cs[i] == Chapter(i + 1, cuts[i], cuts[i + 1] - 1);
      assert cs[i + 1] == Chapter(i + 2, cuts[i + 1], cuts[i + 2] - 1);
    }
  }

  /**
   * No ordering is checked: the last chapter ends a millisecond before the
   * last cut, and when that cut is not after the one before it, the last
   * chapter ends before it starts and is still written.
   */
  lemma LastChapter(cuts: seq<int>)
    requires |cuts| >= 2
    ensures var cs := Chapters(cuts);
      && cs[|cs| - 1].start == cuts[|cuts| - 2]
      && cs[|cs| - 1].end == cuts[|cuts| - 1] - 1
      && (cuts[|cuts| - 1] <= cuts[|cuts| - 2] <==> cs[|cs| - 1].end < cs[|cs| - 1].start)
  {
    ChaptersShape(cuts);
    var cs := Chapters(cuts);
    assert cs[|cs| - 1] == Chapter(|cs|, cuts[|cs| - 1], cuts[|cs|] - 1);
  }

  /** The cut times a timeline spans: every START, then the last END + 1. */
  function CutsOf(cs: seq<Chapter>): seq<int>
    requires |cs| > 0
  {
    seq(|cs|, i requires 0 <= i < |cs| => cs[i].start) + [cs[|cs| - 1].end + 1]
  }

  /** The chapters determine the cut times they were made from. */
  lemma CutsRecovered(cuts: seq<int>)
    requires |cuts| >= 2
    ensures |Chapters(cuts)| > 0 && CutsOf(Chapters(cuts)) == cuts
  {
    ChaptersShape(cuts);
    var cs := Chapters(cuts);
    var r := CutsOf(cs);
    forall i | 0 <= i < |cuts|
      ensures r[i] == cuts[i]
    {
      if i < |cs| {
        assert cs[i] == Chapter(i + 1, cuts[i], cuts[i + 1] - 1);
      } else {
        assert cs[i - 1] == Chapter(i, cuts[i - 1], cuts[i] - 1);
      }
    }
  }

  // ---------------------------------------------------------------------
  // The ;FFMETADATA1 text
  // ---------------------------------------------------------------------

  predicate SingleLine(s: string)
  {
    forall i :: 0 <= i < |s| ==> s[i] != '\n'
  }

  /** Lines, each terminated by a line feed. */
  function Unlines(ls: seq<string>): string
  {
    if ls == [] then "" else ls[0] + "\n" + Unlines(ls[1..])
  }

  lemma UnlinesCons(l: string, rest: seq<string>)
    ensures Unlines([l] + rest) == l + "\n" + Unlines(rest)
  {
    assert ([l] + rest)[0] == l && ([l] + rest)[1..] == rest;
  }

  lemma {:induction false} UnlinesAppend(a: seq<string>, b: seq<string>)
    ensures Unlines(a + b) == Unlines(a) + Unlines(b)
    decreases |a|
  {
    if a == [] {
      assert a + b == b;
    } else {
      assert (a + b)[0] == a[0] && (a + b)[1..] == a[1..] + b;
      UnlinesAppend(a[1..], b);
    }
  }

  function HeaderLines(title: string, artist: string): seq<string>
  {
    [";FFMETADATA1", "title=" + title, "artist=" + artist]
  }

  function ChapterLines(c: Chapter): seq<string>
  {
    [ "[CHAPTER]",
      "TIMEBASE=1/1000",
      "START=" + IntToString(c.start),
      "END=" + IntToString(c.end),
      "title=" + IntToString(c.index) ]
  }

  function BlockLines(cs: seq<Chapter>): seq<string>
  {
    if cs == [] then [] else ChapterLines(cs[0]) + BlockLines(cs[1..])
  }

  lemma {:induction false} BlockLinesAppend(cs: seq<Chapter>, c: Chapter)
    ensures BlockLines(cs + [c]) == BlockLines(cs) + ChapterLines(c)
    decreases |cs|
  {
    if cs == [] {
      assert [c][1..] == [];
      assert ChapterLines(c) + [] == ChapterLines(c);
    } else {
      assert (cs + [c])[0] == cs[0] && (cs + [c])[1..] == cs[1..] + [c];
      BlockLinesAppend(cs[1..], c);
    }
  }

  /** The document written for a title, an artist and a chapter timeline. */
  function MetadataText(title: string, artist: string, cs: seq<Chapter>): (text: string)
    ensures |text| > 0 && text[0] == ';'
  {
    Unlines(HeaderLines(title, artist) + BlockLines(cs))
  }

  /** The text of one `[CHAPTER]` block, as the f-string of the writer lays it out. */
  function ChapterText(c: Chapter): string
  {
    "[CHAPTER]" + "\n" + "TIMEBASE=1/1000" + "\n" + ("START=" + IntToString(c.start)) + "\n"
      + ("END=" + IntToString(c.end)) + "\n" + ("title=" + IntToString(c.index)) + "\n"
  }

  lemma UnlinesFive(a: string, b: string, c: string, d: string, e: string)
    ensures Unlines([a, b, c, d, e]) == a + "\n" + b + "\n" + c + "\n" + d + "\n" + e + "\n"
  {
    var s5 := [e];
    var s4 := [d] + s5;
    var s3 := [c] + s4;
    var s2 := [b] + s3;
    assert [a, b, c, d, e] == [a] + s2;
    UnlinesCons(e, []);
    assert [e] + [] == [e];
    UnlinesCons(d, s5);
    UnlinesCons(c, s4);
    UnlinesCons(b, s3);
    UnlinesCons(a, s2);
    var p1 := a + "\n";
    assert p1 + (b + "\n" + Unlines(s3)) == p1 + b + "\n" + Unlines(s3);
    var p2 := p1 + b + "\n";
    assert p2 + (c + "\n" + Unlines(s4)) == p2 + c + "\n" + Unlines(s4);
    var p3 := p2 + c + "\n";
    assert p3 + (d + "\n" + Unlines(s5)) == p3 + d + "\n" + Unlines(s5);
    var p4 := p3 + d + "\n";
    assert p4 + (e + "\n" + "") == p4 + e + "\n" + "";
    assert p4 + e + "\n" + "" == p4 + e + "\n";
  }

  lemma ChapterTextLines(c: Chapter)
    ensures Unlines(ChapterLines(c)) == ChapterText(c)
  {
    UnlinesFive("[CHAPTER]", "TIMEBASE=1/1000", "START=" + IntToString(c.start),
      "END=" + IntToString(c.end), "title=" + IntToString(c.index));
  }

  /**
   * The document starts with exactly `;FFMETADATA1`, `title=<title>` and
   * `artist=<artist>` on three lines, title and artist inserted verbatim.
   */
  lemma MetadataHeader(title: string, artist: string, cs: seq<Chapter>)
    ensures MetadataText(title, artist, cs)
      == ";FFMETADATA1" + "\n" + "title=" + title + "\n" + "artist=" + artist + "\n" + Unlines(BlockLines(cs))
  {
    HeaderThen(title, artist, BlockLines(cs));
  }

  lemma HeaderThen(title: string, artist: string, rest: seq<string>)
    ensures Unlines(HeaderLines(title, artist) + rest)
      == ";FFMETADATA1" + "\n" + "title=" + title + "\n" + "artist=" + artist + "\n" + Unlines(rest)
  {
    UnlinesThree(";FFMETADATA1", "title=" + title, "artist=" + artist, rest);
  }

  lemma UnlinesThree(a: string, b: string, c: string, rest: seq<string>)
    ensures Unlines([a, b, c] + rest) == a + "\n" + b + "\n" + c + "\n" + Unlines(rest)
  {
    var s2 := [c] + rest;
    var s1 := [b] + s2;
    assert [a, b, c] + rest == [a] + s1;
    UnlinesCons(c, rest);
    UnlinesCons(b, s2);
    UnlinesCons(a, s1);
  }

  /** Appending a chapter to the timeline appends its block to the document. */
  lemma MetadataTextSnoc(title: string, artist: string, cs: seq<Chapter>, c: Chapter)
    ensures MetadataText(title, artist, cs + [c]) == MetadataText(title, artist, cs) + ChapterText(c)
  {
    var h := HeaderLines(title, artist);
    BlockLinesAppend(cs, c);
    assert h + (BlockLines(cs) + ChapterLines(c)) == (h + BlockLines(cs)) + ChapterLines(c);
    UnlinesAppend(h + BlockLines(cs), ChapterLines(c));
    ChapterTextLines(c);
  }

  lemma HeaderOnly(title: string, artist: string)
    ensures MetadataText(title, artist, []) == ";FFMETADATA1" + "\n" + "title=" + title + "\n" + "artist=" + artist + "\n"
  {
    MetadataHeader(title, artist, []);
    assert BlockLines([]) == [] && Unlines([]) == "";
  }

  /** Fewer than two cut times give no chapter, and the document is the header alone. */
  lemma FewCutsHeaderOnly(title: string, artist: string, cuts: seq<int>)
    requires |cuts| < 2
    ensures MetadataText(title, artist, Chapters(cuts))
      == ";FFMETADATA1" + "\n" + "title=" + title + "\n" + "artist=" + artist + "\n"
  {
    ChaptersShape(cuts);
    assert Chapters(cuts) == [];
    HeaderOnly(title, artist);
  }

  /** `assemble_new_metadata`: the header, then one block per pair of consecutive cuts. */
  method AssembleMetadata(artist: string, cutTimes: seq<int>, title: string) returns (metadata: string)
    ensures metadata == MetadataText(title, artist, Chapters(cutTimes))
  {
    metadata := ";FFMETADATA1" + "\n" + "title=" + title + "\n" + "artist=" + artist + "\n";
    ChaptersShape(cutTimes);
    ghost var cs := Chapters(cutTimes);
    HeaderOnly(title, artist);
    assert cs[..0] == [];
    var i := 0;
    while i + 1 < |cutTimes|
      invariant 0 <= i <= |cs|
      invariant metadata == MetadataText(title, artist, cs[..i])
    {
      var start, end := cutTimes[i], cutTimes[i + 1];
      assert cs[i] == Chapter(i + 1, start, end - 1);
      TakeSnoc(cs, i);
      MetadataTextSnoc(title, artist, cs[..i], cs[i]);
      metadata := metadata + ("[CHAPTER]" + "\n" + "TIMEBASE=1/1000" + "\n" + ("START=" + IntToString(start)) + "\n"
        + ("END=" + IntToString(end - 1)) + "\n" + ("title=" + IntToString(i + 1)) + "\n");
      i := i + 1;
    }
    TakeAll(cs);
  }

  // ---------------------------------------------------------------------
  // Reading the text back
  // ---------------------------------------------------------------------

  /** The lines of a text; a final line feed ends the last line. */
  function Lines(s: string): seq<string>
    decreases |s|
  {
    if s == [] then []
    else
      var k := IndexOf(s, '\n');
      if k == |s| then [s] else [s[..k]] + Lines(s[k + 1..])
  }

  /** Splitting text written line by line gives back the lines. */
  lemma {:induction false} LinesUnlines(ls: seq<string>)
    requires forall i :: 0 <= i < |ls| ==> SingleLine(ls[i])
    ensures Lines(Unlines(ls)) == ls
    decreases |ls|
  {
    if ls != [] {
      var l, rest := ls[0], Unlines(ls[1..]);
      var s := l + "\n" + rest;
      assert s[|l|] == '\n';
      assert forall i :: 0 <= i < |l| ==> s[i] == l[i];
      var k := IndexOf(s, '\n');
      assert k == |l|;
      assert s[..k] == l && s[k + 1..] == rest;
      LinesUnlines(ls[1..]);
    }
  }

  predicate StartsWith(s: string, prefix: string)
  {
    |prefix| <= |s| && s[..|prefix|] == prefix
  }

  /** The rest of a line after `prefix`, when the line starts with it. */
  function Field(line: string, prefix: string): Option<string>
  {
    if StartsWith(line, prefix) then Some(line[|prefix|..]) else None
  }

  lemma FieldOf(prefix: string, value: string)
    ensures Field(prefix + value, prefix) == Some(value)
  {
    var line := prefix + value;
    assert line[..|prefix|] == prefix;
    assert line[|prefix|..] == value;
  }

  lemma SingleLineConcat(a: string, b: string)
    requires SingleLine(a) && SingleLine(b)
    ensures SingleLine(a + b)
  {
    assert forall k :: |a| <= k < |a + b| ==> (a + b)[k] == b[k - |a|];
  }

  /** Reads one five-line `[CHAPTER]` block. */
  function ParseChapter(b: seq<string>): Option<Chapter>
    requires |b| == 5
  {
    var s, e, t := Field(b[2], "START="), Field(b[3], "END="), Field(b[4], "title=");
    if b[0] == "[CHAPTER]" && b[1] == "TIMEBASE=1/1000" && s.Some? && e.Some? && t.Some? then
      var start, end, index := ParseInt(s.value), ParseInt(e.value), ParseInt(t.value);
      if start.Some? && end.Some? && index.Some? && index.value >= 0 then
        Some(Chapter(index.value, start.value, end.value))
      else None
    else None
  }

  /** Reads consecutive `[CHAPTER]` blocks up to the end of the text. */
  function ParseBlocks(ls: seq<string>): Option<seq<Chapter>>
    decreases |ls|
  {
    if ls == [] then Some([])
    else if |ls| < 5 then None
    else
      var c, cs := ParseChapter(ls[..5]), ParseBlocks(ls[5..]);
      if c.Some? && cs.Some? then Some([c.value] + cs.value) else None
  }

  /** What a metadata document says: title, artist and chapters. */
  datatype Document = Document(title: string, artist: string, chapters: seq<Chapter>)

  /** A reader for the documents the writer produces. */
  function ParseMetadata(text: string): Option<Document>
  {
    var ls := Lines(text);
    if |ls| < 3 || ls[0] != ";FFMETADATA1" then None
    else
      var title, artist, cs := Field(ls[1], "title="), Field(ls[2], "artist="), ParseBlocks(ls[3..]);
      if title.Some? && artist.Some? && cs.Some? then Some(Document(title.value, artist.value, cs.value))
      else None
  }

  lemma IntFieldSingleLine(prefix: string, i: int)
    requires SingleLine(prefix)
    ensures SingleLine(prefix + IntToString(i))
  {
    SingleLineConcat(prefix, IntToString(i));
  }

  lemma ChapterRoundTrip(c: Chapter)
    ensures |ChapterLines(c)| == 5 && ParseChapter(ChapterLines(c)) == Some(c)
    ensures forall i :: 0 <= i < 5 ==> SingleLine(ChapterLines(c)[i])
  {
    ChapterParses(c);
    ChapterLinesSingle(c);
  }

  lemma ChapterParses(c: Chapter)
    ensures |ChapterLines(c)| == 5 && ParseChapter(ChapterLines(c)) == Some(c)
  {
    FieldOf("START=", IntToString(c.start));
    FieldOf("END=", IntToString(c.end));
    FieldOf("title=", IntToString(c.index));
  }

  lemma ChapterLinesSingle(c: Chapter)
    ensures forall i :: 0 <= i < |ChapterLines(c)| ==> SingleLine(ChapterLines(c)[i])
  {
    FixedLinesSingle();
    IntFieldSingleLine("START=", c.start);
    IntFieldSingleLine("END=", c.end);
    IntFieldSingleLine("title=", c.index);
    FiveSingle("[CHAPTER]", "TIMEBASE=1/1000", "START=" + IntToString(c.start),
      "END=" + IntToString(c.end), "title=" + IntToString(c.index));
  }

  lemma FixedLinesSingle()
    ensures SingleLine("[CHAPTER]") && SingleLine("TIMEBASE=1/1000")
  {
  }

  lemma FiveSingle(a: string, b: string, c: string, d: string, e: string)
    requires SingleLine(a) && SingleLine(b) && SingleLine(c) && SingleLine(d) && SingleLine(e)
    ensures forall i :: 0 <= i < 5 ==> SingleLine([a, b, c, d, e][i])
  {
  }

  lemma {:induction false} BlocksRoundTrip(cs: seq<Chapter>)
    ensures ParseBlocks(BlockLines(cs)) == Some(cs)
    ensures forall i :: 0 <= i < |BlockLines(cs)| ==> SingleLine(BlockLines(cs)[i])
    decreases |cs|
  {
    if cs != [] {
      var head, rest := ChapterLines(cs[0]), BlockLines(cs[1..]);
      ChapterRoundTrip(cs[0]);
      BlocksRoundTrip(cs[1..]);
      assert BlockLines(cs) == head + rest;
      ParseBlocksCons(head, rest);
      SingleLinesAppend(head, rest);
      ConsTail(cs);
    }
  }

  /** A block that reads as a chapter, followed by blocks that read, reads as one more chapter. */
  lemma ParseBlocksCons(head: seq<string>, rest: seq<string>)
    requires |head| == 5 && ParseChapter(head).Some? && ParseBlocks(rest).Some?
    ensures ParseBlocks(head + rest) == Some([ParseChapter(head).value] + ParseBlocks(rest).value)
  {
    AppendParts(head, rest);
  }

  lemma SingleLinesAppend(a: seq<string>, b: seq<string>)
    requires forall i :: 0 <= i < |a| ==> SingleLine(a[i])
    requires forall i :: 0 <= i < |b| ==> SingleLine(b[i])
    ensures forall i :: 0 <= i < |a + b| ==> SingleLine((a + b)[i])
  {
    forall i | 0 <= i < |a + b|
      ensures SingleLine((a + b)[i])
    {
      if i >= |a| {
        assert (a + b)[i] == b[i - |a|];
      }
    }
  }

  /**
   * Reading back a written document recovers the title, the artist and
   * every chapter's START, END and number, provided title and artist hold
   * no line feed (they are written without escaping).
   */
  lemma MetadataRoundTrip(title: string, artist: string, cs: seq<Chapter>)
    requires SingleLine(title) && SingleLine(artist)
    ensures ParseMetadata(MetadataText(title, artist, cs)) == Some(Document(title, artist, cs))
  {
    BlocksRoundTrip(cs);
    HeaderRoundTrip(title, artist, BlockLines(cs), cs);
  }

  /** The header part of the round trip, for any well-formed lines after it. */
  lemma HeaderRoundTrip(title: string, artist: string, rest: seq<string>, cs: seq<Chapter>)
    requires SingleLine(title) && SingleLine(artist)
    requires forall i :: 0 <= i < |rest| ==> SingleLine(rest[i])
    requires ParseBlocks(rest) == Some(cs)
    ensures ParseMetadata(Unlines(HeaderLines(title, artist) + rest)) == Some(Document(title, artist, cs))
  {
    HeaderLinesSplit(title, artist, rest);
    ParseHeaderLines(Unlines(HeaderLines(title, artist) + rest), title, artist, rest, cs);
  }

  lemma HeaderLinesSplit(title: string, artist: string, rest: seq<string>)
    requires SingleLine(title) && SingleLine(artist)
    requires forall i :: 0 <= i < |rest| ==> SingleLine(rest[i])
    ensures Lines(Unlines(HeaderLines(title, artist) + rest)) == HeaderLines(title, artist) + rest
  {
    HeaderLinesSingle(title, artist);
    LinesUnlinesPrefixed(HeaderLines(title, artist), rest);
  }

  lemma HeaderLinesSingle(title: string, artist: string)
    requires SingleLine(title) && SingleLine(artist)
    ensures forall i :: 0 <= i < |HeaderLines(title, artist)| ==> SingleLine(HeaderLines(title, artist)[i])
  {
    SingleLineConcat("title=", title);
    SingleLineConcat("artist=", artist);
  }

  lemma LinesUnlinesPrefixed(front: seq<string>, rest: seq<string>)
    requires forall i :: 0 <= i < |front| ==> SingleLine(front[i])
    requires forall i :: 0 <= i < |rest| ==> SingleLine(rest[i])
    ensures Lines(Unlines(front + rest)) == front + rest
  {
    var ls := front + rest;
    assert forall i :: |front| <= i < |ls| ==> ls[i] == rest[i - |front|];
    LinesUnlines(ls);
  }

  lemma ParseHeaderLines(text: string, title: string, artist: string, rest: seq<string>, cs: seq<Chapter>)
    requires Lines(text) == HeaderLines(title, artist) + rest
    requires ParseBlocks(rest) == Some(cs)
    ensures ParseMetadata(text) == Some(Document(title, artist, cs))
  {
    var ls := Lines(text);
    FieldOf("title=", title);
    FieldOf("artist=", artist);
    assert ls[0] == ";FFMETADATA1" && ls[1] == "title=" + title && ls[2] == "artist=" + artist;
    assert ls[3..] == rest;
  }

  /**
   * Re-reading the document written for a cut list of at least two entries
   * gives back exactly that cut list.
   */
  lemma CutsRecoveredFromText(title: string, artist: string, cuts: seq<int>)
    requires SingleLine(title) && SingleLine(artist) && |cuts| >= 2
    ensures var d := ParseMetadata(MetadataText(title, artist, Chapters(cuts)));
      d.Some? && |d.value.chapters| > 0 && CutsOf(d.value.chapters) == cuts
  {
    MetadataRoundTrip(title, artist, Chapters(cuts));
    CutsRecovered(cuts);
  }

  /**
   * The sharp edge of writing without escaping: a line feed in the title
   * pushes its tail onto a line of its own, and the document no longer
   * reads back.
   */
  lemma NewlineInTitleBreaksHeader(before: string, after: string, artist: string, cs: seq<Chapter>)
    requires SingleLine(before) && SingleLine(after) && SingleLine(artist)
    requires !StartsWith(after, "artist=")
    ensures ParseMetadata(MetadataText(before + "\n" + after, artist, cs)) == None
  {
    BlocksRoundTrip(cs);
    MetadataHeader(before + "\n" + after, artist, cs);
    SplitTitleUnreadable(before, after, artist, BlockLines(cs));
  }

  lemma SplitTitleUnreadable(before: string, after: string, artist: string, rest: seq<string>)
    requires SingleLine(before) && SingleLine(after) && SingleLine(artist)
    requires forall i :: 0 <= i < |rest| ==> SingleLine(rest[i])
    requires !StartsWith(after, "artist=")
    ensures ParseMetadata(";FFMETADATA1" + "\n" + "title=" + (before + "\n" + after) + "\n" + "artist=" + artist + "\n"
      + Unlines(rest)) == None
  {
    var ls := SplitHeader(before, after, artist) + rest;
    SplitHeaderText(before, after, artist, rest);
    SplitHeaderSingle(before, after, artist);
    LinesUnlinesPrefixed(SplitHeader(before, after, artist), rest);
    assert Lines(Unlines(ls))[2] == after;
    ArtistLineMissing(Unlines(ls), after);
  }

  /** The lines actually written for the title `before\nafter`. */
  function SplitHeader(before: string, after: string, artist: string): seq<string>
  {
    [";FFMETADATA1", "title=" + before, after, "artist=" + artist]
  }

  lemma SplitHeaderText(before: string, after: string, artist: string, rest: seq<string>)
    ensures Unlines(SplitHeader(before, after, artist) + rest)
      == ";FFMETADATA1" + "\n" + "title=" + (before + "\n" + after) + "\n" + "artist=" + artist + "\n" + Unlines(rest)
  {
    var l1, l3 := "title=" + before, "artist=" + artist;
    var s3 := [l3] + rest;
    assert SplitHeader(before, after, artist) + rest == [";FFMETADATA1", l1, after] + s3;
    UnlinesThree(";FFMETADATA1", l1, after, s3);
    UnlinesCons(l3, rest);
  }

  lemma SplitHeaderSingle(before: string, after: string, artist: string)
    requires SingleLine(before) && SingleLine(after) && SingleLine(artist)
    ensures forall i :: 0 <= i < |SplitHeader(before, after, artist)| ==> SingleLine(SplitHeader(before, after, artist)[i])
  {
    SingleLineConcat("title=", before);
    SingleLineConcat("artist=", artist);
  }

  lemma ArtistLineMissing(text: string, third: string)
    requires |Lines(text)| >= 3 && Lines(text)[2] == third
    requires !StartsWith(third, "artist=")
    ensures ParseMetadata(text) == None
  {
  }
}
