/**
 * Cut-time parsing: finding the `pts_time:` token in each line the scene
 * detector prints, converting decimal seconds to whole milliseconds, and
 * the loop of `extract_cut_times` that collects them after a synthetic 0.
 * The probe's duration goes through the same conversion.
 */
module CutTimeParser {
  import opened Wrappers
  import opened Decimal
  import opened Seqs

  /** Python's `ValueError` raised by `float()` on the text it could not read. */
  datatype Error = ValueError(text: string)

  // ---------------------------------------------------------------------
  // Seconds to milliseconds
  // ---------------------------------------------------------------------

  /**
   * The texts made of digits and dots that Python's `float()` reads: at
   * least one digit, and at most one dot.
   */
  predicate IsDecimalSeconds(t: string)
  {
    && (exists i :: 0 <= i < |t| && IsDigit(t[i]))
    && (forall i :: 0 <= i < |t| ==> IsDigit(t[i]) || t[i] == '.')
    && (forall i, j :: 0 <= i < j < |t| && t[i] == '.' ==> t[j] != '.')
  }

  /** The first three fractional digits as milliseconds; missing digits count as 0. */
  function FractionMillis(frac: string): (ms: nat)
    requires AllDigits(frac)
    ensures ms < 1000
  {
    if |frac| >= 3 then
      assert AllDigits(frac[..3]);
      DigitsValueBound(frac[..3]);
      assert Pow10(3) == 1000;
      DigitsValue(frac[..3])
    else if |frac| == 2 then
      DigitsValueBound(frac);
      assert Pow10(2) == 100;
      10 * DigitsValue(frac)
    else if |frac| == 1 then
      DigitsValueBound(frac);
      assert Pow10(1) == 10;
      100 * DigitsValue(frac)
    else 0
  }

  /**
   * `int(float(t) * 1000)` for text made of digits and dots, read as an
   * exact decimal: the whole seconds times 1000 plus the first three
   * fractional digits. `None` stands for the `ValueError` of `float()`.
   */
  function SecondsToMillis(t: string): (r: Option<nat>)
    ensures r.Some? ==> AllDigits(t[..IndexOf(t, '.')]) && r.value / 1000 == DigitsValue(t[..IndexOf(t, '.')])
  {
    var k := IndexOf(t, '.');
    var whole := t[..k];
    var frac := if k < |t| then t[k + 1..] else "";
    if AllDigits(whole) && AllDigits(frac) && |whole| + |frac| > 0 then
      Some(1000 * DigitsValue(whole) + FractionMillis(frac))
    else
      None
  }

  /** `float()` accepts exactly the texts with a digit and at most one dot. */
  lemma SecondsToMillisDefined(t: string)
    ensures SecondsToMillis(t).Some? <==> IsDecimalSeconds(t)
  {
    AcceptedIsDecimal(t);
    DecimalSecondsParts(t);
  }

  lemma AcceptedIsDecimal(t: string)
    ensures SecondsToMillis(t).Some? ==> IsDecimalSeconds(t)
  {
    if SecondsToMillis(t).Some? {
      var k := IndexOf(t, '.');
      if k < |t| {
        SplitAround(t, k);
        assert [t[k]] == ".";
        DigitsDotDigits(t[..k], t[k + 1..]);
      } else {
        TakeAll(t);
        assert IsDigit(t[0]);
      }
    }
  }

  /** Digits, one dot and digits, with a digit somewhere, are decimal seconds. */
  lemma DigitsDotDigits(whole: string, frac: string)
    requires AllDigits(whole) && AllDigits(frac) && |whole| + |frac| > 0
    ensures IsDecimalSeconds(whole + "." + frac)
  {
    var t := whole + "." + frac;
    assert forall i :: 0 <= i < |whole| ==> t[i] == whole[i];
    assert forall i :: |whole| < i < |t| ==> t[i] == frac[i - |whole| - 1];
    if |whole| > 0 { assert IsDigit(t[0]); } else { assert IsDigit(t[1]); }
  }

  /** Well-formed seconds split at their first dot into two runs of digits. */
  lemma DecimalSecondsParts(t: string)
    ensures IsDecimalSeconds(t) ==>
      var k := IndexOf(t, '.');
      var frac := if k < |t| then t[k + 1..] else "";
      AllDigits(t[..k]) && AllDigits(frac) && k + |frac| > 0
  {
    if IsDecimalSeconds(t) {
      var k := IndexOf(t, '.');
      var frac := if k < |t| then t[k + 1..] else "";
      assert forall i :: 0 <= i < k ==> IsDigit(t[..k][i]);
      if k < |t| {
        assert forall j :: 0 <= j < |frac| ==> frac[j] == t[k + 1 + j] && t[k] == '.';
      }
      var i :| 0 <= i < |t| && IsDigit(t[i]);
      assert i != k;
    }
  }

  lemma {:induction false} DotIndexOf(whole: string, frac: string)
    requires AllDigits(whole)
    ensures IndexOf(whole + "." + frac, '.') == |whole|
    ensures (whole + "." + frac)[..|whole|] == whole
    ensures (whole + "." + frac)[|whole| + 1..] == frac
  {
    var t := whole + "." + frac;
    var k := IndexOf(t, '.');
    assert t[|whole|] == '.';
  }

  /**
   * The first three fractional digits, as milliseconds, are the exact
   * fraction rounded down: ms * 10^n <= 1000 * D(frac) < (ms + 1) * 10^n.
   */
  lemma FractionTruncates(frac: string)
    requires AllDigits(frac)
    ensures FractionMillis(frac) * Pow10(|frac|) <= 1000 * DigitsValue(frac)
    ensures 1000 * DigitsValue(frac) < (FractionMillis(frac) + 1) * Pow10(|frac|)
  {
    if |frac| >= 3 {
      LongFractionTruncates(frac);
    } else {
      ShortFractionExact(frac);
    }
  }

  lemma ShortFractionExact(frac: string)
    requires AllDigits(frac) && |frac| < 3
    ensures FractionMillis(frac) * Pow10(|frac|) == 1000 * DigitsValue(frac)
  {
    assert Pow10(1) == 10 && Pow10(2) == 100;
    if |frac| == 0 {
      assert DigitsValue(frac) == 0;
    }
  }

  lemma LongFractionTruncates(frac: string)
    requires AllDigits(frac) && |frac| >= 3
    ensures FractionMillis(frac) * Pow10(|frac|) <= 1000 * DigitsValue(frac)
    ensures 1000 * DigitsValue(frac) < (FractionMillis(frac) + 1) * Pow10(|frac|)
  {
    FractionParts(frac);
    TruncationStep(FractionMillis(frac), DigitsValue(frac), Pow10(|frac|),
      DigitsValue(frac[..3]), DigitsValue(frac[3..]), Pow10(|frac| - 3));
  }

  /** A long fraction is its first three digits shifted left, plus the digits after them. */
  lemma FractionParts(frac: string)
    requires AllDigits(frac) && |frac| >= 3
    ensures AllDigits(frac[..3]) && AllDigits(frac[3..]) && FractionMillis(frac) == DigitsValue(frac[..3])
    ensures DigitsValue(frac) == DigitsValue(frac[..3]) * Pow10(|frac| - 3) + DigitsValue(frac[3..])
    ensures Pow10(|frac|) == 1000 * Pow10(|frac| - 3)
    ensures DigitsValue(frac[3..]) < Pow10(|frac| - 3)
  {
    var head, rest := frac[..3], frac[3..];
    SplitJoin(frac, 3);
    DigitsValueAppend(head, rest);
    DigitsValueBound(rest);
    Pow10Add(3, |rest|);
    assert Pow10(3) == 1000;
  }

  lemma TruncationStep(fm: int, v: int, p: int, f3: int, vr: int, q: int)
    requires fm == f3 && v == f3 * q + vr && p == 1000 * q && 0 <= vr < q
    ensures fm * p <= 1000 * v < (fm + 1) * p
  {
  }

  /**
   * Truncation toward zero: for `whole.frac` denoting the exact decimal
   * D(whole ++ frac) / 10^|frac| seconds, the result ms is the largest whole
   * number of milliseconds not above it.
   */
  lemma {:induction false} SecondsToMillisTruncates(whole: string, frac: string)
    requires AllDigits(whole) && AllDigits(frac) && |whole| + |frac| > 0
    ensures AllDigits(whole + frac)
    ensures var r := SecondsToMillis(whole + "." + frac);
      && r.Some?
      && r.value * Pow10(|frac|) <= 1000 * DigitsValue(whole + frac)
      && 1000 * DigitsValue(whole + frac) < (r.value + 1) * Pow10(|frac|)
  {
    DotIndexOf(whole, frac);
    DigitsValueAppend(whole, frac);
    FractionTruncates(frac);
    var w, f, fm, p := DigitsValue(whole), DigitsValue(frac), FractionMillis(frac), Pow10(|frac|);
    assert SecondsToMillis(whole + "." + frac) == Some(1000 * w + fm);
    AddWhole(w, f, fm, p);
  }

  lemma AddWhole(w: int, f: int, fm: int, p: int)
    requires fm * p <= 1000 * f < (fm + 1) * p
    ensures (1000 * w + fm) * p <= 1000 * (w * p + f) < (1000 * w + fm + 1) * p
  {
    assert (1000 * w + fm) * p == 1000 * w * p + fm * p;
    assert (1000 * w + fm + 1) * p == 1000 * w * p + (fm + 1) * p;
  }

  /** A whole number of seconds without a dot is that many thousand milliseconds. */
  lemma WholeSecondsToMillis(whole: string)
    requires AllDigits(whole) && |whole| > 0
    ensures SecondsToMillis(whole) == Some(1000 * DigitsValue(whole))
  {
    var k := IndexOf(whole, '.');
    assert k == |whole|;
    assert whole[..k] == whole;
  }

  /** Texts that the captured `[0-9.]*` can hold but `float()` rejects. */
  lemma MalformedSecondsRejected(t: string)
    requires t == "" || t == "." || t == "1.2.3"
    ensures SecondsToMillis(t) == None
  {
    SecondsToMillisDefined(t);
    if t == "1.2.3" {
      assert t[1] == '.' && t[3] == '.';
    }
  }

  /**
   * Milliseconds written back as seconds with three decimals
   * (`<ms / 1000>.<ms % 1000 as 3 digits>`): the inverse of the conversion.
   */
  function FormatMillis(ms: nat): string
  {
    var r := ms % 1000;
    NatToString(ms / 1000) + "." + [DigitChar(r / 100), DigitChar(r / 10 % 10), DigitChar(r % 10)]
  }

  /** Converting written-out milliseconds gives back the same milliseconds. */
  lemma FormatMillisRoundTrip(ms: nat)
    ensures SecondsToMillis(FormatMillis(ms)) == Some(ms)
  {
    var r := ms % 1000;
    var whole := NatToString(ms / 1000);
    var frac := [DigitChar(r / 100), DigitChar(r / 10 % 10), DigitChar(r % 10)];
    ThreeDigits(frac[0], frac[1], frac[2]);
    Thousandths(r);
    DotIndexOf(whole, frac);
    assert frac[..3] == frac;
    assert FormatMillis(ms) == whole + "." + frac;
    Thousands(ms);
  }

  lemma Thousandths(r: nat)
    requires r < 1000
    ensures 100 * (r / 100) + 10 * (r / 10 % 10) + r % 10 == r
  {
  }

  lemma Thousands(ms: nat)
    ensures 1000 * (ms / 1000) + ms % 1000 == ms
  {
  }

  // ---------------------------------------------------------------------
  // The `pts_time:` token
  // ---------------------------------------------------------------------

  const Marker: string := "pts_time:"

  predicate MarkerAt(line: string, p: int)
  {
    0 <= p && p + |Marker| <= |line| && line[p..p + |Marker|] == Marker
  }

  predicate IsTimeChar(c: char) { IsDigit(c) || c == '.' }

  /** The first position at or after `from` where the marker starts. */
  function FindMarker(line: string, from: nat): (r: Option<nat>)
    requires from <= |line|
    ensures r.Some? ==> from <= r.value && MarkerAt(line, r.value)
    ensures forall j :: from <= j < (if r.Some? then r.value else |line|) ==> !MarkerAt(line, j)
    decreases |line| - from
  {
    if from + |Marker| > |line| then None
    else if line[from..from + |Marker|] == Marker then Some(from)
    else FindMarker(line, from + 1)
  }

  /** The end of the longest run of digits and dots that starts at `i`. */
  function TimeRunEnd(line: string, i: nat): (j: nat)
    requires i <= |line|
    ensures i <= j <= |line|
    ensures forall k :: i <= k < j ==> IsTimeChar(line[k])
    ensures j < |line| ==> !IsTimeChar(line[j])
    decreases |line| - i
  {
    if i < |line| && IsTimeChar(line[i]) then TimeRunEnd(line, i + 1) else i
  }

  /**
   * `re.search(r'pts_time:([0-9.]*)', line).group(1)`: `None` when the line
   * has no marker; otherwise the longest run of digits and dots right after
   * the first marker (possibly empty).
   */
  function CaptureTime(line: string): (r: Option<string>)
    ensures r.None? <==> forall j :: 0 <= j < |line| ==> !MarkerAt(line, j)
    ensures r.Some? ==> forall k :: 0 <= k < |r.value| ==> IsTimeChar(r.value[k])
  {
    match FindMarker(line, 0)
    case None => None
    case Some(p) => Some(line[p + |Marker|..TimeRunEnd(line, p + |Marker|)])
  }

  /**
   * The search finds nothing exactly when no marker occurs; otherwise it
   * yields the maximal run of digits and dots that follows the first marker.
   */
  lemma CaptureTimeMeaning(line: string)
    ensures CaptureTime(line).None? <==> forall j :: 0 <= j < |line| ==> !MarkerAt(line, j)
    ensures CaptureTime(line).Some? ==>
      exists p :: FirstMarker(line, p) && GroupAt(line, p + |Marker|, CaptureTime(line).value)
  {
    match FindMarker(line, 0)
    case None =>
    case Some(p) =>
      var g := CaptureTime(line).value;
      assert FirstMarker(line, p) && GroupAt(line, p + |Marker|, g);
  }

  /** Conversely, the first marker and the maximal run after it determine the capture. */
  lemma CaptureTimeOf(line: string, p: nat, e: nat)
    requires FirstMarker(line, p)
    requires p + |Marker| <= e <= |line|
    requires forall k :: p + |Marker| <= k < e ==> IsTimeChar(line[k])
    requires e == |line| || !IsTimeChar(line[e])
    ensures CaptureTime(line) == Some(line[p + |Marker|..e])
  {
    var r := FindMarker(line, 0);
    assert r.Some? && r.value == p;
    var j := TimeRunEnd(line, p + |Marker|);
    assert j == e;
  }

  predicate FirstMarker(line: string, p: int)
  {
    MarkerAt(line, p) && forall j :: 0 <= j < p ==> !MarkerAt(line, j)
  }

  /** `g` sits at `i` in `line` and is a maximal run of digits and dots. */
  predicate GroupAt(line: string, i: int, g: string)
  {
    && 0 <= i && i + |g| <= |line| && line[i..i + |g|] == g
    && (forall k :: 0 <= k < |g| ==> IsTimeChar(g[k]))
    && (i + |g| == |line| || !IsTimeChar(line[i + |g|]))
  }

  /** What one line contributes: its captured text, or nothing. */
  function LineCapture(line: string): seq<string>
  {
    match CaptureTime(line)
    case None => []
    case Some(t) => [t]
  }

  /** The captured texts of the lines that carry a marker, in line order. */
  function Captures(lines: seq<string>): (caps: seq<string>)
    ensures |caps| <= |lines|
  {
    if lines == [] then [] else LineCapture(lines[0]) + Captures(lines[1..])
  }

  /** Capturing distributes over concatenation of the detector output. */
  lemma {:induction false} CapturesAppend(a: seq<string>, b: seq<string>)
    ensures Captures(a + b) == Captures(a) + Captures(b)
    decreases |a|
  {
    if a == [] {
      assert a + b == b;
    } else {
      assert (a + b)[1..] == a[1..] + b;
      CapturesAppend(a[1..], b);
    }
  }

  lemma CapturesCons(line: string, rest: seq<string>)
    ensures Captures([line] + rest) == LineCapture(line) + Captures(rest)
  {
    AppendDropFirst([line], rest);
  }

  /** Each line contributes exactly one entry when it has a marker, none otherwise. */
  lemma CapturesSnoc(lines: seq<string>, line: string)
    ensures Captures(lines + [line]) ==
      Captures(lines) + (if CaptureTime(line).Some? then [CaptureTime(line).value] else [])
  {
    CapturesAppend(lines, [line]);
    assert [line][1..] == [];
  }

  // ---------------------------------------------------------------------
  // extract_cut_times
  // ---------------------------------------------------------------------

  /**
   * Converting the captured texts one after the other; the first one that
   * `float()` rejects aborts the whole conversion.
   */
  function ConvertCaptures(caps: seq<string>): (r: Result<seq<nat>, Error>)
    ensures r.Ok? ==> |r.value| == |caps|
    ensures r.Err? ==> r.error.text in caps && SecondsToMillis(r.error.text).None?
  {
    if caps == [] then Ok([])
    else
      match SecondsToMillis(caps[0])
      case None => Err(ValueError(caps[0]))
      case Some(ms) =>
        match ConvertCaptures(caps[1..])
        case Err(e) => Err(e)
        case Ok(rest) => Ok([ms] + rest)
  }

  /**
   * The conversion succeeds exactly when every capture converts, and then
   * holds one value per capture, in the same order.
   */
  lemma {:induction false} ConvertCapturesMeaning(caps: seq<string>)
    ensures ConvertCaptures(caps).Ok? <==> forall k :: 0 <= k < |caps| ==> SecondsToMillis(caps[k]).Some?
    ensures ConvertCaptures(caps).Ok? ==>
      && |ConvertCaptures(caps).value| == |caps|
      && forall k :: 0 <= k < |caps| ==> ConvertCaptures(caps).value[k] == SecondsToMillis(caps[k]).value
  {
    if caps != [] {
      ConvertCapturesMeaning(caps[1..]);
      assert forall k :: 1 <= k < |caps| ==> caps[k] == caps[1..][k - 1];
    }
  }

  /** The error reported is the text of the first capture `float()` rejects. */
  lemma {:induction false} ConvertCapturesFirstError(caps: seq<string>, k: nat)
    requires k < |caps| && SecondsToMillis(caps[k]).None?
    requires forall j :: 0 <= j < k ==> SecondsToMillis(caps[j]).Some?
    ensures ConvertCaptures(caps) == Err(ValueError(caps[k]))
    decreases k
  {
    if k > 0 {
      ConvertCapturesFirstError(caps[1..], k - 1);
    }
  }

  /**
   * The value `extract_cut_times` returns, or the error it raises: a
   * synthetic 0 followed by one millisecond value per line with a marker,
   * in line order.
   */
  function CutTimes(lines: seq<string>): (r: Result<seq<nat>, Error>)
    ensures r.Ok? ==> |r.value| == |Captures(lines)| + 1 && r.value[0] == 0
    ensures r.Err? ==> r.error.text in Captures(lines) && SecondsToMillis(r.error.text).None?
  {
    match ConvertCaptures(Captures(lines))
    case Err(e) => Err(e)
    case Ok(ts) => Ok([0] + ts)
  }

  /**
   * `extract_cut_times` succeeds exactly when every captured text converts;
   * its list is then a 0 followed by one value per line with a marker, in
   * line order.
   */
  lemma CutTimesMeaning(lines: seq<string>)
    ensures CutTimes(lines).Ok? <==>
      forall k :: 0 <= k < |Captures(lines)| ==> SecondsToMillis(Captures(lines)[k]).Some?
    ensures CutTimes(lines).Ok? ==>
      && |CutTimes(lines).value| == |Captures(lines)| + 1
      && CutTimes(lines).value[0] == 0
      && forall k :: 0 <= k < |Captures(lines)| ==>
        CutTimes(lines).value[k + 1] == SecondsToMillis(Captures(lines)[k]).value
  {
    ConvertCapturesMeaning(Captures(lines));
  }

  /** A capture that converts extends the converted prefix by its value. */
  lemma {:induction false} ConvertCapturesSnoc(caps: seq<string>, t: string)
    requires ConvertCaptures(caps).Ok? && SecondsToMillis(t).Some?
    ensures ConvertCaptures(caps + [t]) == Ok(ConvertCaptures(caps).value + [SecondsToMillis(t).value])
  {
    if caps == [] {
      assert caps + [t] == [t] && [t][0] == t && [t][1..] == [];
      assert ConvertCaptures([]) == Ok([]);
      var m := SecondsToMillis(t).value;
      assert ConvertCaptures([t]) == Ok([m] + []);
      assert [m] + [] == [] + [m];
    } else {
      var c := caps + [t];
      assert c[0] == caps[0] && c[1..] == caps[1..] + [t];
      var head := SecondsToMillis(caps[0]);
      var rest := ConvertCaptures(caps[1..]);
      assert head.Some? && rest.Ok?;
      ConvertCapturesSnoc(caps[1..], t);
      assert ConvertCaptures(caps).value == [head.value] + rest.value;
      var m := SecondsToMillis(t).value;
      assert ConvertCaptures(c) == Ok([head.value] + (rest.value + [m]));
      assert [head.value] + (rest.value + [m]) == ([head.value] + rest.value) + [m];
    }
  }

  /** A capture that does not convert, after a prefix that does, is the error reported. */
  lemma ConvertCapturesFails(before: seq<string>, t: string, after: seq<string>)
    requires ConvertCaptures(before).Ok? && SecondsToMillis(t).None?
    ensures ConvertCaptures(before + [t] + after) == Err(ValueError(t))
  {
    var caps := before + [t] + after;
    ConvertCapturesMeaning(before);
    assert caps[|before|] == t;
    assert forall j :: 0 <= j < |before| ==> caps[j] == before[j];
    ConvertCapturesFirstError(caps, |before|);
  }

  /** A line without a marker leaves the converted times as they were. */
  lemma ExtractSkip(done: seq<string>, line: string, tail: seq<nat>)
    requires ConvertCaptures(Captures(done)) == Ok(tail)
    requires CaptureTime(line).None?
    ensures ConvertCaptures(Captures(done + [line])) == Ok(tail)
  {
    CapturesSnoc(done, line);
    assert Captures(done) + [] == Captures(done);
  }

  /** A line whose time converts appends its milliseconds. */
  lemma ExtractAppend(done: seq<string>, line: string, tail: seq<nat>, t: string, ms: nat)
    requires ConvertCaptures(Captures(done)) == Ok(tail)
    requires CaptureTime(line) == Some(t) && SecondsToMillis(t) == Some(ms)
    ensures ConvertCaptures(Captures(done + [line])) == Ok(tail + [ms])
  {
    CapturesSnoc(done, line);
    ConvertCapturesSnoc(Captures(done), t);
  }

  /**
   * A line whose time does not convert makes the whole extraction fail with
   * that text, whatever the lines after it hold.
   */
  lemma ExtractFail(done: seq<string>, line: string, rest: seq<string>, t: string)
    requires ConvertCaptures(Captures(done)).Ok?
    requires CaptureTime(line) == Some(t) && SecondsToMillis(t).None?
    ensures CutTimes(done + [line] + rest) == Err(ValueError(t))
  {
    CapturesAppend(done + [line], rest);
    CapturesSnoc(done, line);
    ConvertCapturesFails(Captures(done), t, Captures(rest));
  }

  /** The loop of `extract_cut_times`, appending to a list that starts as `[0]`. */
  method ExtractCutTimes(cutsRaw: seq<string>) returns (r: Result<seq<nat>, Error>)
    ensures r == CutTimes(cutsRaw)
  {
    var cutTimes: seq<nat> := [0];
    ghost var done: seq<string> := [];
    ghost var converted: seq<nat> := [];
    var i := 0;
    while i < |cutsRaw|
      invariant 0 <= i <= |cutsRaw|
      invariant done == cutsRaw[..i]
      invariant cutTimes == [0] + converted
      invariant ConvertCaptures(Captures(done)) == Ok(converted)
    {
      var time := CaptureTime(cutsRaw[i]);
      TakeSnoc(cutsRaw, i);
      if time.Some? {
        var ms := SecondsToMillis(time.value);
        if ms.None? {
          ExtractFail(done, cutsRaw[i], cutsRaw[i + 1..], time.value);
          SplitAround(cutsRaw, i);
          return Err(ValueError(time.value));
        }
        ExtractAppend(done, cutsRaw[i], converted, time.value, ms.value);
        AppendAssoc([0], converted, [ms.value]);
        cutTimes := cutTimes + [ms.value];
        converted := converted + [ms.value];
      } else {
        ExtractSkip(done, cutsRaw[i], converted);
      }
      done := done + [cutsRaw[i]];
      i := i + 1;
    }
    TakeAll(cutsRaw);
    r := Ok(cutTimes);
  }

  // ---------------------------------------------------------------------
  // video_extract_duration
  // ---------------------------------------------------------------------

  /** The ASCII white space that `bytes.strip()` removes. */
  predicate IsSpace(c: char)
  {
    c == ' ' || c == '\t' || c == '\n' || c == '\r' || c as int == 11 || c as int == 12
  }

  function TrimStart(s: string): (r: string)
    ensures |r| <= |s| && r == s[|s| - |r|..]
    ensures r == [] || !IsSpace(r[0])
    ensures forall k :: 0 <= k < |s| - |r| ==> IsSpace(s[k])
  {
    if s != [] && IsSpace(s[0]) then TrimStart(s[1..]) else s
  }

  function TrimEnd(s: string): (r: string)
    ensures |r| <= |s| && r == s[..|r|]
    ensures r == [] || !IsSpace(r[|r| - 1])
    ensures forall k :: |r| <= k < |s| ==> IsSpace(s[k])
  {
    if s != [] && IsSpace(s[|s| - 1]) then TrimEnd(s[..|s| - 1]) else s
  }

  /**
   * `int(float(out.strip()) * 1000)` on the probe's output: the duration
   * in milliseconds, or the `ValueError` of `float()`.
   */
  function ParseDuration(out: string): (r: Result<nat, Error>)
    ensures r.Ok? <==> IsDecimalSeconds(TrimEnd(TrimStart(out)))
    ensures r.Err? ==> r.error == ValueError(TrimEnd(TrimStart(out)))
    ensures r.Ok? ==> SecondsToMillis(TrimEnd(TrimStart(out))) == Some(r.value)
  {
    var text := TrimEnd(TrimStart(out));
    SecondsToMillisDefined(text);
    match SecondsToMillis(text)
    case None => Err(ValueError(text))
    case Some(ms) => Ok(ms)
  }
}
