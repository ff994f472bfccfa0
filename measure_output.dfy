/** The reader of MeasureSleep's report in src/core/mod.rs
    (`parse_measurement_output_with_resolution`): the average delta, its
    standard deviation and the timer resolution the helper saw, each taken
    from the first line that yields a parseable value. */
module MeasureOutput {
  import opened Wrappers
  import Text
  import FloatText
  import Utf8
  import opened FirstValues


  /** What the report yields: `(delta_ms, stdev_ms, actual_resolution_ms)`. */
  datatype Report = Report(avg: Float, stdev: Float, resolution: Option<Float>)

  // ---------------------------------------------------------------------------
  // The three readings of one line (src/core/mod.rs:262-283)

  /** `"Avg: <value>"` on a trimmed line, the remainder trimmed again. */
  function AvgOf(line: string): Option<Float> {
    var t := Text.Trim(line);
    if "Avg: " <= t then FloatText.Parse(Text.Trim(t[5..])) else None
  }

  /** `"STDEV: <value>"` on a trimmed line, the remainder trimmed again. */
  function StdevOf(line: string): Option<Float> {
    var t := Text.Trim(line);
    if "STDEV: " <= t then FloatText.Parse(Text.Trim(t[7..])) else None
  }

  /** The text after the first `"Resolution: "` (up to a second one), cut
      before its first `"ms"` and trimmed. */
  function ResolutionText(t: string): Option<string> {
    match Text.SecondPiece(t, "Resolution: ")
    case None => None
    case Some(piece) => Some(Text.Trim(Text.BeforeFirst(piece, "ms")))
  }

  /** The `if let` chain that reads the resolution off a trimmed line known
      to contain `"Resolution: "`. */
  function ResolutionAfterMarker(t: string): Option<Float> {
    match ResolutionText(t)
    case None => None
    case Some(text) => FloatText.Parse(text)
  }

  function ResolutionOf(line: string): Option<Float> {
    var t := Text.Trim(line);
    if Text.Contains(t, "Resolution: ") then ResolutionAfterMarker(t) else None
  }

  // ---------------------------------------------------------------------------
  // The report

  /** The reference reading of the lines of a report: every line is
      examined, with no early exit. */
  function ReadLines(lines: seq<string>): Result<Report> {
    var avg := FirstValue(lines, AvgOf);
    var stdev := FirstValue(lines, StdevOf);
    if avg.Some? && stdev.Some? then Ok(Report(avg.value, stdev.value, FirstValue(lines, ResolutionOf)))
    else Err(InvalidData)
  }

  /** The reference reading of a report's bytes. */
  function ReadReport(bytes: seq<Utf8.Byte>): Result<Report> {
    match Utf8.Decode(bytes)
    case None => Err(InvalidData)
    case Some(text) => ReadLines(Text.Lines(text))
  }

  /** The body of the loop of `parse_measurement_output_with_resolution`:
      each reading not yet set is tried on the trimmed line. */
  method ReadLine(line: string, avg: Option<Float>, stdev: Option<Float>, resolution: Option<Float>)
    returns (avg': Option<Float>, stdev': Option<Float>, resolution': Option<Float>)
    ensures avg' == if avg.Some? then avg else AvgOf(line)
    ensures stdev' == if stdev.Some? then stdev else StdevOf(line)
    ensures resolution' == if resolution.Some? then resolution else ResolutionOf(line)
  {
    avg', stdev', resolution' := avg, stdev, resolution;
    var trimmed := Text.Trim(line);
    if resolution'.None? && Text.Contains(trimmed, "Resolution: ") {
      resolution' := ResolutionAfterMarker(trimmed);
    }
    if avg'.None? && "Avg: " <= trimmed {
      avg' := FloatText.Parse(Text.Trim(trimmed[5..]));
    }
    if stdev'.None? && "STDEV: " <= trimmed {
      stdev' := FloatText.Parse(Text.Trim(trimmed[7..]));
    }
  }

  /** The loop of `parse_measurement_output_with_resolution`: one pass with
      three accumulators, stopping once all three are set. */
  method ScanLines(lines: seq<string>) returns (avg: Option<Float>, stdev: Option<Float>, resolution: Option<Float>)
    ensures avg == FirstValue(lines, AvgOf)
    ensures stdev == FirstValue(lines, StdevOf)
    ensures resolution == FirstValue(lines, ResolutionOf)
  {
    avg, stdev, resolution := None, None, None;
    var i := 0;
    while i < |lines|
      invariant 0 <= i <= |lines|
      invariant avg == FirstValue(lines[..i], AvgOf)
      invariant stdev == FirstValue(lines[..i], StdevOf)
      invariant resolution == FirstValue(lines[..i], ResolutionOf)
    {
      FirstValueStep(lines, i, AvgOf);
      FirstValueStep(lines, i, StdevOf);
      FirstValueStep(lines, i, ResolutionOf);
      avg, stdev, resolution := ReadLine(lines[i], avg, stdev, resolution);
      i := i + 1;
      if avg.Some? && stdev.Some? && resolution.Some? {
        break;
      }
    }
    FirstValueDone(lines, i, AvgOf, avg);
    FirstValueDone(lines, i, StdevOf, stdev);
    FirstValueDone(lines, i, ResolutionOf, resolution);
  }

  /** `parse_measurement_output_with_resolution`: decode, scan the lines, and
      accept when both the average and the deviation were read. */
  method ParseReport(bytes: seq<Utf8.Byte>) returns (r: Result<Report>)
    ensures r == ReadReport(bytes)
  {
    var decoded := Utf8.Decode(bytes);
    if decoded.None? {
      return Err(InvalidData);
    }
    var avg, stdev, resolution := ScanLines(Text.Lines(decoded.value));
    if avg.Some? && stdev.Some? {
      r := Ok(Report(avg.value, stdev.value, resolution));
    } else {
      r := Err(InvalidData);
    }
  }

  // ---------------------------------------------------------------------------
  // Properties of the report reader

  /** Bytes that are not UTF-8 are an `InvalidData` error. */
  lemma {:induction false} NotUtf8IsInvalidData(bytes: seq<Utf8.Byte>)
    requires Utf8.Decode(bytes).None?
    ensures ReadReport(bytes) == Err(InvalidData)
  {
  }

  /** A report is accepted exactly when its lines hold a parseable `Avg: ` line
      and a parseable `STDEV: ` line; a missing resolution is not an error. */
  lemma {:induction false} ReportAcceptedIff(lines: seq<string>)
    ensures ReadLines(lines).Ok? <==>
              (exists i :: 0 <= i < |lines| && AvgOf(lines[i]).Some?)
              && (exists j :: 0 <= j < |lines| && StdevOf(lines[j]).Some?)
  {
    FirstValueIsFirst(lines, AvgOf);
    FirstValueIsFirst(lines, StdevOf);
  }

  /** Each accepted value is that of the first line that yields one, so an
      unparseable line does not block a later one; the same holds for the
      resolution, which is `None` exactly when no line yields one. */
  lemma {:induction false} ReportValuesAreFirst(lines: seq<string>)
    requires ReadLines(lines).Ok?
    ensures var rep := ReadLines(lines).value;
      (exists i :: 0 <= i < |lines| && AvgOf(lines[i]) == Some(rep.avg)
         && forall j :: 0 <= j < i ==> AvgOf(lines[j]).None?)
      && (exists i :: 0 <= i < |lines| && StdevOf(lines[i]) == Some(rep.stdev)
            && forall j :: 0 <= j < i ==> StdevOf(lines[j]).None?)
      && (rep.resolution.None? <==> forall i :: 0 <= i < |lines| ==> ResolutionOf(lines[i]).None?)
  {
    FirstValueIsFirst(lines, AvgOf);
    FirstValueIsFirst(lines, StdevOf);
    FirstValueIsFirst(lines, ResolutionOf);
  }

  /** The line the timer helper prints, `Resolution: <number>ms<tail>`, is
      read back as its number, whatever follows the unit. */
  lemma {:induction false} PrintedResolutionIsRead(number: string, tail: string)
    requires FloatText.Parse(number).Some? && 'm' !in number && 'R' !in number
    requires 'R' !in tail && (|tail| > 0 ==> !Text.IsWhitespace(tail[|tail| - 1]))
    ensures ResolutionOf("Resolution: " + number + "ms" + tail) == FloatText.Parse(number)
  {
    var pat, rest := "Resolution: ", number + ("ms" + tail);
    var line := pat + rest;
    assert "Resolution: " + number + "ms" + tail == line;
    assert line[0] == 'R';
    assert line[|line| - 1] == if |tail| > 0 then tail[|tail| - 1] else 's';
    Text.TrimOfTrimmed(line);
    assert 'R' !in rest;
    Text.SecondPieceOfPrefixed(pat, rest);
    Text.BeforeFirstOfPrefixed(number, "ms", tail);
    Text.TrimOfTrimmed(number);
  }
}
