/** The helpers of src/utils/helpers.rs that decide something: the alternate
    report reader `parse_measurement_output`, which reads the lines as they
    are (no trimming) and knows no resolution line, and the decision `prompt`
    takes on the line the user typed. */
module Helpers {
  import opened Wrappers
  import Text
  import FloatText
  import Utf8
  import opened FirstValues
  import MeasureOutput

  // ---------------------------------------------------------------------------
  // parse_measurement_output

  /** `line.starts_with("Avg: ")` and the rest of the line parsed as it is. */
  function PlainAvgOf(line: string): Option<Float> {
    if "Avg: " <= line then FloatText.Parse(line[5..]) else None
  }

  /** `line.starts_with("STDEV: ")` and the rest of the line parsed as it is. */
  function PlainStdevOf(line: string): Option<Float> {
    if "STDEV: " <= line then FloatText.Parse(line[7..]) else None
  }

  /** The reference reading of the lines: the first average and the first
      deviation any line yields, with no early exit. */
  function ReadPlainLines(lines: seq<string>): Result<(Float, Float)> {
    var avg := FirstValue(lines, PlainAvgOf);
    var stdev := FirstValue(lines, PlainStdevOf);
    if avg.Some? && stdev.Some? then Ok((avg.value, stdev.value)) else Err(InvalidData)
  }

  /** The reference reading of the helper's bytes. */
  function ReadPlain(bytes: seq<Utf8.Byte>): Result<(Float, Float)> {
    match Utf8.Decode(bytes)
    case None => Err(InvalidData)
    case Some(text) => ReadPlainLines(Text.Lines(text))
  }

  /** The body of the loop: the average is tried first, and the deviation only
      when the average branch was not taken. The two prefixes cannot both
      match, so each reading still ends up as if tried on its own. */
  method ReadPlainLine(line: string, avg: Option<Float>, stdev: Option<Float>)
    returns (avg': Option<Float>, stdev': Option<Float>)
    ensures avg' == if avg.Some? then avg else PlainAvgOf(line)
    ensures stdev' == if stdev.Some? then stdev else PlainStdevOf(line)
  {
    avg', stdev' := avg, stdev;
    if avg'.None? && "Avg: " <= line {
      assert !("STDEV: " <= line) by { assert line[0] == 'A'; }
      avg' := FloatText.Parse(line[5..]);
    } else if stdev'.None? && "STDEV: " <= line {
      stdev' := FloatText.Parse(line[7..]);
    }
  }

  /** The loop over the lines, leaving it once both readings are set. */
  method ScanPlainLines(lines: seq<string>) returns (avg: Option<Float>, stdev: Option<Float>)
    ensures avg == FirstValue(lines, PlainAvgOf)
    ensures stdev == FirstValue(lines, PlainStdevOf)
  {
    avg, stdev := None, None;
    var i := 0;
    while i < |lines|
      invariant 0 <= i <= |lines|
      invariant avg == FirstValue(lines[..i], PlainAvgOf)
      invariant stdev == FirstValue(lines[..i], PlainStdevOf)
    {
      FirstValueStep(lines, i, PlainAvgOf);
      FirstValueStep(lines, i, PlainStdevOf);
      avg, stdev := ReadPlainLine(lines[i], avg, stdev);
      i := i + 1;
      if avg.Some? && stdev.Some? {
        break;
      }
    }
    FirstValueDone(lines, i, PlainAvgOf, avg);
    FirstValueDone(lines, i, PlainStdevOf, stdev);
  }

  /** `parse_measurement_output`: decode, scan, and accept when both readings
      were found. */
  method ParseMeasurementOutput(bytes: seq<Utf8.Byte>) returns (r: Result<(Float, Float)>)
    ensures r == ReadPlain(bytes)
  {
    var decoded := Utf8.Decode(bytes);
    if decoded.None? {
      return Err(InvalidData);
    }
    var avg, stdev := ScanPlainLines(Text.Lines(decoded.value));
    if avg.Some? && stdev.Some? {
      r := Ok((avg.value, stdev.value));
    } else {
      r := Err(InvalidData);
    }
  }

  /** The output is accepted exactly when some line starts with `"Avg: "` and
      some line starts with `"STDEV: "`, each followed by a parseable value. */
  lemma {:induction false} PlainAcceptedIff(lines: seq<string>)
    ensures ReadPlainLines(lines).Ok? <==>
              (exists i :: 0 <= i < |lines| && PlainAvgOf(lines[i]).Some?)
              && (exists j :: 0 <= j < |lines| && PlainStdevOf(lines[j]).Some?)
    ensures ReadPlainLines(lines).Err? ==> ReadPlainLines(lines).kind == InvalidData
  {
    FirstValueIsFirst(lines, PlainAvgOf);
    FirstValueIsFirst(lines, PlainStdevOf);
  }

  /** Each accepted value comes from the first line that yields one; lines
      with an unparseable value before it are skipped. */
  lemma {:induction false} PlainValuesAreFirst(lines: seq<string>)
    requires ReadPlainLines(lines).Ok?
    ensures var (avg, stdev) := ReadPlainLines(lines).value;
      (exists i :: 0 <= i < |lines| && PlainAvgOf(lines[i]) == Some(avg)
         && (forall j :: 0 <= j < i ==> PlainAvgOf(lines[j]).None?))
      && (exists i :: 0 <= i < |lines| && PlainStdevOf(lines[i]) == Some(stdev)
            && (forall j :: 0 <= j < i ==> PlainStdevOf(lines[j]).None?))
  {
    FirstValueIsFirst(lines, PlainAvgOf);
    FirstValueIsFirst(lines, PlainStdevOf);
  }

  /** The lines are not trimmed: a line indented by a whitespace character
      is never read as an average or a deviation. */
  lemma {:induction false} IndentedLineIgnored(c: char, rest: string)
    requires Text.IsWhitespace(c)
    ensures PlainAvgOf([c] + rest).None? && PlainStdevOf([c] + rest).None?
  {
    var line := [c] + rest;
    assert line[0] == c;
    assert !("Avg: " <= line) by {
      assert "Avg: "[0] == 'A' && line[0] != 'A';
    }
    assert !("STDEV: " <= line) by {
      assert "STDEV: "[0] == 'S' && line[0] != 'S';
    }
  }

  /** The reader in src/core/mod.rs trims first, so it accepts the indented
      `Avg: ` line that the plain reader ignores. */
  lemma {:induction false} TrimmedReaderAcceptsIndent(c: char, x: string)
    requires Text.IsWhitespace(c) && |x| > 0
    requires !Text.IsWhitespace(x[0]) && !Text.IsWhitespace(x[|x| - 1])
    ensures MeasureOutput.AvgOf([c] + ("Avg: " + x)) == FloatText.Parse(x)
  {
    var inner := "Avg: " + x;
    var line := [c] + inner;
    assert line[0] == c && line[1..] == inner;
    assert inner[0] == 'A' && inner[|inner| - 1] == x[|x| - 1];
    Text.TrimOfTrimmed(x);
    assert Text.TrimStart(inner) == inner;
    assert Text.TrimStart(line) == inner;
    Text.TrimOfTrimmed(inner);
    assert Text.Trim(line) == inner;
    assert "Avg: " <= inner && inner[5..] == x;
  }

  /** Nor is the value trimmed: a second space after the colon makes the line
      unreadable. */
  lemma {:induction false} SpacedValueRejected(x: string)
    ensures PlainAvgOf("Avg:  " + x).None?
    ensures PlainStdevOf("STDEV:  " + x).None?
  {
    var a, s, v := "Avg:  " + x, "STDEV:  " + x, " " + x;
    assert "Avg: " <= a && a[5..] == v;
    assert "STDEV: " <= s && s[7..] == v;
    assert !Text.NoWhitespace(v) by { assert v[0] == ' '; }
  }

  // ---------------------------------------------------------------------------
  // prompt

  /** What `prompt` makes of the line read: nothing when it is blank, and
      otherwise the line without the whitespace (and line break) around it. */
  function PromptAnswer(input: string): (r: Option<string>)
    ensures r.None? <==> Text.AllWhitespace(input)
    ensures r.Some? ==>
              |r.value| > 0 && !Text.IsWhitespace(r.value[0]) && !Text.IsWhitespace(r.value[|r.value| - 1])
    ensures r.Some? ==>
              exists i, j :: (0 <= i <= j <= |input| && r.value == input[i..j]
                                && Text.AllWhitespace(input[..i]) && Text.AllWhitespace(input[j..]))
  {
    Text.TrimEnds(input);
    Text.TrimIsSlice(input);
    var trimmed := Text.Trim(input);
    if |trimmed| == 0 then None else Some(trimmed)
  }
}
