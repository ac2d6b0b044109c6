/** The two decoders of the generation service's line-per-object stream: the
    lenient one of `generateSummary` and the strict one of
    `analyzeClickbaitAndFluff`. */
module StreamDecoder {
  import opened Wrappers
  import opened Text
  import opened Outcomes

  /** One line after `JSON.parse`. `Malformed`: the parse threw, or gave
      `null`, on which reading a field throws as well. Any other value is an
      `Obj`; a value that is not an object has no fields and reads as
      `Obj(None, false, None)`. */
  datatype Line = Malformed | Obj(response: Option<string>, done: bool, error: Option<string>)

  /** A string field is truthy when present and not empty. */
  predicate Truthy(field: Option<string>) {
    field.Some? && field.value != ""
  }

  predicate IsDone(line: Line) {
    line.Obj? && line.done
  }

  /** What `generateSummary` appends for a line: its truthy `response`. */
  function Fragment(line: Line): string {
    if line.Obj? && Truthy(line.response) then line.response.value else ""
  }

  // ---------------------------------------------------------------------
  // The decoder of `generateSummary`
  // ---------------------------------------------------------------------

  /** The text `generateSummary` decodes from the lines of a trimmed body:
      each parsed line adds its fragment, a malformed line is skipped, and the
      first line with a truthy `done` ends the text after adding its own
      fragment. An `error` field plays no part: the Error thrown for it is
      caught by the same per-line `catch` that skips malformed lines. */
  function SummaryText(lines: seq<string>, parse: string -> Line): string {
    if lines == [] then ""
    else
      var line := parse(lines[0]);
      if line.Malformed? then SummaryText(lines[1..], parse)
      else Fragment(line) + if line.done then "" else SummaryText(lines[1..], parse)
  }

  /** The loop of `generateSummary`. */
  method DecodeSummaryLines(lines: seq<string>, parse: string -> Line) returns (fullResponse: string)
    ensures fullResponse == SummaryText(lines, parse)
  {
    fullResponse := "";
    for i := 0 to |lines|
      invariant fullResponse + SummaryText(lines[i..], parse) == SummaryText(lines, parse)
    {
      assert lines[i..][1..] == lines[i + 1..];
      match parse(lines[i])
      case Malformed =>
        // JSON.parse threw: the per-line catch logs the line and goes on
      case Obj(response, done, error) =>
        if Truthy(response) {
          fullResponse := fullResponse + response.value;
        }
        if done {
          break;
        }
        if Truthy(error) {
          // the Error thrown here is caught by the same per-line catch
        }
    }
  }

  /** How many lines the summary decoder reads: up to and including the first
      line with a truthy `done`, or all of them. */
  function LinesRead(lines: seq<string>, parse: string -> Line): (n: nat)
    ensures n <= |lines|
    ensures n < |lines| ==> n > 0 && IsDone(parse(lines[n - 1]))
    ensures forall j :: 0 <= j < n - 1 ==> !IsDone(parse(lines[j]))
  {
    if lines == [] then 0
    else if IsDone(parse(lines[0])) then 1
    else 1 + LinesRead(lines[1..], parse)
  }

  /** The fragments of all lines, in order. */
  function Fragments(lines: seq<string>, parse: string -> Line): string {
    if lines == [] then "" else Fragment(parse(lines[0])) + Fragments(lines[1..], parse)
  }

  /** The summary text is the concatenation, in line order, of the truthy
      `response` fields of the lines up to and including the first line with a
      truthy `done`. */
  lemma {:induction false} SummaryIsFragmentsRead(lines: seq<string>, parse: string -> Line)
    ensures SummaryText(lines, parse) == Fragments(lines[..LinesRead(lines, parse)], parse)
  {
    if lines != [] {
      var n := LinesRead(lines, parse);
      var read := lines[..n];
      assert read[0] == lines[0];
      if IsDone(parse(lines[0])) {
        assert read[1..] == [];
      } else {
        SummaryIsFragmentsRead(lines[1..], parse);
        assert read[1..] == lines[1..][..n - 1];
      }
    }
  }

  /** No line after the first `done` line contributes. */
  lemma {:induction false} SummaryIgnoresAfterDone(lines: seq<string>, later: seq<string>, parse: string -> Line, k: nat)
    requires k < |lines| && IsDone(parse(lines[k]))
    ensures SummaryText(lines + later, parse) == SummaryText(lines, parse)
  {
    assert (lines + later)[0] == lines[0];
    if !IsDone(parse(lines[0])) {
      assert (lines + later)[1..] == lines[1..] + later;
      SummaryIgnoresAfterDone(lines[1..], later, parse, k - 1);
    }
  }

  /** A malformed line is skipped: the text is what the other lines give. */
  lemma {:induction false} SummarySkipsMalformed(lines: seq<string>, parse: string -> Line, k: nat)
    requires k < |lines| && parse(lines[k]).Malformed?
    ensures SummaryText(lines, parse) == SummaryText(lines[..k] + lines[k + 1..], parse)
  {
    if k > 0 {
      var rest := lines[..k] + lines[k + 1..];
      assert rest[0] == lines[0];
      assert rest[1..] == lines[1..][..k - 1] + lines[1..][k..];
      SummarySkipsMalformed(lines[1..], parse, k - 1);
    } else {
      assert lines[..0] + lines[1..] == lines[1..];
    }
  }

  /** The parse of a line with its `error` field dropped. */
  function WithoutError(parse: string -> Line): string -> Line {
    line => match parse(line)
            case Malformed => Malformed
            case Obj(response, done, _) => Obj(response, done, None)
  }

  /** An in-band `error` changes nothing: the line's fragment is still
      appended, and decoding goes on as if the field were absent. */
  lemma {:induction false} SummaryIgnoresErrors(lines: seq<string>, parse: string -> Line)
    ensures SummaryText(lines, parse) == SummaryText(lines, WithoutError(parse))
  {
    if lines != [] {
      SummaryIgnoresErrors(lines[1..], parse);
    }
  }

  // ---------------------------------------------------------------------
  // The decoder of `analyzeClickbaitAndFluff`
  // ---------------------------------------------------------------------

  /** `combinedResponse += jsonData.response`: an absent field appends the
      text "undefined". */
  function ResponseText(response: Option<string>): string {
    match response
    case Some(s) => s
    case None => "undefined"
  }

  /** A decode result with `prefix` in front of its text. */
  function Prefixed(prefix: string, r: Result<string, Error>): Result<string, Error> {
    match r
    case Ok(text) => Ok(prefix + text)
    case Err(e) => Err(e)
  }

  lemma PrefixedNothing(r: Result<string, Error>)
    ensures Prefixed("", r) == r
  {
    if r.Ok? {
      assert "" + r.value == r.value;
    }
  }

  lemma PrefixedTwice(a: string, b: string, r: Result<string, Error>)
    ensures Prefixed(a, Prefixed(b, r)) == Prefixed(a + b, r)
  {
    if r.Ok? {
      assert a + (b + r.value) == (a + b) + r.value;
    }
  }

  /** The text the structured decoder combines from the lines of the body:
      blank lines are skipped, a malformed line ends the whole operation with
      an error, the first line whose `done` is `true` ends the text without
      adding its own `response`, and every other line adds its `response`. */
  function StructuredText(lines: seq<string>, parse: string -> Line): Result<string, Error> {
    if lines == [] then Ok("")
    else if IsBlank(lines[0]) then StructuredText(lines[1..], parse)
    else
      match parse(lines[0])
      case Malformed => Err(InvalidJsonLine(lines[0]))
      case Obj(response, done, _) =>
        if done then Ok("") else Prefixed(ResponseText(response), StructuredText(lines[1..], parse))
  }

  /** The loop of `analyzeClickbaitAndFluff`. */
  method DecodeStructuredLines(lines: seq<string>, parse: string -> Line) returns (r: Result<string, Error>)
    ensures r == StructuredText(lines, parse)
  {
    var combinedResponse := "";
    assert lines[0..] == lines;
    PrefixedNothing(StructuredText(lines, parse));
    for i := 0 to |lines|
      invariant StructuredText(lines, parse) == Prefixed(combinedResponse, StructuredText(lines[i..], parse))
    {
      var line := lines[i];
      assert lines[i..][0] == line;
      assert lines[i..][1..] == lines[i + 1..];
      if IsBlank(line) {
        continue;
      }
      match parse(line)
      case Malformed =>
        // JSON.parse throws; the outer catch rethrows
        return Err(InvalidJsonLine(line));
      case Obj(response, done, _) =>
        if done {
          assert combinedResponse + "" == combinedResponse;
          break;
        }
        PrefixedTwice(combinedResponse, ResponseText(response), StructuredText(lines[i + 1..], parse));
        combinedResponse := combinedResponse + ResponseText(response);
    }
    assert combinedResponse + "" == combinedResponse;
    r := Ok(combinedResponse);
  }

  /** Every non-blank line parses to an object without `done`. */
  predicate Continues(lines: seq<string>, parse: string -> Line) {
    forall j :: 0 <= j < |lines| && !IsBlank(lines[j]) ==> parse(lines[j]).Obj? && !parse(lines[j]).done
  }

  /** The `response` texts of the non-blank lines, in order. */
  function Responses(lines: seq<string>, parse: string -> Line): string
    requires Continues(lines, parse)
  {
    if lines == [] then ""
    else if IsBlank(lines[0]) then Responses(lines[1..], parse)
    else ResponseText(parse(lines[0]).response) + Responses(lines[1..], parse)
  }

  /** A stream without a `done` or malformed line decodes to the `response`
      texts of its non-blank lines, "undefined" for each absent one. */
  lemma {:induction false} StructuredWithoutStop(lines: seq<string>, parse: string -> Line)
    requires Continues(lines, parse)
    ensures StructuredText(lines, parse) == Ok(Responses(lines, parse))
  {
    if lines != [] {
      assert Continues(lines[1..], parse) by {
        forall j | 0 <= j < |lines| - 1 && !IsBlank(lines[1..][j])
          ensures parse(lines[1..][j]).Obj? && !parse(lines[1..][j]).done
        {
          assert lines[1..][j] == lines[j + 1];
        }
      }
      StructuredWithoutStop(lines[1..], parse);
    }
  }

  /** Decoding stops at the first non-blank line whose `done` is `true`,
      without adding its `response`; nothing after it is read. */
  lemma {:induction false} StructuredStopsAtDone(lines: seq<string>, doneLine: string, later: seq<string>, parse: string -> Line)
    requires Continues(lines, parse)
    requires !IsBlank(doneLine) && IsDone(parse(doneLine))
    ensures StructuredText(lines + [doneLine] + later, parse) == Ok(Responses(lines, parse))
  {
    var all := lines + [doneLine] + later;
    if lines == [] {
      assert all[0] == doneLine;
    } else {
      assert all[0] == lines[0];
      assert all[1..] == lines[1..] + [doneLine] + later;
      assert Continues(lines[1..], parse) by {
        forall j | 0 <= j < |lines| - 1 && !IsBlank(lines[1..][j])
          ensures parse(lines[1..][j]).Obj? && !parse(lines[1..][j]).done
        {
          assert lines[1..][j] == lines[j + 1];
        }
      }
      StructuredStopsAtDone(lines[1..], doneLine, later, parse);
    }
  }

  /** A malformed line reached before any `done` line makes the whole decode
      fail, whatever came before it and whatever follows. */
  lemma {:induction false} StructuredFailsOnMalformed(lines: seq<string>, bad: string, later: seq<string>, parse: string -> Line)
    requires Continues(lines, parse)
    requires !IsBlank(bad) && parse(bad).Malformed?
    ensures StructuredText(lines + [bad] + later, parse) == Err(InvalidJsonLine(bad))
  {
    var all := lines + [bad] + later;
    if lines == [] {
      assert all[0] == bad;
    } else {
      assert all[0] == lines[0];
      assert all[1..] == lines[1..] + [bad] + later;
      assert Continues(lines[1..], parse) by {
        forall j | 0 <= j < |lines| - 1 && !IsBlank(lines[1..][j])
          ensures parse(lines[1..][j]).Obj? && !parse(lines[1..][j]).done
        {
          assert lines[1..][j] == lines[j + 1];
        }
      }
      StructuredFailsOnMalformed(lines[1..], bad, later, parse);
    }
  }

  // ---------------------------------------------------------------------
  // The two decoders side by side
  // ---------------------------------------------------------------------

  /** The fragment of the first `done` line, or "" when there is none. */
  function DoneFragment(lines: seq<string>, parse: string -> Line): string {
    if lines == [] then ""
    else if IsDone(parse(lines[0])) then Fragment(parse(lines[0]))
    else DoneFragment(lines[1..], parse)
  }

  /** Every line is non-blank and parses to an object with a `response`. */
  predicate AllRespond(lines: seq<string>, parse: string -> Line) {
    forall j :: 0 <= j < |lines| ==> !IsBlank(lines[j]) && parse(lines[j]).Obj? && parse(lines[j]).response.Some?
  }

  /** On a stream of well-formed lines that all carry a `response`, both
      decoders read the same fragments up to the first `done` line; they differ
      only in that the summary decoder keeps the `done` line's own fragment. */
  lemma {:induction false} DecodersDifferByDoneFragment(lines: seq<string>, parse: string -> Line)
    requires AllRespond(lines, parse)
    ensures StructuredText(lines, parse).Ok?
    ensures SummaryText(lines, parse) == StructuredText(lines, parse).value + DoneFragment(lines, parse)
  {
    if lines != [] {
      assert AllRespond(lines[1..], parse) by {
        forall j | 0 <= j < |lines| - 1
          ensures !IsBlank(lines[1..][j]) && parse(lines[1..][j]).Obj? && parse(lines[1..][j]).response.Some?
        {
          assert lines[1..][j] == lines[j + 1];
        }
      }
      DecodersDifferByDoneFragment(lines[1..], parse);
    }
  }
}
