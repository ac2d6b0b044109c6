/** `analyzeClickbaitAndFluff`: a free-text analysis, its conversion to JSON
    by a second request, and the fail-closed check of the JSON's fields. */
module StructuredExtractor {
  import opened Wrappers
  import opened Text
  import opened Outcomes
  import opened StreamDecoder
  import opened Generation
  import opened Segmenter

  const RequiredFields: seq<string> :=
    ["clickbaitScore", "contentValue", "fluffPercentage", "keyIssues", "skipSections", "verdict"]

  /** `fields.filter(field => !(field in object))` */
  function MissingFrom(fields: seq<string>, keys: set<string>): (missing: seq<string>)
    ensures |missing| <= |fields|
    ensures forall f :: f in missing <==> f in fields && f !in keys
  {
    if fields == [] then []
    else (if fields[0] in keys then [] else [fields[0]]) + MissingFrom(fields[1..], keys)
  }

  function MissingFields(keys: set<string>): seq<string> {
    MissingFrom(RequiredFields, keys)
  }

  /** The structured value is accepted only when it is an object holding all
      six required fields, and is then kept as it is; in every other case the
      analysis fails, with no partial result. */
  function Validate(parsed: Parsed): (r: Result<Parsed, Error>)
    ensures r.Ok? <==> parsed.Object? && forall f :: f in RequiredFields ==> f in parsed.keys
    ensures r.Ok? ==> r.value == parsed
    ensures r.Err? ==> r.error == NoStructuredData
  {
    match parsed
    case Object(keys) =>
      if |MissingFields(keys)| == 0 then Ok(parsed)
      else assert MissingFields(keys)[0] in MissingFields(keys); Err(NoStructuredData)
    case _ => Err(NoStructuredData)
  }

  /** An object missing only `verdict` is refused, and `verdict` is the one
      missing field reported. */
  lemma MissingVerdict(keys: set<string>)
    requires keys == {"clickbaitScore", "contentValue", "fluffPercentage", "keyIssues", "skipSections"}
    ensures MissingFields(keys) == ["verdict"]
    ensures Validate(Object(keys)) == Err(NoStructuredData)
  {
    var fields := RequiredFields;
    assert fields[6..] == [];
    assert MissingFrom(fields[5..], keys) == ["verdict"] by { assert fields[5..][1..] == fields[6..]; }
    assert MissingFrom(fields[4..], keys) == ["verdict"] by { assert fields[4..][1..] == fields[5..]; }
    assert MissingFrom(fields[3..], keys) == ["verdict"] by { assert fields[3..][1..] == fields[4..]; }
    assert MissingFrom(fields[2..], keys) == ["verdict"] by { assert fields[2..][1..] == fields[3..]; }
    assert MissingFrom(fields[1..], keys) == ["verdict"] by { assert fields[1..][1..] == fields[2..]; }
  }

  datatype VideoData = VideoData(title: string, description: string)

  /** The first request: the whole transcript, for a short free-text analysis. */
  function AnalysisRequest(video: VideoData, transcript: seq<Segment>): Request {
    Request(GenerateUrl, "phi4", ContentAnalysis(video.title, video.description, TranscriptText(transcript)), 0.7, 512, false)
  }

  /** The second request: the analysis, to be turned into the JSON object. */
  function StructuringRequest(analysis: string): Request {
    Request(GenerateUrl, "llama3.3", Structuring(analysis), 0.1, 1024, true)
  }

  /** What `analyzeClickbaitAndFluff` returns or throws. Neither response's
      status is looked at; the first body is used as it arrives. */
  function ContentQualityOf(video: VideoData, transcript: seq<Segment>, send: Sender,
                            parseLine: string -> Line, parseJson: string -> Parsed): Result<AnalysisResult, Error>
  {
    match send(AnalysisRequest(video, transcript))
    case Err(e) => Err(e)
    case Ok(initialAnalysis) =>
      var analysis := initialAnalysis.body;
      match send(StructuringRequest(analysis))
      case Err(e) => Err(e)
      case Ok(structuredAnalysis) =>
        match StructuredText(Split(structuredAnalysis.body, '\n'), parseLine)
        case Err(e) => Err(e)
        case Ok(combined) =>
          match Validate(parseJson(combined))
          case Err(e) => Err(e)
          case Ok(structured) => Ok(ContentQuality(analysis, structured))
  }

  method AnalyzeClickbaitAndFluff(video: VideoData, transcript: seq<Segment>, send: Sender,
                                  parseLine: string -> Line, parseJson: string -> Parsed)
    returns (r: Result<AnalysisResult, Error>)
    ensures r == ContentQualityOf(video, transcript, send, parseLine, parseJson)
  {
    var initialAnalysis := send(AnalysisRequest(video, transcript));
    if initialAnalysis.Err? {
      return Err(initialAnalysis.error);
    }
    var analysisResponse := initialAnalysis.value.body;
    var structuredAnalysis := send(StructuringRequest(analysisResponse));
    if structuredAnalysis.Err? {
      return Err(structuredAnalysis.error);
    }
    var lines := Split(structuredAnalysis.value.body, '\n');
    var combinedResponse := DecodeStructuredLines(lines, parseLine);
    if combinedResponse.Err? {
      return Err(combinedResponse.error);
    }
    var structuredData := Validate(parseJson(combinedResponse.value));
    if structuredData.Err? {
      return Err(structuredData.error);
    }
    return Ok(ContentQuality(analysisResponse, structuredData.value));
  }

  /** Fail-closed: whatever is returned is a content-quality result whose
      structured part is an object holding all six required fields. */
  lemma ContentQualityFailsClosed(video: VideoData, transcript: seq<Segment>, send: Sender,
                                  parseLine: string -> Line, parseJson: string -> Parsed)
    ensures var r := ContentQualityOf(video, transcript, send, parseLine, parseJson);
      r.Ok? ==> && r.value.ContentQuality?
                && r.value.structured.Object?
                && forall f :: f in RequiredFields ==> f in r.value.structured.keys
  {
  }

  /** Once both requests answer and the stream decodes, the analysis succeeds
      exactly when the decoded text parses to an object holding all six
      fields; the result then carries the first request's raw body and that
      object unchanged. */
  lemma ContentQualitySucceeds(video: VideoData, transcript: seq<Segment>, send: Sender,
                               parseLine: string -> Line, parseJson: string -> Parsed,
                               first: HttpResponse, second: HttpResponse, combined: string)
    requires send(AnalysisRequest(video, transcript)) == Ok(first)
    requires send(StructuringRequest(first.body)) == Ok(second)
    requires StructuredText(Split(second.body, '\n'), parseLine) == Ok(combined)
    ensures var r := ContentQualityOf(video, transcript, send, parseLine, parseJson);
      && (r.Ok? <==> parseJson(combined).Object? && forall f :: f in RequiredFields ==> f in parseJson(combined).keys)
      && (r.Ok? ==> r.value == ContentQuality(first.body, parseJson(combined)))
      && (r.Err? ==> r.error == NoStructuredData)
  {
  }

  /** Neither request's status is checked: two services that answer every
      request with the same bodies, whatever their statuses, give the same
      outcome. */
  lemma StatusNotChecked(video: VideoData, transcript: seq<Segment>, send: Sender, send': Sender,
                         parseLine: string -> Line, parseJson: string -> Parsed)
    requires forall q :: send'(q).Ok? == send(q).Ok?
    requires forall q :: send(q).Ok? ==> send'(q).value.body == send(q).value.body
    requires forall q :: send(q).Err? ==> send'(q) == send(q)
    ensures ContentQualityOf(video, transcript, send', parseLine, parseJson)
         == ContentQualityOf(video, transcript, send, parseLine, parseJson)
  {
  }
}
