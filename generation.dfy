/** `generateSummary`: one request to the generation service, whose body is
    decoded by the lenient stream decoder. */
module Generation {
  import opened Wrappers
  import opened Text
  import opened Outcomes
  import opened StreamDecoder

  const BaseUrl := "http://localhost:11434"
  const GenerateUrl := BaseUrl + "/api/generate"

  /** What a summary is asked for: one chapter, by title, or the whole video. */
  datatype Instruction = ChapterInstruction(title: string) | FullSummaryInstruction

  /** A prompt, by what it embeds; the wording around it is left open. */
  datatype Prompt =
    | Summarize(instruction: Instruction, text: string)
    | ContentAnalysis(title: string, description: string, transcriptText: string)
    | Structuring(analysis: string)

  /** The JSON body of a POST: `format: "json"` is sent when `jsonFormat`. */
  datatype Request = Request(url: string, model: string, prompt: Prompt, temperature: real, numPredict: nat, jsonFormat: bool)

  datatype HttpResponse = HttpResponse(ok: bool, statusText: string, body: string)

  /** `fetch` together with reading the body as text: a response, or the
      rejection of the call. */
  type Sender = Request -> Result<HttpResponse, Error>

  function SummaryRequest(instruction: Instruction, text: string): Request {
    Request(GenerateUrl, "phi4", Summarize(instruction, text), 0.7, 1024, false)
  }

  /** The lines `generateSummary` decodes: the trimmed body split at '\n'. */
  function BodyLines(body: string): seq<string> {
    Split(Trim(body), '\n')
  }

  /** What `generateSummary(text, prompt)` returns or throws. */
  function SummaryOf(send: Sender, parse: string -> Line, text: string, instruction: Instruction): Result<string, Error> {
    match send(SummaryRequest(instruction, text))
    case Err(e) => Err(e)
    case Ok(response) =>
      if !response.ok then Err(HttpFailure(response.statusText))
      else Ok(SummaryText(BodyLines(response.body), parse))
  }

  /** `generateSummary`: fails only when the call is rejected or the status is
      not ok; once the body arrives, nothing in it makes the call fail. */
  method GenerateSummary(text: string, instruction: Instruction, send: Sender, parse: string -> Line)
    returns (r: Result<string, Error>)
    ensures r == SummaryOf(send, parse, text, instruction)
    ensures send(SummaryRequest(instruction, text)).Err? ==> r == Err(send(SummaryRequest(instruction, text)).error)
    ensures send(SummaryRequest(instruction, text)).Ok? ==>
      var response := send(SummaryRequest(instruction, text)).value;
      && (!response.ok ==> r == Err(HttpFailure(response.statusText)))
      && (response.ok ==> r == Ok(SummaryText(BodyLines(response.body), parse)))
  {
    var response := send(SummaryRequest(instruction, text));
    if response.Err? {
      return Err(response.error);
    }
    if !response.value.ok {
      return Err(HttpFailure(response.value.statusText));
    }
    var lines := BodyLines(response.value.body);
    var fullResponse := DecodeSummaryLines(lines, parse);
    return Ok(fullResponse);
  }
}
