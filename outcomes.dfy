/** What the analyzer's operations return or throw. */
module Outcomes {

  /** The exceptions that leave an operation. */
  datatype Error =
    /** `fetch` itself rejected (the service could not be reached). */
    | FetchRejected(reason: string)
    /** `generateSummary` on a non-ok status: "Failed to generate summary: " + statusText. */
    | HttpFailure(statusText: string)
    /** `JSON.parse` threw on this line of the structured stream. */
    | InvalidJsonLine(line: string)
    /** "Failed to get valid structured data from model". */
    | NoStructuredData

  /** `JSON.parse` applied to the combined structured text: a parse failure,
      a value on which `field in value` throws (a number, string, boolean or
      null), or an object (arrays included) with the names of its keys. */
  datatype Parsed = Unparseable | NotObject | Object(keys: set<string>)

  /** One entry of the chapter summaries. */
  datatype SummaryItem = SummaryItem(chapter: string, timestamp: string, summary: string)

  /** The tagged results: `type` is 'chapter_summaries', 'full_summary' or
      'content_quality'. */
  datatype AnalysisResult =
    | ChapterSummaries(summaries: seq<SummaryItem>)
    | FullSummary(summary: string)
    | ContentQuality(analysis: string, structured: Parsed)
}
