# YouTube analyzer content script — a Dafny model of its core

The content script `contentScript.js` analyses a YouTube video with a local
generation service. It sends the service HTTP requests and decodes the replies,
which stream as one JSON object per line. This project models the script's
processing core and proves properties of that model:

- **Clock text to seconds.** `timeToSeconds` turns text such as `"1:02:03"`
  into seconds (module `TimeCodec`).
- **Chapter windows and buckets.** Each chapter's window ends where the next
  chapter starts, and the last one is open-ended. Each chapter gets the
  transcript segments inside its window, and their text is joined with
  spaces (module `Segmenter`).
- **The two stream decoders** (module `StreamDecoder`):
  - The lenient one in `generateSummary`. It trims the body and splits it at
    `'\n'`. It appends every truthy `response`, stops at a truthy `done`, and
    skips a line that does not parse. An in-band `error` is ignored: the
    line's `response` is appended first, and the per-line `catch` catches the
    `Error` thrown for it.
  - The strict one in `analyzeClickbaitAndFluff`. It splits the body without
    trimming and skips blank lines. A line that does not parse fails the
    whole analysis. It stops at `done === true` and otherwise appends
    `response`; an absent `response` appends the text `"undefined"`.
- **`generateSummary`** (module `Generation`). One request, whose failure
  (a rejected call, or a status that is not ok) is passed on. A delivered
  body is always decoded to a text.
- **`analyzeClickbaitAndFluff`** (module `StructuredExtractor`). It makes two
  requests, and neither status is checked. The `analysis` it returns is the
  first request's raw body. The second request's decoded stream is parsed as
  JSON. The result is fail-closed: it is accepted only when the parse gives an
  object holding all six required fields (`clickbaitScore`, `contentValue`,
  `fluffPercentage`, `keyIssues`, `skipSections`, `verdict`). In every other
  case the analysis fails with no partial result.
- **`generateChapterSummaries` and `generateFullSummary`** (module `Pipeline`).
  - The first windows the chapter array in place. It then requests one summary
    per chapter, in order, and leaves out a chapter whose request fails.
  - The second summarises the whole transcript and passes a failure on.
  - In this version of the script, `initializeAnalysis` (`contentScript.js:797`)
    calls only `analyzeClickbaitAndFluff`. Neither summary operation has a
    caller.

The modules follow the script's structure. `Wrappers` holds `Option` and
`Result`. `Text` holds the JavaScript string operations the core relies on:
`trim` with its white-space set, `split` on one character, and `join`, with
their inverse laws. `Outcomes` holds the error kinds and the three result
shapes.

The outside world enters as function parameters:

- `fetch`, together with reading the body as text, is `send: Request ->
  Result<HttpResponse, Error>`. A `Request` records the URL, the model, the
  prompt, the temperature, `num_predict` and whether `format: "json"` is sent.
- `JSON.parse` of one stream line is `parse: string -> Line`.
- `JSON.parse` of the combined text is `parseJson: string -> Parsed`.

Both parses are left to these parameters.

Behaviour of the code that the model keeps as written:

- An in-band `error` is ignored: the line's `response` is appended first
  (`contentScript.js:101-103`), and the `Error` thrown at `:110` is caught by
  the per-line `catch` at `:112`, so decoding goes on
  (`StreamDecoder.SummaryIgnoresErrors`).
- The structured decoder never looks at `error`.
- The window end is `chapters[i + 1]?.timestamp || Infinity`. A following
  chapter at timestamp 0 is falsy, so it leaves the window open-ended
  (`Segmenter.EndAt`). When the chapters are in strictly ascending order,
  only the first can start at 0, so the windows meet and the buckets tile the
  transcript from the first chapter's start on; a segment earlier than that
  start is in no bucket and is never summarised (`Segmenter.WindowsMeet`,
  `Segmenter.BucketsCover`). When two
  chapters both start at 0, which is sorted but not strictly, the first
  window is open-ended too. Every segment then lands in both buckets and is
  summarised twice (`Segmenter.SharedStartOverlaps`).

## Model

| member | source | states |
|---|---|---|
| Text.Split | contentScript.js:177 | `split` on one character always yields at least one piece |
| Text.JoinSplit | contentScript.js:177 | joining the pieces of `split(sep)` with `sep` gives back the original text |
| Text.SplitJoin | contentScript.js:177 | splitting a join of separator-free pieces gives back those pieces |
| Text.SplitPiecesFree | contentScript.js:177 | no piece produced by `split(sep)` contains `sep` |
| Text.SplitWithoutSeparator | contentScript.js:177 | a text without the separator splits into itself alone |
| Text.SplitAppend | contentScript.js:177 | appending a separator and a separator-free piece to a text appends exactly that piece to its split |
| Text.Trim | contentScript.js:94 | `trim()` never lengthens the text; Text.TrimCuts and Text.TrimEmpty give what it keeps |
| Text.TrimCuts | contentScript.js:94 | `trim()` is the slice left after cutting white space from both ends: every character before and after the slice is white space |
| Text.TrimStartCuts | contentScript.js:94 | the start-trimmed text is a suffix of the input; only white space is removed; it does not start with white space |
| Text.TrimEndCuts | contentScript.js:94 | the end-trimmed text is a prefix of the input; only white space is removed; it does not end with white space |
| Text.TrimEmpty | contentScript.js:573 | `line.trim()` is empty exactly when every character is white space; a non-empty trim has no white space at either end |
| Text.Join | contentScript.js:26 | `join` of no pieces is empty, of one piece is that piece, and always starts with the first piece |
| Text.JoinConcat | contentScript.js:26 | joining two non-empty lists puts exactly one separator between their joins |
| TimeCodec.NumberOf | contentScript.js:177 | `Number` of a blank group is 0 |
| TimeCodec.TimeToSeconds | contentScript.js:176-187 | the loop's result equals the clock value of the `:`-separated groups, and equals the reference reading in which group k of n weighs 60^(n-1-k) and a group that is not a number weighs 0 |
| TimeCodec.PopGroups | contentScript.js:178-185 | popping groups from the right with a multiplier that grows by 60 yields both the left-to-right clock value and the weighted sum |
| TimeCodec.ClockValueIsWeightedSum | contentScript.js:181-184 | the Horner reading and the positional 60^k reading agree on every group list |
| TimeCodec.WeightedSumAppend | contentScript.js:181-184 | one more group on the right multiplies the earlier value by 60 and adds the group |
| TimeCodec.GroupsAppend | contentScript.js:177 | appending `":" + group` appends that group's `Number` to the parsed groups |
| TimeCodec.ClockAppendGroup | contentScript.js:176-187 | appending a group multiplies the earlier seconds by 60 and adds the group's value; a group that is not a number adds 0 instead of failing |
| TimeCodec.SingleGroup | contentScript.js:176-187 | a text without `:` is one group worth its value in seconds |
| TimeCodec.TwoDigits | contentScript.js:177 | a zero-padded group such as `"09"` is worth its digit |
| TimeCodec.OneDigit | contentScript.js:177 | a one-digit group is worth its digit |
| TimeCodec.HoursMinutesSeconds | contentScript.js:176-187 | `"1:02:03"` is 3723 seconds |
| TimeCodec.MinutesSeconds | contentScript.js:176-187 | `"0:09"` is 9 seconds |
| TimeCodec.EmptyClock | contentScript.js:176-187 | the empty text is 0 seconds |
| TimeCodec.NonNumericGroup | contentScript.js:176-187 | `"ab:09"` is 9 seconds: the `NaN` group counts as 0 |
| Segmenter.EndAt | contentScript.js:16 | `next || Infinity`: the end is `Infinity` exactly when the next timestamp is 0, and otherwise that timestamp |
| Segmenter.Windowed | contentScript.js:15-17 | windowing keeps the number of chapters |
| Segmenter.AssignEndTimestamps | contentScript.js:15-17 | the loop sets, in place, every chapter's end to the windowed value and changes nothing else in the array |
| Segmenter.WindowedAt | contentScript.js:15-17 | chapter i keeps every field except `endTimestamp`, which becomes the next chapter's timestamp, or `Infinity` when there is none or it is 0 |
| Segmenter.WindowsMeet | contentScript.js:15-17 | a chapter's window ends where the next (non-zero) chapter starts; the last window is open-ended |
| Segmenter.WindowedIdempotent | contentScript.js:15-17 | windowing an already windowed list changes nothing |
| Segmenter.Range | contentScript.js:21-24 | the filter never yields more segments than the transcript has |
| Segmenter.RangeMembers | contentScript.js:21-24 | a segment is in a chapter's bucket exactly when it is in the transcript and inside the chapter's window |
| Segmenter.RangeAppend | contentScript.js:21-24 | the filter keeps transcript order: the bucket of a concatenation is the concatenation of the buckets |
| Segmenter.RangeOne | contentScript.js:21-24 | a single segment is kept exactly when it lies in the window |
| Segmenter.EmptyTranscript | contentScript.js:21-26 | an empty transcript gives every chapter an empty bucket and empty text |
| Segmenter.RangeAllLater | contentScript.js:21-24 | when every segment is at or after b, moving a window's start from a up to b changes nothing, and [a, b) is empty |
| Segmenter.RangeSplit | contentScript.js:21-24 | on a sorted transcript, window [a, end) is window [a, b) followed by window [b, end) |
| Segmenter.BucketsCover | contentScript.js:15-26 | for strictly ascending chapters over a sorted transcript, the buckets taken in chapter order are exactly the segments from the first chapter on: none lost, none repeated, order kept |
| Segmenter.Texts | contentScript.js:26 | `.map(segment => segment.text)`: one entry per segment, entry i being segment i's text |
| Segmenter.TextsAppend | contentScript.js:26 | the texts of two runs of segments are the texts of each, concatenated |
| Segmenter.TranscriptText | contentScript.js:26 | the joined text of no segments is empty, of one segment is its text, and starts with the first segment's text |
| Segmenter.TranscriptTextAppend | contentScript.js:26 | the text of two non-empty runs of segments is their texts joined by one space |
| Segmenter.TranscriptTextSplits | contentScript.js:26 | when no segment text holds a space, splitting the joined text at spaces gives back the segment texts in order |
| Segmenter.ChapterTextGrows | contentScript.js:21-26 | one more segment adds its text to a chapter's text exactly when it lies in the window: after one space, or alone when the bucket was empty |
| Segmenter.RangeEverything | contentScript.js:21-24 | an open-ended window from time 0 holds the whole transcript |
| Segmenter.SharedStartOverlaps | contentScript.js:15-24 | two chapters that both start at 0 both get open-ended windows, so the buckets hold every segment twice |
| StreamDecoder.DecodeSummaryLines | contentScript.js:93-117 | the per-line loop computes the reference summary text of the lines |
| StreamDecoder.LinesRead | contentScript.js:98-108 | the decoder reads the lines up to and including the first `done` line and no further |
| StreamDecoder.SummaryIsFragmentsRead | contentScript.js:98-115 | the summary is the concatenation, in order, of the truthy `response`s of the lines read |
| StreamDecoder.SummaryIgnoresAfterDone | contentScript.js:106-108 | lines after a `done` line contribute nothing |
| StreamDecoder.SummarySkipsMalformed | contentScript.js:99-114 | a line that does not parse is dropped and the rest decode as if it were absent |
| StreamDecoder.SummaryIgnoresErrors | contentScript.js:109-114 | an in-band `error` changes nothing: the text is the same as for the lines without their `error` |
| StreamDecoder.DecodeStructuredLines | contentScript.js:569-581 | the loop yields the reference result of the structured decode, failing on a malformed line |
| StreamDecoder.StructuredWithoutStop | contentScript.js:572-581 | blank lines are skipped; without a `done` or malformed line the result is all `response` texts in order |
| StreamDecoder.StructuredStopsAtDone | contentScript.js:576-578 | decoding stops at the first `done === true` line, whose `response` and every later line are ignored |
| StreamDecoder.StructuredFailsOnMalformed | contentScript.js:575 | a malformed line reached before `done` fails the decode with that line, whatever follows |
| StreamDecoder.DecodersDifferByDoneFragment | contentScript.js:98-581 | compares the summary loop (:98-108) with the structured loop (:572-581): on well-formed lines that all carry a `response`, the structured decode succeeds and the summary decode equals it plus the `done` line's own `response`, which only the summary loop appends before breaking |
| Generation.GenerateSummary | contentScript.js:71-117 | a rejected call passes its error on; a status that is not ok fails with the status text; an ok response always succeeds, with the decoded text of its trimmed body |
| StructuredExtractor.MissingFrom | contentScript.js:593 | a field is reported missing exactly when it is required and absent |
| StructuredExtractor.Validate | contentScript.js:586-608 | the value is accepted exactly when it is an object with all six fields, and is then kept unchanged; otherwise the failure is the missing-structured-data error |
| StructuredExtractor.MissingVerdict | contentScript.js:592-599 | an object lacking only `verdict` reports `["verdict"]` and is refused |
| StructuredExtractor.AnalyzeClickbaitAndFluff | contentScript.js:500-614 | the two requests, the strict decode, the parse and the check yield the reference content-quality outcome |
| StructuredExtractor.ContentQualityFailsClosed | contentScript.js:586-614 | any returned result is a content-quality result whose structured part is an object holding all six fields |
| StructuredExtractor.ContentQualitySucceeds | contentScript.js:530-614 | once both requests answer and the stream decodes, the analysis succeeds exactly when the parse has all six fields; `analysis` is then the first request's raw body and `structured` the parsed object |
| StructuredExtractor.StatusNotChecked | contentScript.js:502-565 | the outcome depends only on the bodies, never on either response's status |
| Pipeline.GenerateChapterSummaries | contentScript.js:11-49 | the chapters are windowed in place, and the summaries are those of the reference per-chapter fold over the windowed chapters |
| Pipeline.CollectAppend | contentScript.js:20-43 | the loop's collection keeps chapter order: collecting two runs of chapters is collecting each and concatenating |
| Pipeline.CollectAround | contentScript.js:20-43 | chapter k's items sit between the items of the chapters before it and those after it |
| Pipeline.CollectDrop | contentScript.js:20-43 | a chapter contributing no item can be removed without changing the collection |
| Pipeline.ItemForFails | contentScript.js:40-42 | a chapter whose summary fails contributes nothing |
| Pipeline.SummariesAppend | contentScript.js:20-43 | chapters are summarised independently: the summaries of two runs of chapters are the summaries of each, concatenated |
| Pipeline.SummariesOne | contentScript.js:28-42 | one chapter contributes its entry when its summary succeeds and nothing otherwise |
| Pipeline.FailingChapterDropped | contentScript.js:40-42 | a chapter whose summary fails is left out and the others' entries are unchanged |
| Pipeline.SucceedingChapterKept | contentScript.js:28-39 | a chapter whose summary succeeds contributes exactly one entry, with its title, raw time and summary, between those of the chapters before and after it |
| Pipeline.AllChaptersSucceed | contentScript.js:20-43 | when every chapter succeeds there is one entry per chapter, in chapter order, with its title and raw time |
| Pipeline.GenerateFullSummary | contentScript.js:51-69 | succeeds exactly when the whole-transcript summary does, with that summary; otherwise passes the same error on |

## Left out

- The DOM side is not modelled: rendering, waiting for page elements, page-change detection and the analysis lifecycle. The model covers only the data flow.
- Reading chapters and transcripts from the page is not part of this model. `extractChapters` and `getTranscript` call `timeToSeconds` at `contentScript.js:166` and `:245`. The transcript request `fetchAutoGeneratedTranscript` (`:189-212`) is not part of this model either; it reads times with `parseFloat`.
- `fetch` and `JSON.parse` are parameters. Any function from request to response, and any parse result, is allowed.
- The service is modelled as a function of the request, so identical requests always get identical answers. For example, two chapters with the same title and bucket text either both succeed or both fail. A service that answers the same request differently from call to call is not modelled.
- Header values and prompt wording are left open. A prompt records only what it embeds.
- Logging (`console.log`, `console.error`) has no effect on results and is not modelled.
- TimeCodec.NumberOf: a group is first stripped of JavaScript white space. The model then reads it as 0 when empty and as its decimal value when all digits. Anything else is `NaN`, which `|| 0` turns into 0. Signs, decimal points, exponents, `Infinity`, and the hexadecimal, octal and binary prefixes `0x`, `0o` and `0b` are not modelled, though `Number` accepts them. Clock text from the page does not use them.
- TimeCodec.TimeToSeconds: values are unbounded naturals, so JavaScript's floating-point rounding above 2^53 is not modelled.
- Segmenter.AssignEndTimestamps: chapters are values held in an array. Two array slots that refer to the same JavaScript object are not modelled.
- StreamDecoder.DecodeSummaryLines: stream fields are modelled as a string or absent (`response`, `error`) and as a boolean (`done`). Values of other JSON types, and truthiness other than that of strings and booleans, are not modelled.
- StreamDecoder.DecodeStructuredLines: a `response` that is present is taken as a string. A number or object would be converted to text by `+=`, which is not modelled. `Malformed` covers both a line that does not parse and one that parses to `null`.
- StructuredExtractor.Validate: the value is either an object with a set of keys or not an object. An array counts as an object whose keys are its indices and `length`, since `field in array` does not throw, so it never holds the six fields. Numbers, strings, booleans and `null` count as not objects, because `field in value` throws on them. Field values and their types are not checked, as in the source.
- The constructor's `MAX_RETRIES` and `RETRY_DELAY` are not modelled. They are never used.
- Which callers reach the summary operations is not modelled (see above).
