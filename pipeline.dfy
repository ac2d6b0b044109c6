/** The two summary operations: per chapter, with each chapter's failure
    isolated, and over the whole transcript. */
module Pipeline {
  import opened Wrappers
  import opened Outcomes
  import opened StreamDecoder
  import opened Generation
  import opened Segmenter

  /** What one chapter adds to the summaries: its entry when its summary is
      generated, nothing when generating it throws. */
  function ItemFor(chapter: Chapter, transcript: seq<Segment>, send: Sender, parse: string -> Line): seq<SummaryItem> {
    match SummaryOf(send, parse, ChapterText(transcript, chapter), ChapterInstruction(chapter.title))
    case Ok(summary) => [SummaryItem(chapter.title, chapter.rawTime, summary)]
    case Err(_) => []
  }

  /** The items of the chapters, collected in chapter order. */
  function Collect(chapters: seq<Chapter>, item: Chapter -> seq<SummaryItem>): seq<SummaryItem> {
    if chapters == [] then []
    else Collect(chapters[..|chapters| - 1], item) + item(chapters[|chapters| - 1])
  }

  /** The summaries collected over windowed chapters, in chapter order. */
  function SummariesOf(chapters: seq<Chapter>, transcript: seq<Segment>, send: Sender, parse: string -> Line): seq<SummaryItem> {
    Collect(chapters, chapter => ItemFor(chapter, transcript, send, parse))
  }

  /** `generateChapterSummaries`: windows the chapters in place, then asks for
      one summary per chapter, in order, dropping a chapter whose request
      fails. It never fails itself. */
  method GenerateChapterSummaries(transcript: seq<Segment>, chapters: array<Chapter>, send: Sender, parse: string -> Line)
    returns (result: AnalysisResult)
    modifies chapters
    ensures chapters[..] == Windowed(old(chapters[..]))
    ensures result == ChapterSummaries(SummariesOf(chapters[..], transcript, send, parse))
  {
    var summaries: seq<SummaryItem> := [];
    AssignEndTimestamps(chapters);
    ghost var windowed := chapters[..];
    for i := 0 to chapters.Length
      invariant chapters[..] == windowed
      invariant summaries == SummariesOf(chapters[..i], transcript, send, parse)
    {
      var chapter := chapters[i];
      var chapterText := ChapterText(transcript, chapter);
      var summary := GenerateSummary(chapterText, ChapterInstruction(chapter.title), send, parse);
      assert chapters[..i + 1][..i] == chapters[..i];
      match summary
      case Ok(s) =>
        summaries := summaries + [SummaryItem(chapter.title, chapter.rawTime, s)];
      case Err(_) =>
        // the failure is logged and the chapter left out
    }
    assert chapters[..chapters.Length] == chapters[..];
    result := ChapterSummaries(summaries);
  }

  predicate Succeeds(chapter: Chapter, transcript: seq<Segment>, send: Sender, parse: string -> Line) {
    SummaryOf(send, parse, ChapterText(transcript, chapter), ChapterInstruction(chapter.title)).Ok?
  }

  lemma {:induction false} CollectAppend(a: seq<Chapter>, b: seq<Chapter>, item: Chapter -> seq<SummaryItem>)
    ensures Collect(a + b, item) == Collect(a, item) + Collect(b, item)
  {
    if b == [] {
      assert a + b == a;
    } else {
      var b' := b[..|b| - 1];
      CollectAppend(a, b', item);
      assert (a + b)[..|a + b| - 1] == a + b';
      assert (a + b)[|a + b| - 1] == b[|b| - 1];
    }
  }

  /** Chapter k's items sit between those of the chapters before it and those
      after it. */
  lemma CollectAround(chapters: seq<Chapter>, k: nat, item: Chapter -> seq<SummaryItem>)
    requires k < |chapters|
    ensures Collect(chapters, item) == Collect(chapters[..k], item) + item(chapters[k]) + Collect(chapters[k + 1..], item)
  {
    var before, chapter, after := chapters[..k], chapters[k], chapters[k + 1..];
    calc {
      Collect(chapters, item);
      { AroundIndex(chapters, k); }
      Collect(before + ([chapter] + after), item);
      { CollectAppend(before, [chapter] + after, item); }
      Collect(before, item) + Collect([chapter] + after, item);
      { CollectAppend([chapter], after, item); CollectOne(chapter, item); }
      Collect(before, item) + (item(chapter) + Collect(after, item));
    }
  }

  /** A chapter without items can be left out. */
  lemma CollectDrop(chapters: seq<Chapter>, k: nat, item: Chapter -> seq<SummaryItem>)
    requires k < |chapters| && item(chapters[k]) == []
    ensures Collect(chapters, item) == Collect(chapters[..k] + chapters[k + 1..], item)
  {
    CollectAround(chapters, k, item);
    CollectAppend(chapters[..k], chapters[k + 1..], item);
  }

  lemma AroundIndex<T>(xs: seq<T>, k: nat)
    requires k < |xs|
    ensures xs == xs[..k] + ([xs[k]] + xs[k + 1..])
  {
  }

  lemma CollectOne(chapter: Chapter, item: Chapter -> seq<SummaryItem>)
    ensures Collect([chapter], item) == item(chapter)
  {
    assert [chapter][..0] == [];
  }

  /** Chapters are summarised independently: the summaries of two runs of
      chapters, one after the other, are those of each run. */
  lemma SummariesAppend(a: seq<Chapter>, b: seq<Chapter>, transcript: seq<Segment>, send: Sender, parse: string -> Line)
    ensures SummariesOf(a + b, transcript, send, parse) == SummariesOf(a, transcript, send, parse) + SummariesOf(b, transcript, send, parse)
  {
    CollectAppend(a, b, chapter => ItemFor(chapter, transcript, send, parse));
  }

  lemma SummariesOne(chapter: Chapter, transcript: seq<Segment>, send: Sender, parse: string -> Line)
    ensures SummariesOf([chapter], transcript, send, parse) == ItemFor(chapter, transcript, send, parse)
  {
    var item := c => ItemFor(c, transcript, send, parse);
    assert [chapter][..0] == [];
    assert Collect([chapter], item) == [] + item(chapter);
  }

  /** A chapter whose summary fails is left out and changes nothing else. */
  lemma FailingChapterDropped(chapters: seq<Chapter>, k: nat, transcript: seq<Segment>, send: Sender, parse: string -> Line)
    requires k < |chapters| && !Succeeds(chapters[k], transcript, send, parse)
    ensures SummariesOf(chapters, transcript, send, parse) == SummariesOf(chapters[..k] + chapters[k + 1..], transcript, send, parse)
  {
    ItemForFails(chapters[k], transcript, send, parse);
    CollectDrop(chapters, k, c => ItemFor(c, transcript, send, parse));
  }

  lemma ItemForFails(chapter: Chapter, transcript: seq<Segment>, send: Sender, parse: string -> Line)
    requires !Succeeds(chapter, transcript, send, parse)
    ensures ItemFor(chapter, transcript, send, parse) == []
  {
  }

  /** A chapter whose summary succeeds contributes exactly one entry, with its
      title and raw time, between the entries of the chapters before it and
      those after it. */
  lemma SucceedingChapterKept(chapters: seq<Chapter>, k: nat, transcript: seq<Segment>, send: Sender, parse: string -> Line)
    requires k < |chapters| && Succeeds(chapters[k], transcript, send, parse)
    ensures SummariesOf(chapters, transcript, send, parse)
         == SummariesOf(chapters[..k], transcript, send, parse)
          + [SummaryItem(chapters[k].title, chapters[k].rawTime,
                         SummaryOf(send, parse, ChapterText(transcript, chapters[k]), ChapterInstruction(chapters[k].title)).value)]
          + SummariesOf(chapters[k + 1..], transcript, send, parse)
  {
    var item := c => ItemFor(c, transcript, send, parse);
    CollectAround(chapters, k, item);
  }

  /** When every chapter succeeds there is one entry per chapter, in chapter
      order. */
  lemma {:induction false} AllChaptersSucceed(chapters: seq<Chapter>, transcript: seq<Segment>, send: Sender, parse: string -> Line)
    requires forall i :: 0 <= i < |chapters| ==> Succeeds(chapters[i], transcript, send, parse)
    ensures |SummariesOf(chapters, transcript, send, parse)| == |chapters|
    ensures forall i :: 0 <= i < |chapters| ==>
      var entry := SummariesOf(chapters, transcript, send, parse)[i];
      entry.chapter == chapters[i].title && entry.timestamp == chapters[i].rawTime
  {
    if chapters != [] {
      var init := chapters[..|chapters| - 1];
      AllChaptersSucceed(init, transcript, send, parse);
    }
  }

  /** `generateFullSummary`: one summary of the whole transcript; a failure
      is passed on unchanged. */
  method GenerateFullSummary(transcript: seq<Segment>, send: Sender, parse: string -> Line)
    returns (r: Result<AnalysisResult, Error>)
    ensures var s := SummaryOf(send, parse, TranscriptText(transcript), FullSummaryInstruction);
      && (r.Ok? <==> s.Ok?)
      && (r.Ok? ==> r.value == FullSummary(s.value))
      && (r.Err? ==> r.error == s.error)
  {
    var fullText := TranscriptText(transcript);
    var summary := GenerateSummary(fullText, FullSummaryInstruction, send, parse);
    match summary
    case Ok(s) => r := Ok(FullSummary(s));
    case Err(e) => r := Err(e);
  }
}
