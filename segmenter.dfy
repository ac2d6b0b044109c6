/** The windowing and bucketing half of `generateChapterSummaries`: each
    chapter gets the end of its time window, then takes the transcript
    segments that fall inside that window. */
module Segmenter {
  import opened Wrappers
  import opened Text

  /** A window end: a number of seconds, or `Infinity`. */
  datatype End = At(seconds: nat) | Unbounded

  /** One transcript line with its start time in seconds. */
  datatype Segment = Segment(text: string, timestamp: nat)

  /** A chapter mark. `endTimestamp` is absent (`None`) until the windowing
      loop sets it. */
  datatype Chapter = Chapter(title: string, timestamp: nat, rawTime: string, endTimestamp: Option<End>)

  /** `next.timestamp || Infinity`: a following timestamp of 0 is falsy, so it
      also becomes `Infinity`. */
  function EndAt(nextTimestamp: nat): (end: End)
    ensures end == Unbounded <==> nextTimestamp == 0
    ensures end.At? ==> end.seconds == nextTimestamp
  {
    if nextTimestamp == 0 then Unbounded else At(nextTimestamp)
  }

  /** `chapters[i + 1]?.timestamp || Infinity` */
  function NextEnd(chapters: seq<Chapter>, i: nat): End {
    if i + 1 < |chapters| then EndAt(chapters[i + 1].timestamp) else Unbounded
  }

  /** The chapter list after windowing, chapter by chapter with its successor. */
  function Windowed(chapters: seq<Chapter>): (windowed: seq<Chapter>)
    ensures |windowed| == |chapters|
  {
    if |chapters| == 0 then []
    else if |chapters| == 1 then [chapters[0].(endTimestamp := Some(Unbounded))]
    else [chapters[0].(endTimestamp := Some(EndAt(chapters[1].timestamp)))] + Windowed(chapters[1..])
  }

  /** After windowing the list has the same length; chapter i keeps its title,
      timestamp and raw time and ends where chapter i+1 starts, except that the
      last chapter, and a chapter followed by one at time 0, end at `Infinity`. */
  lemma {:induction false} WindowedAt(chapters: seq<Chapter>)
    ensures |Windowed(chapters)| == |chapters|
    ensures forall i :: 0 <= i < |chapters| ==>
      Windowed(chapters)[i] == chapters[i].(endTimestamp := Some(NextEnd(chapters, i)))
  {
    if |chapters| > 1 {
      WindowedAt(chapters[1..]);
      forall i | 1 <= i < |chapters|
        ensures Windowed(chapters)[i] == chapters[i].(endTimestamp := Some(NextEnd(chapters, i)))
      {
        assert Windowed(chapters)[i] == Windowed(chapters[1..])[i - 1];
      }
    }
  }

  /** Consecutive windows meet: a chapter ends where the next one starts,
      unless the next one starts at 0; the last window is unbounded. */
  lemma WindowsMeet(chapters: seq<Chapter>)
    ensures forall i :: 0 <= i < |chapters| - 1 && chapters[i + 1].timestamp != 0 ==>
      Windowed(chapters)[i].endTimestamp == Some(At(Windowed(chapters)[i + 1].timestamp))
    ensures |chapters| > 0 ==> Windowed(chapters)[|chapters| - 1].endTimestamp == Some(Unbounded)
  {
    WindowedAt(chapters);
  }

  /** Windowing reads only the timestamps, which it leaves alone: running it
      again on its own result changes nothing. */
  lemma WindowedIdempotent(chapters: seq<Chapter>)
    ensures Windowed(Windowed(chapters)) == Windowed(chapters)
  {
    var w := Windowed(chapters);
    WindowedAt(chapters);
    WindowedAt(w);
    forall i | 0 <= i < |w| ensures Windowed(w)[i] == w[i] {
      assert NextEnd(w, i) == NextEnd(chapters, i);
    }
  }

  /** The windowing loop: sets every chapter's `endTimestamp` in place. */
  method AssignEndTimestamps(chapters: array<Chapter>)
    modifies chapters
    ensures chapters[..] == Windowed(old(chapters[..]))
  {
    ghost var before := chapters[..];
    for i := 0 to chapters.Length
      invariant forall k :: i <= k < chapters.Length ==> chapters[k] == before[k]
      invariant forall k :: 0 <= k < i ==>
        chapters[k] == before[k].(endTimestamp := Some(NextEnd(before, k)))
    {
      var end := if i + 1 < chapters.Length then EndAt(chapters[i + 1].timestamp) else Unbounded;
      chapters[i] := chapters[i].(endTimestamp := Some(end));
    }
    WindowedAt(before);
  }

  /** `segment.timestamp < chapter.endTimestamp`; against an absent end the
      comparison is with `undefined`, which is false. */
  predicate Before(timestamp: nat, end: Option<End>) {
    match end
    case Some(At(e)) => timestamp < e
    case Some(Unbounded) => true
    case None => false
  }

  predicate InRange(s: Segment, start: nat, end: Option<End>) {
    start <= s.timestamp && Before(s.timestamp, end)
  }

  /** `transcript.filter(segment => start <= segment.timestamp < end)` */
  function Range(transcript: seq<Segment>, start: nat, end: Option<End>): (r: seq<Segment>)
    ensures |r| <= |transcript|
  {
    if transcript == [] then []
    else
      var rest := Range(transcript[1..], start, end);
      if InRange(transcript[0], start, end) then [transcript[0]] + rest else rest
  }

  /** A chapter's bucket: the transcript segments inside its window. */
  function Bucket(transcript: seq<Segment>, chapter: Chapter): seq<Segment> {
    Range(transcript, chapter.timestamp, chapter.endTimestamp)
  }

  /** `segments.map(segment => segment.text).join(' ')` */
  function TranscriptText(segments: seq<Segment>): (text: string)
    ensures segments == [] ==> text == ""
    ensures |segments| == 1 ==> text == segments[0].text
    ensures |segments| >= 1 ==> segments[0].text <= text
  {
    Join(Texts(segments), " ")
  }

  /** `segments.map(segment => segment.text)` */
  function Texts(segments: seq<Segment>): (texts: seq<string>)
    ensures |texts| == |segments|
    ensures forall i :: 0 <= i < |texts| ==> texts[i] == segments[i].text
  {
    if segments == [] then [] else [segments[0].text] + Texts(segments[1..])
  }

  /** The text a chapter is summarised from. */
  function ChapterText(transcript: seq<Segment>, chapter: Chapter): string {
    TranscriptText(Bucket(transcript, chapter))
  }

  /** A bucket holds exactly the transcript's segments inside the window. */
  lemma {:induction false} RangeMembers(transcript: seq<Segment>, start: nat, end: Option<End>)
    ensures forall s :: s in Range(transcript, start, end) <==> s in transcript && InRange(s, start, end)
  {
    if transcript != [] {
      RangeMembers(transcript[1..], start, end);
      assert transcript == [transcript[0]] + transcript[1..];
    }
  }

  /** The filter keeps order: the bucket of a concatenation is the
      concatenation of the buckets. With the one-segment case, this says the
      bucket is the ordered subsequence of the segments inside the window. */
  lemma {:induction false} RangeAppend(a: seq<Segment>, b: seq<Segment>, start: nat, end: Option<End>)
    ensures Range(a + b, start, end) == Range(a, start, end) + Range(b, start, end)
  {
    if a != [] {
      RangeAppend(a[1..], b, start, end);
      assert (a + b)[1..] == a[1..] + b;
    } else {
      assert a + b == b;
    }
  }

  lemma RangeOne(s: Segment, start: nat, end: Option<End>)
    ensures Range([s], start, end) == if InRange(s, start, end) then [s] else []
  {
    assert [s][1..] == [];
  }

  /** An empty transcript gives an empty bucket and an empty text. */
  lemma EmptyTranscript(chapter: Chapter)
    ensures Bucket([], chapter) == [] && ChapterText([], chapter) == ""
  {
  }

  lemma {:induction false} TextsAppend(a: seq<Segment>, b: seq<Segment>)
    ensures Texts(a + b) == Texts(a) + Texts(b)
  {
    if a != [] {
      TextsAppend(a[1..], b);
      assert (a + b)[1..] == a[1..] + b;
    } else {
      assert a + b == b;
    }
  }

  /** The text of two non-empty runs of segments is their texts joined by one
      space. */
  lemma TranscriptTextAppend(a: seq<Segment>, b: seq<Segment>)
    requires |a| >= 1 && |b| >= 1
    ensures TranscriptText(a + b) == TranscriptText(a) + " " + TranscriptText(b)
  {
    TextsAppend(a, b);
    JoinConcat(Texts(a), Texts(b), " ");
  }

  /** When no segment text holds a space, splitting the joined text at the
      spaces gives back the segment texts, in order. */
  lemma TranscriptTextSplits(segments: seq<Segment>)
    requires |segments| >= 1
    requires forall i :: 0 <= i < |segments| ==> ' ' !in segments[i].text
    ensures Split(TranscriptText(segments), ' ') == Texts(segments)
  {
    SplitJoin(Texts(segments), ' ');
  }

  /** One more transcript segment adds its text to a chapter's text exactly
      when it lies in the chapter's window: after one space when the bucket
      already holds a segment, alone otherwise. */
  lemma ChapterTextGrows(transcript: seq<Segment>, s: Segment, chapter: Chapter)
    ensures ChapterText(transcript + [s], chapter)
         == if !InRange(s, chapter.timestamp, chapter.endTimestamp) then ChapterText(transcript, chapter)
            else if Bucket(transcript, chapter) == [] then s.text
            else ChapterText(transcript, chapter) + " " + s.text
  {
    var start, end := chapter.timestamp, chapter.endTimestamp;
    RangeAppend(transcript, [s], start, end);
    RangeOne(s, start, end);
    if InRange(s, start, end) && Bucket(transcript, chapter) != [] {
      TranscriptTextAppend(Bucket(transcript, chapter), [s]);
    } else if !InRange(s, start, end) {
      assert Bucket(transcript + [s], chapter) == Bucket(transcript, chapter);
    } else {
      assert Bucket(transcript + [s], chapter) == [s];
    }
  }

  predicate Sorted(transcript: seq<Segment>) {
    forall i, j :: 0 <= i < j < |transcript| ==> transcript[i].timestamp <= transcript[j].timestamp
  }

  lemma {:induction false} RangeAllLater(transcript: seq<Segment>, a: nat, b: nat, end: Option<End>)
    requires a <= b
    requires forall i :: 0 <= i < |transcript| ==> b <= transcript[i].timestamp
    ensures Range(transcript, a, end) == Range(transcript, b, end)
    ensures Range(transcript, a, Some(At(b))) == []
  {
    if transcript != [] {
      RangeAllLater(transcript[1..], a, b, end);
    }
  }

  /** On a sorted transcript, the window [a, end) is the window [a, b) followed
      by the window [b, end): cutting a window in two loses and repeats nothing. */
  lemma {:induction false} RangeSplit(transcript: seq<Segment>, a: nat, b: nat, end: Option<End>)
    requires Sorted(transcript)
    requires a <= b
    requires end.Some? && (end.value.At? ==> b <= end.value.seconds)
    ensures Range(transcript, a, end) == Range(transcript, a, Some(At(b))) + Range(transcript, b, end)
  {
    if transcript != [] {
      var rest := transcript[1..];
      assert Sorted(rest);
      var x := transcript[0];
      if x.timestamp < b {
        RangeSplit(rest, a, b, end);
      } else {
        RangeAllLater(rest, a, b, end);
        RangeAllLater(rest, a, b, Some(At(b)));
      }
    }
  }

  /** All the chapters' buckets, in chapter order. */
  function AllBuckets(transcript: seq<Segment>, chapters: seq<Chapter>): seq<Segment> {
    if chapters == [] then [] else Bucket(transcript, chapters[0]) + AllBuckets(transcript, chapters[1..])
  }

  predicate StrictlyAscending(chapters: seq<Chapter>) {
    forall i :: 0 <= i < |chapters| - 1 ==> chapters[i].timestamp < chapters[i + 1].timestamp
  }

  /** With chapters in strictly ascending order and a sorted transcript, the
      windows tile the timeline from the first chapter on: every segment at or
      after the first chapter's start lands in exactly one bucket, and reading
      the buckets in chapter order gives those segments in transcript order. */
  lemma {:induction false} BucketsCover(transcript: seq<Segment>, chapters: seq<Chapter>)
    requires Sorted(transcript)
    requires |chapters| > 0 && StrictlyAscending(chapters)
    ensures AllBuckets(transcript, Windowed(chapters)) == Range(transcript, chapters[0].timestamp, Some(Unbounded))
  {
    if |chapters| > 1 {
      var rest := chapters[1..];
      assert StrictlyAscending(rest);
      BucketsCover(transcript, rest);
      var w := Windowed(chapters);
      assert w == [chapters[0].(endTimestamp := Some(At(chapters[1].timestamp)))] + Windowed(rest);
      assert w[1..] == Windowed(rest);
      RangeSplit(transcript, chapters[0].timestamp, chapters[1].timestamp, Some(Unbounded));
    } else {
      var w := Windowed(chapters);
      assert w[1..] == [];
    }
  }

  /** An unbounded window from time 0 holds the whole transcript. */
  lemma {:induction false} RangeEverything(transcript: seq<Segment>)
    ensures Range(transcript, 0, Some(Unbounded)) == transcript
  {
    if transcript != [] {
      RangeEverything(transcript[1..]);
      assert [transcript[0]] + transcript[1..] == transcript;
    }
  }

  /** Chapters sorted but not strictly: when two chapters both start at 0,
      the second start is falsy, so the first window is open-ended as well and
      every segment lands in both buckets. */
  lemma SharedStartOverlaps(transcript: seq<Segment>, first: Chapter, second: Chapter)
    requires first.timestamp == 0 && second.timestamp == 0
    ensures Windowed([first, second])[0].endTimestamp == Some(Unbounded)
    ensures AllBuckets(transcript, Windowed([first, second])) == transcript + transcript
  {
    var a, b := first.(endTimestamp := Some(Unbounded)), second.(endTimestamp := Some(Unbounded));
    assert [first, second][1..] == [second];
    assert Windowed([second]) == [b];
    assert Windowed([first, second]) == [a] + [b];
    assert [a, b][1..] == [b] && [b][1..] == [];
    assert AllBuckets(transcript, [b]) == Bucket(transcript, b);
    assert AllBuckets(transcript, [a, b]) == Bucket(transcript, a) + Bucket(transcript, b);
    RangeEverything(transcript);
  }
}
