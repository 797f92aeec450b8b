/** Choice of one transcript and gap filling (application/transcript_selection_service.py). */
module TranscriptSelection {
  import opened Ordering
  import opened TranscriptQuality

  datatype Candidate = Candidate(
    id: string, source: Source, language: string, artifactId: string, segments: seq<Segment>)
  {
    predicate IsChinese() {
      |language| >= 2 && (language[0] == 'z' || language[0] == 'Z') && (language[1] == 'h' || language[1] == 'H')
    }

    function OrderedSegments(): seq<Segment> { SortBy(segments, KeyLe) }

    predicate AllAligned() { forall i :: 0 <= i < |segments| ==> segments[i].alignment == Aligned }

    predicate OfficialChinese() { source == OfficialSubtitle && IsChinese() }

    predicate AutoChinese() { source == AutoSubtitle && IsChinese() }
  }

  datatype Selection =
    | Selected(segments: seq<Segment>, language: string, report: Report)
    | SelectionFailed(report: Report)
    | InvalidDuration

  /** The decision, without the figures of the report. */
  datatype Choice =
    | Chosen(segments: seq<Segment>, language: string)
    | OfficialRejected(segments: seq<Segment>, language: string)
    | Exhausted(language: string)
    | Undecided

  // ----- Gaps -----

  method Gaps(segments: seq<Segment>, duration: int) returns (gaps: seq<Interval>)
    ensures gaps == GapsOf(segments, duration)
  {
    gaps := [];
    var cursor := 0;
    for i := 0 to |segments|
      invariant gaps + GapsAfter(cursor, segments[i..], duration) == GapsOf(segments, duration)
    {
      var item := segments[i];
      if item.start > cursor { gaps := gaps + [(cursor, item.start)]; }
      cursor := Max(cursor, item.end);
    }
    if cursor < duration { gaps := gaps + [(cursor, duration)]; }
  }

  function GapsAfter(cursor: int, segments: seq<Segment>, duration: int): seq<Interval>
    decreases |segments|
  {
    if segments == [] then (if cursor < duration then [(cursor, duration)] else [])
    else
      var rest := GapsAfter(Max(cursor, segments[0].end), segments[1..], duration);
      if segments[0].start > cursor then [(cursor, segments[0].start)] + rest else rest
  }

  function GapsOf(segments: seq<Segment>, duration: int): seq<Interval> {
    GapsAfter(0, segments, duration)
  }

  ghost predicate InSomeGap(gaps: seq<Interval>, t: int) {
    exists k :: 0 <= k < |gaps| && gaps[k].0 <= t < gaps[k].1
  }

  ghost predicate StartsAscend(segments: seq<Segment>) {
    forall i, j :: 0 <= i < j < |segments| ==> segments[i].start <= segments[j].start
  }

  /** Non-empty, ascending and with a covered stretch between any two. */
  ghost predicate ProperGaps(gaps: seq<Interval>, from: int) {
    && (forall k :: 0 <= k < |gaps| ==> from <= gaps[k].0 < gaps[k].1)
    && (forall j, k :: 0 <= j < k < |gaps| ==> gaps[j].1 < gaps[k].0)
  }

  lemma {:induction false} GapsAfterProper(cursor: int, segments: seq<Segment>, duration: int)
    requires StartsAscend(segments)
    ensures ProperGaps(GapsAfter(cursor, segments, duration), cursor)
    ensures segments != [] && segments[0].start > cursor ==>
      ProperGaps(GapsAfter(Max(cursor, segments[0].end), segments[1..], duration), segments[0].start + 1)
    decreases |segments|
  {
    if segments != [] {
      GapsAfterProper(Max(cursor, segments[0].end), segments[1..], duration);
    }
  }

  lemma {:induction false} GapInFront(gap: Interval, tail: seq<Interval>, t: int)
    ensures InSomeGap([gap] + tail, t) <==> gap.0 <= t < gap.1 || InSomeGap(tail, t)
  {
    var gaps := [gap] + tail;
    if gap.0 <= t < gap.1 { assert gaps[0].0 <= t < gaps[0].1; }
    if InSomeGap(tail, t) {
      var k :| 0 <= k < |tail| && tail[k].0 <= t < tail[k].1;
      assert gaps[k + 1] == tail[k];
    }
    if InSomeGap(gaps, t) {
      var k :| 0 <= k < |gaps| && gaps[k].0 <= t < gaps[k].1;
      if k > 0 { assert tail[k - 1] == gaps[k]; }
    }
  }

  lemma {:induction false} CoveredInFront(segments: seq<Segment>, t: int)
    requires segments != [] && StartsAscend(segments)
    ensures CoveredAt(segments, t) <==> segments[0].start <= t < segments[0].end || CoveredAt(segments[1..], t)
    ensures CoveredAt(segments, t) ==> segments[0].start <= t
  {
    assert segments == [segments[0]] + segments[1..];
    if CoveredAt(segments, t) {
      var s :| s in segments && s.start <= t < s.end;
      var j :| 0 <= j < |segments| && segments[j] == s;
      assert j == 0 || segments[0].start <= segments[j].start;
    }
  }

  lemma {:induction false} GapsAfterComplement(cursor: int, segments: seq<Segment>, duration: int, t: int)
    requires StartsAscend(segments) && t < duration
    ensures InSomeGap(GapsAfter(cursor, segments, duration), t) <==> t >= cursor && !CoveredAt(segments, t)
    decreases |segments|
  {
    if segments == [] {
      GapInFront((cursor, duration), [], t);
      assert [(cursor, duration)] + [] == [(cursor, duration)];
    } else {
      var next := Max(cursor, segments[0].end);
      GapsAfterComplement(next, segments[1..], duration, t);
      CoveredInFront(segments, t);
      GapInFront((cursor, segments[0].start), GapsAfter(next, segments[1..], duration), t);
    }
  }

  /** The gaps of an ordered track are its sorted, disjoint and exact complement in the recording. */
  lemma {:induction false} GapsAreComplement(segments: seq<Segment>, duration: int)
    requires SortedBy(segments, KeyLe)
    ensures ProperGaps(GapsOf(segments, duration), 0)
    ensures forall t :: 0 <= t < duration ==> (InSomeGap(GapsOf(segments, duration), t) <==> !CoveredAt(segments, t))
  {
    GapsAfterProper(0, segments, duration);
    forall t | 0 <= t < duration
      ensures InSomeGap(GapsOf(segments, duration), t) <==> !CoveredAt(segments, t)
    {
      GapsAfterComplement(0, segments, duration, t);
    }
  }

  // ----- Filling gaps -----

  predicate Contained(item: Segment, gaps: seq<Interval>) {
    exists k :: 0 <= k < |gaps| && gaps[k].0 <= item.start && item.end <= gaps[k].1
  }

  /** The key of the combined track; the normalized text is not part of it. */
  predicate FillLe(a: Segment, b: Segment) {
    if a.start != b.start then a.start < b.start
    else if a.end != b.end then a.end < b.end
    else if a.artifactId != b.artifactId then StringLe(a.artifactId, b.artifactId)
    else StringLe(a.rawText, b.rawText)
  }

  function Additions(subtitle: Candidate, speech: Candidate, duration: int): seq<Segment> {
    var gaps := GapsOf(subtitle.OrderedSegments(), duration);
    Filter(speech.OrderedSegments(), (item: Segment) => Contained(item, gaps))
  }

  function Fill(subtitle: Candidate, speech: Candidate, duration: int): seq<Segment> {
    SortBy(subtitle.OrderedSegments() + Additions(subtitle, speech, duration), FillLe)
  }

  /** Before a time that lies in the recording or before the start of some segment. */
  ghost predicate IsReached(segments: seq<Segment>, duration: int, end: int) {
    end <= duration || exists s :: s in segments && end <= s.start
  }

  lemma {:induction false} GapsReachStarts(cursor: int, segments: seq<Segment>, duration: int, t: int, s: Segment)
    requires StartsAscend(segments) && s in segments && t < s.start
    ensures InSomeGap(GapsAfter(cursor, segments, duration), t) <==> t >= cursor && !CoveredAt(segments, t)
    decreases |segments|
  {
    hide CoveredAt;
    var next, rest := Max(cursor, segments[0].end), segments[1..];
    assert segments == [segments[0]] + rest;
    CoveredInFront(segments, t);
    GapInFront((cursor, segments[0].start), GapsAfter(next, rest, duration), t);
    if t < segments[0].start {
      GapsAfterProper(next, rest, duration);
      NothingBefore(rest, t);
    } else {
      GapsReachStarts(next, rest, duration, t, s);
    }
  }

  lemma {:induction false} NothingBefore(segments: seq<Segment>, t: int)
    ensures (forall s :: s in segments ==> t < s.start) ==> !CoveredAt(segments, t)
  {
  }

  lemma {:induction false} GapsAreReached(cursor: int, segments: seq<Segment>, duration: int, k: nat)
    requires k < |GapsAfter(cursor, segments, duration)|
    ensures IsReached(segments, duration, GapsAfter(cursor, segments, duration)[k].1)
    decreases |segments|
  {
    if segments != [] {
      var next, rest := Max(cursor, segments[0].end), segments[1..];
      assert segments == [segments[0]] + rest;
      var ahead := if segments[0].start > cursor then 1 else 0;
      if k >= ahead { GapsAreReached(next, rest, duration, k - ahead); }
    }
  }

  /**
   * What is added is the speech that meets no subtitle at any time, unless it goes on past the recording and past the start
   * of every subtitle.
   */
  lemma {:induction false} AddedExactlyWhen(subtitle: Candidate, speech: Candidate, duration: int, x: Segment)
    ensures x in Additions(subtitle, speech, duration) <==>
      && x in speech.segments && Uncovered(subtitle.segments, x.start, x.end)
      && (x.end <= duration || exists s :: s in subtitle.segments && x.end <= s.start)
  {
    hide SortBy, KeyLe, Contained, GapsOf;
    KeyLeOrder();
    var base, track := subtitle.OrderedSegments(), speech.OrderedSegments();
    SortBySorted(subtitle.segments, KeyLe);
    MultisetMembers(base, subtitle.segments);
    MultisetMembers(track, speech.segments);
    ContainedExactlyWhen(base, duration, x);
    assert forall t :: CoveredAt(base, t) <==> CoveredAt(subtitle.segments, t);
  }

  lemma {:induction false} GapHolds(segments: seq<Segment>, duration: int, end: int, t: int)
    requires SortedBy(segments, KeyLe) && IsReached(segments, duration, end) && 0 <= t < end
    ensures InSomeGap(GapsOf(segments, duration), t) <==> !CoveredAt(segments, t)
  {
    hide CoveredAt, InSomeGap, GapsAfter;
    if t < duration {
      GapsAfterComplement(0, segments, duration, t);
    } else {
      var s :| s in segments && end <= s.start;
      GapsReachStarts(0, segments, duration, t, s);
    }
  }

  lemma {:induction false} ContainedExactlyWhen(segments: seq<Segment>, duration: int, x: Segment)
    requires SortedBy(segments, KeyLe)
    ensures Contained(x, GapsOf(segments, duration)) <==>
      Uncovered(segments, x.start, x.end) && IsReached(segments, duration, x.end)
  {
    hide KeyLe, CoveredAt, GapsAfter;
    var gaps := GapsOf(segments, duration);
    GapsAreComplement(segments, duration);
    if Uncovered(segments, x.start, x.end) && IsReached(segments, duration, x.end) {
      GapHolds(segments, duration, x.end, x.start);
      var k :| 0 <= k < |gaps| && gaps[k].0 <= x.start < gaps[k].1;
      assert !InSomeGap(gaps, gaps[k].1);
      if gaps[k].1 < x.end { GapHolds(segments, duration, x.end, gaps[k].1); }
    }
    if k :| 0 <= k < |gaps| && gaps[k].0 <= x.start && x.end <= gaps[k].1 {
      GapsAreReached(0, segments, duration, k);
      forall t | x.start <= t < x.end ensures !CoveredAt(segments, t) {
        assert InSomeGap(gaps, t);
        GapHolds(segments, duration, gaps[k].1, t);
      }
    }
  }

  ghost predicate Apart(a: Segment, b: Segment) { a.end <= b.start || b.end <= a.start }

  ghost predicate PairwiseApart(s: seq<Segment>) { Pairwise(s, Apart) }

  /** Consecutive disjointness of an ordered track is disjointness of any two segments. */
  lemma {:induction false} DisjointMeansApart(s: seq<Segment>)
    requires StartsAscend(s) && Disjoint(s)
    ensures PairwiseApart(s)
  {
    if s != [] {
      DisjointMeansApart(s[1..]);
      forall y | y in s[1..] ensures Apart(s[0], y) {
        var k :| 1 <= k < |s| && s[k] == y;
        assert s[1].start <= s[k].start || k == 1;
      }
    }
  }

  lemma {:induction false} ApartMeansDisjoint(s: seq<Segment>)
    requires StartsAscend(s) && PairwiseApart(s)
    ensures Disjoint(s) && SortedBy(s, KeyLe)
  {
    if |s| > 1 {
      ApartMeansDisjoint(s[1..]);
      assert s[1] in s[1..];
      forall k | 0 < k < |s| ensures KeyLe(s[0], s[k]) { assert s[k] in s[1..]; }
      forall i | 0 <= i < |s| - 1 ensures s[i].end <= s[i + 1].start {
        if i > 0 { assert s[1..][i - 1] == s[i] && s[1..][i] == s[i + 1]; }
      }
    }
  }

  lemma {:induction false} TotalLengthOfInsert(x: Segment, s: seq<Segment>, le: (Segment, Segment) -> bool)
    ensures TotalLength(InsertBy(x, s, le)) == x.end - x.start + TotalLength(s)
  {
    if s != [] && !le(x, s[0]) { TotalLengthOfInsert(x, s[1..], le); }
  }

  lemma {:induction false} TotalLengthOfSort(s: seq<Segment>, le: (Segment, Segment) -> bool)
    ensures TotalLength(SortBy(s, le)) == TotalLength(s)
  {
    if s != [] {
      TotalLengthOfSort(s[1..], le);
      TotalLengthOfInsert(s[0], SortBy(s[1..], le), le);
    }
  }

  lemma {:induction false} TotalLengthOfConcat(a: seq<Segment>, b: seq<Segment>)
    ensures TotalLength(a + b) == TotalLength(a) + TotalLength(b)
  {
    if a == [] {
      assert a + b == b;
    } else {
      TotalLengthOfConcat(a[1..], b);
      assert (a + b)[1..] == a[1..] + b;
    }
  }

  /** Disjoint segments inside the recording measure as much as they are long. */
  lemma {:induction false} ApartMeasure(s: seq<Segment>, duration: int)
    requires PairwiseApart(s) && InBounds(s, duration)
    ensures Measure(s, duration) == TotalLength(s)
  {
    if s == [] {
      MeasureNothing(duration);
    } else {
      var front, last := s[..|s| - 1], s[|s| - 1];
      PairwiseFront(s, Apart);
      ApartMeasure(front, duration);
      assert s == front + [last] && last in s;
      forall t ensures CoveredAt(front + [last], t) <==> CoveredAt(front, t) || last.start <= t < last.end {
        CoveredAppend(front, last, t);
      }
      MeasureAppend(front, last, last.start, last.end, duration);
      TotalLengthOfConcat(front, [last]);
      assert TotalLength([last]) == last.end - last.start + TotalLength([]);
    }
  }

  lemma {:induction false} FillLeOrder()
    ensures TotalPreorder(FillLe)
  {
    forall a, b ensures FillLe(a, b) || FillLe(b, a) {
      StringLeTotal(a.artifactId, b.artifactId);
      StringLeTotal(a.rawText, b.rawText);
    }
    forall a, b, c | FillLe(a, b) && FillLe(b, c) ensures FillLe(a, c) {
      StringLeTotal(a.artifactId, b.artifactId);
      StringLeTotal(b.artifactId, c.artifactId);
      StringLeOrder();
    }
  }

  /** A piece of speech inside a gap keeps clear of every subtitle segment inside the recording. */
  lemma {:induction false} GapPieceApart(segments: seq<Segment>, duration: int, piece: Segment, s: Segment)
    requires SortedBy(segments, KeyLe) && InBounds(segments, duration)
    requires Contained(piece, GapsOf(segments, duration)) && s in segments
    ensures Apart(piece, s)
  {
    GapsAreComplement(segments, duration);
    var gaps := GapsOf(segments, duration);
    var k :| 0 <= k < |gaps| && gaps[k].0 <= piece.start && piece.end <= gaps[k].1;
    var t := Max(piece.start, s.start);
    assert t == s.start ==> CoveredAt(segments, t);
    if t == piece.start && t < s.end { assert CoveredAt(segments, t); }
    assert gaps[k].0 <= t < gaps[k].1 ==> InSomeGap(gaps, t);
  }

  /**
   * Filling keeps every subtitle segment, adds only speech, stays ordered and disjoint, and adds
   * exactly the length of the pieces to the covered time.
   */
  lemma {:induction false} FillExtendsCoverage(subtitle: Candidate, speech: Candidate, duration: int)
    requires Disjoint(subtitle.OrderedSegments()) && InBounds(subtitle.segments, duration)
    requires Disjoint(speech.OrderedSegments()) && InBounds(speech.segments, duration)
    ensures var filled, added := Fill(subtitle, speech, duration), Additions(subtitle, speech, duration);
      && multiset(filled) == multiset(subtitle.segments) + multiset(added)
      && (forall x :: x in added ==> x in speech.segments)
      && Monotonic(filled) && InBounds(filled, duration)
      && Measure(filled, duration) == Measure(subtitle.segments, duration) + TotalLength(added)
  {
    var base, track := subtitle.OrderedSegments(), speech.OrderedSegments();
    var added := Additions(subtitle, speech, duration);
    var filled := Fill(subtitle, speech, duration);
    KeyLeOrder();
    SortBySorted(subtitle.segments, KeyLe);
    SortBySorted(speech.segments, KeyLe);
    MultisetMembers(base, subtitle.segments);
    MultisetMembers(track, speech.segments);
    DisjointMeansApart(base);
    DisjointMeansApart(track);
    PairwiseFilter(track, (item: Segment) => Contained(item, GapsOf(base, duration)), Apart);
    forall x, y | x in base && y in added ensures Apart(x, y) { GapPieceApart(base, duration, y, x); }
    PairwiseConcat(base, added, Apart);
    PairwiseSort(base + added, FillLe, Apart);
    FillLeOrder();
    SortBySorted(base + added, FillLe);
    ApartMeansDisjoint(filled);
    FillMeasure(subtitle, speech, duration);
  }

  lemma {:induction false} FillMeasure(subtitle: Candidate, speech: Candidate, duration: int)
    requires InBounds(subtitle.segments, duration) && InBounds(speech.segments, duration)
    requires PairwiseApart(subtitle.OrderedSegments()) && PairwiseApart(Fill(subtitle, speech, duration))
    ensures var filled, added := Fill(subtitle, speech, duration), Additions(subtitle, speech, duration);
      && InBounds(filled, duration)
      && Measure(filled, duration) == Measure(subtitle.segments, duration) + TotalLength(added)
  {
    var base, added := subtitle.OrderedSegments(), Additions(subtitle, speech, duration);
    var filled := Fill(subtitle, speech, duration);
    MultisetMembers(base, subtitle.segments);
    MultisetMembers(speech.OrderedSegments(), speech.segments);
    MultisetMembers(filled, base + added);
    ApartMeasure(base, duration);
    ApartMeasure(filled, duration);
    MeasureSameCover(base, subtitle.segments, duration);
    TotalLengthOfSort(base + added, FillLe);
    TotalLengthOfConcat(base, added);
  }

  // ----- The decision -----

  predicate CandidateLe(a: Candidate, b: Candidate) {
    if a.id != b.id then StringLe(a.id, b.id) else StringLe(a.artifactId, b.artifactId)
  }

  predicate SpeechLe(a: Candidate, b: Candidate) { StringLe(a.id, b.id) }

  /** The alphabetical position of `ASR`, `AUTO_SUBTITLE` and `OFFICIAL_SUBTITLE`. */
  function SourceRank(source: Source): int {
    match source
    case Asr => 0
    case AutoSubtitle => 1
    case OfficialSubtitle => 2
  }

  /** By the name of the source, then by id: automatic subtitles are filled before official ones. */
  predicate SubtitleLe(a: Candidate, b: Candidate) {
    if a.source != b.source then SourceRank(a.source) < SourceRank(b.source) else StringLe(a.id, b.id)
  }

  predicate IsOfficialChinese(c: Candidate) { c.OfficialChinese() }

  predicate IsAutoChinese(c: Candidate) { c.AutoChinese() }

  predicate IsSpeech(c: Candidate) { c.source == Asr }

  function Officials(candidates: seq<Candidate>): seq<Candidate> {
    Filter(candidates, IsOfficialChinese)
  }

  function Automatics(candidates: seq<Candidate>): seq<Candidate> {
    Filter(candidates, IsAutoChinese)
  }

  function Speeches(candidates: seq<Candidate>): seq<Candidate> {
    Filter(candidates, IsSpeech)
  }

  /** One group of candidates in order: the first that passes, unless an official one fails hard before. */
  ghost function DecideGroup(group: seq<Candidate>, official: bool, duration: int, tokens: string -> seq<string>): Choice {
    if group == [] then Undecided
    else
      var segments := group[0].OrderedSegments();
      var reasons := Reasons(segments, duration, tokens);
      if reasons == {} then Chosen(segments, group[0].language)
      else if official && reasons - {CoverageBelow90Percent} != {} then OfficialRejected(segments, group[0].language)
      else DecideGroup(group[1..], official, duration, tokens)
  }

  /** One subtitle against the speech candidates in order. */
  ghost function DecideFill(subtitle: Candidate, speeches: seq<Candidate>, duration: int,
                            tokens: string -> seq<string>): Choice
  {
    if speeches == [] then Undecided
    else
      var filled := Fill(subtitle, speeches[0], duration);
      if speeches[0].AllAligned() && Reasons(filled, duration, tokens) == {}
      then Chosen(filled, subtitle.language)
      else DecideFill(subtitle, speeches[1..], duration, tokens)
  }

  ghost function DecideFills(subtitles: seq<Candidate>, speeches: seq<Candidate>, duration: int,
                             tokens: string -> seq<string>): Choice
  {
    if subtitles == [] then Undecided
    else
      var choice := DecideFill(subtitles[0], speeches, duration, tokens);
      if choice != Undecided then choice else DecideFills(subtitles[1..], speeches, duration, tokens)
  }

  function FallbackLanguage(candidates: seq<Candidate>): string {
    var official := Officials(candidates);
    if official != [] then official[0].language
    else if candidates != [] then candidates[0].language
    else "und"
  }

  ghost function DecideSorted(official: seq<Candidate>, automatic: seq<Candidate>, speech: seq<Candidate>,
                              subtitles: seq<Candidate>, fillers: seq<Candidate>, fallback: string,
                              duration: int, tokens: string -> seq<string>): Choice
  {
    var first := DecideGroup(official, true, duration, tokens);
    var second := DecideGroup(automatic, false, duration, tokens);
    var third := DecideGroup(speech, false, duration, tokens);
    var fill := DecideFills(subtitles, fillers, duration, tokens);
    if first != Undecided then first
    else if second != Undecided then second
    else if third != Undecided then third
    else if fill != Undecided then fill
    else Exhausted(fallback)
  }

  ghost function Decide(candidates: seq<Candidate>, duration: int, tokens: string -> seq<string>): Choice {
    DecideSorted(
      SortBy(Officials(candidates), CandidateLe),
      SortBy(Automatics(candidates), CandidateLe),
      SortBy(Speeches(candidates), CandidateLe),
      SortBy(Officials(candidates) + Automatics(candidates), SubtitleLe),
      SortBy(Speeches(candidates), SpeechLe),
      FallbackLanguage(candidates), duration, tokens)
  }

  /** The outcome carries out the decision and reports on the segments it concerns. */
  ghost predicate Realizes(selection: Selection, choice: Choice, duration: int, tokens: string -> seq<string>) {
    match choice
    case Chosen(segments, language) =>
      && selection.Selected? && selection.segments == segments && selection.language == language
      && Describes(selection.report, segments, duration, language, tokens)
    case OfficialRejected(segments, language) =>
      selection.SelectionFailed? && Describes(selection.report, segments, duration, language, tokens)
    case Exhausted(language) =>
      selection.SelectionFailed? && Describes(selection.report, [], duration, language, tokens)
    case Undecided => false
  }

  method SelectFromGroup(group: seq<Candidate>, official: bool, duration: int, tokens: string -> seq<string>)
    returns (decided: bool, selection: Selection)
    requires duration > 0
    ensures decided <==> DecideGroup(group, official, duration, tokens) != Undecided
    ensures decided ==> Realizes(selection, DecideGroup(group, official, duration, tokens), duration, tokens)
  {
    selection := InvalidDuration;
    for i := 0 to |group|
      invariant DecideGroup(group, official, duration, tokens) == DecideGroup(group[i..], official, duration, tokens)
    {
      var candidate := group[i];
      var outcome := Evaluate(candidate.OrderedSegments(), duration, candidate.language, tokens);
      var report := outcome.report;
      assert group[i..][0] == candidate && group[i..][1..] == group[i + 1..];
      if report.status == Pass {
        return true, Selected(candidate.OrderedSegments(), candidate.language, report);
      }
      if official && report.reasons - {CoverageBelow90Percent} != {} {
        return true, SelectionFailed(report);
      }
    }
    decided := false;
  }

  method FillOne(subtitle: Candidate, speeches: seq<Candidate>, duration: int, tokens: string -> seq<string>)
    returns (decided: bool, selection: Selection)
    requires duration > 0
    ensures decided <==> DecideFill(subtitle, speeches, duration, tokens) != Undecided
    ensures decided ==> Realizes(selection, DecideFill(subtitle, speeches, duration, tokens), duration, tokens)
  {
    selection := InvalidDuration;
    for i := 0 to |speeches|
      invariant DecideFill(subtitle, speeches, duration, tokens) == DecideFill(subtitle, speeches[i..], duration, tokens)
    {
      var speech := speeches[i];
      assert speeches[i..][0] == speech && speeches[i..][1..] == speeches[i + 1..];
      if speech.AllAligned() {
        var gaps := Gaps(subtitle.OrderedSegments(), duration);
        var additions := Filter(speech.OrderedSegments(), (item: Segment) => Contained(item, gaps));
        assert additions == Additions(subtitle, speech, duration);
        var combined := SortBy(subtitle.OrderedSegments() + additions, FillLe);
        var outcome := Evaluate(combined, duration, subtitle.language, tokens);
        if outcome.report.status == Pass {
          return true, Selected(combined, subtitle.language, outcome.report);
        }
      }
    }
    decided := false;
  }

  method FillGaps(subtitles: seq<Candidate>, speeches: seq<Candidate>, duration: int, tokens: string -> seq<string>)
    returns (decided: bool, selection: Selection)
    requires duration > 0
    ensures decided <==> DecideFills(subtitles, speeches, duration, tokens) != Undecided
    ensures decided ==> Realizes(selection, DecideFills(subtitles, speeches, duration, tokens), duration, tokens)
  {
    decided, selection := false, InvalidDuration;
    for i := 0 to |subtitles|
      invariant DecideFills(subtitles, speeches, duration, tokens)
             == DecideFills(subtitles[i..], speeches, duration, tokens)
    {
      assert subtitles[i..][0] == subtitles[i] && subtitles[i..][1..] == subtitles[i + 1..];
      decided, selection := FillOne(subtitles[i], speeches, duration, tokens);
      if decided { return; }
    }
    decided := false;
  }

  method Select(candidates: seq<Candidate>, duration: int, tokens: string -> seq<string>)
    returns (selection: Selection)
    ensures selection == InvalidDuration <==> duration <= 0
    ensures duration > 0 ==> Realizes(selection, Decide(candidates, duration, tokens), duration, tokens)
  {
    if duration <= 0 { return InvalidDuration; }
    var official, automatic, asr := Officials(candidates), Automatics(candidates), Speeches(candidates);
    var decided;
    decided, selection := SelectFromGroup(SortBy(official, CandidateLe), true, duration, tokens);
    if decided { return; }
    decided, selection := SelectFromGroup(SortBy(automatic, CandidateLe), false, duration, tokens);
    if decided { return; }
    decided, selection := SelectFromGroup(SortBy(asr, CandidateLe), false, duration, tokens);
    if decided { return; }
    decided, selection :=
      FillGaps(SortBy(official + automatic, SubtitleLe), SortBy(asr, SpeechLe), duration, tokens);
    if decided { return; }
    var outcome := Evaluate([], duration, FallbackLanguage(candidates), tokens);
    selection := SelectionFailed(outcome.report);
  }

  // ----- What the decision guarantees -----

  ghost predicate FromCandidate(segments: seq<Segment>, language: string, group: seq<Candidate>) {
    exists c :: c in group && c.OrderedSegments() == segments && c.language == language
  }

  ghost predicate FailsForCoverageAlone(c: Candidate, duration: int, tokens: string -> seq<string>) {
    Reasons(c.OrderedSegments(), duration, tokens) == {CoverageBelow90Percent}
  }

  lemma {:induction false} OnlyCoverage(reasons: set<Reason>)
    requires reasons != {} && reasons - {CoverageBelow90Percent} == {}
    ensures reasons == {CoverageBelow90Percent}
  {
    var r :| r in reasons;
    assert r == CoverageBelow90Percent || r in reasons - {CoverageBelow90Percent};
  }

  lemma {:induction false} GroupChosen(group: seq<Candidate>, official: bool, duration: int, tokens: string -> seq<string>)
    ensures match DecideGroup(group, official, duration, tokens)
      case Chosen(segments, language) =>
        Reasons(segments, duration, tokens) == {} && FromCandidate(segments, language, group)
      case OfficialRejected(segments, language) =>
        official && FromCandidate(segments, language, group)
      case Exhausted(_) => false
      case Undecided => true
  {
    hide Reasons, SortBy, KeyLe;
    if group != [] {
      GroupChosen(group[1..], official, duration, tokens);
      assert group == [group[0]] + group[1..];
    }
  }

  lemma {:induction false} OfficialsUndecided(group: seq<Candidate>, duration: int, tokens: string -> seq<string>)
    requires DecideGroup(group, true, duration, tokens) == Undecided
    ensures forall c :: c in group ==> FailsForCoverageAlone(c, duration, tokens)
  {
    hide Reasons, SortBy, KeyLe;
    if group != [] {
      OfficialsUndecided(group[1..], duration, tokens);
      OnlyCoverage(Reasons(group[0].OrderedSegments(), duration, tokens));
      assert group == [group[0]] + group[1..];
    }
  }

  lemma {:induction false} FillChoice(subtitle: Candidate, speeches: seq<Candidate>, duration: int,
                                      tokens: string -> seq<string>)
    ensures match DecideFill(subtitle, speeches, duration, tokens)
      case Chosen(segments, language) =>
        && Reasons(segments, duration, tokens) == {} && language == subtitle.language
        && exists a :: a in speeches && a.AllAligned() && segments == Fill(subtitle, a, duration)
      case Undecided => true
      case _ => false
  {
    hide Reasons, SortBy, Fill;
    if speeches != [] {
      FillChoice(subtitle, speeches[1..], duration, tokens);
      assert speeches == [speeches[0]] + speeches[1..];
    }
  }

  /** The segments are an aligned speech candidate's pieces in the gaps of a Chinese subtitle. */
  ghost predicate IsFill(segments: seq<Segment>, language: string, subtitles: seq<Candidate>,
                         speeches: seq<Candidate>, duration: int)
  {
    exists b, a :: b in subtitles && a in speeches && a.AllAligned()
      && segments == Fill(b, a, duration) && language == b.language
  }

  lemma {:induction false} FillsChoice(subtitles: seq<Candidate>, speeches: seq<Candidate>, duration: int,
                                       tokens: string -> seq<string>)
    ensures match DecideFills(subtitles, speeches, duration, tokens)
      case Chosen(segments, language) =>
        Reasons(segments, duration, tokens) == {} && IsFill(segments, language, subtitles, speeches, duration)
      case Undecided => true
      case _ => false
  {
    hide Reasons, SortBy, Fill, DecideFill;
    if subtitles != [] {
      FillsChoice(subtitles[1..], speeches, duration, tokens);
      FillChoice(subtitles[0], speeches, duration, tokens);
      assert subtitles == [subtitles[0]] + subtitles[1..];
    }
  }

  ghost predicate OfficialsFailForCoverageAlone(candidates: seq<Candidate>, duration: int, tokens: string -> seq<string>) {
    forall c :: c in candidates && c.OfficialChinese() ==> FailsForCoverageAlone(c, duration, tokens)
  }

  lemma {:induction false} FromSorted(segments: seq<Segment>, language: string, group: seq<Candidate>, le: (Candidate, Candidate) -> bool)
    requires FromCandidate(segments, language, SortBy(group, le))
    ensures FromCandidate(segments, language, group)
  {
    MultisetMembers(SortBy(group, le), group);
  }

  lemma {:induction false} OfficialGroup(candidates: seq<Candidate>, duration: int, tokens: string -> seq<string>)
    requires DecideGroup(SortBy(Officials(candidates), CandidateLe), true, duration, tokens) == Undecided
    ensures OfficialsFailForCoverageAlone(candidates, duration, tokens)
  {
    var group := Officials(candidates);
    OfficialsUndecided(SortBy(group, CandidateLe), duration, tokens);
    MultisetMembers(SortBy(group, CandidateLe), group);
  }

  /** Where the decision may take a transcript from, official subtitles first. */
  ghost predicate Authorized(choice: Choice, candidates: seq<Candidate>, duration: int, tokens: string -> seq<string>) {
    match choice
    case Chosen(segments, language) =>
      && Reasons(segments, duration, tokens) == {}
      && (|| FromCandidate(segments, language, Officials(candidates))
          || (&& OfficialsFailForCoverageAlone(candidates, duration, tokens)
              && (|| FromCandidate(segments, language, Automatics(candidates))
                  || FromCandidate(segments, language, Speeches(candidates))
                  || IsFill(segments, language, Officials(candidates) + Automatics(candidates),
                            Speeches(candidates), duration))))
    case OfficialRejected(segments, language) => FromCandidate(segments, language, Officials(candidates))
    case Exhausted(_) => OfficialsFailForCoverageAlone(candidates, duration, tokens)
    case Undecided => false
  }

  /**
   * A chosen transcript has no reason against it, and it is an official Chinese subtitle as it
   * stands unless every official Chinese candidate fails for coverage and nothing else.
   */
  lemma {:induction false} OfficialAuthority(candidates: seq<Candidate>, duration: int, tokens: string -> seq<string>)
    ensures Authorized(Decide(candidates, duration, tokens), candidates, duration, tokens)
  {
    hide Reasons, DecideGroup;
    var choice := Decide(candidates, duration, tokens);
    var official, automatic, speech := Officials(candidates), Automatics(candidates), Speeches(candidates);
    var first := DecideGroup(SortBy(official, CandidateLe), true, duration, tokens);
    var second := DecideGroup(SortBy(automatic, CandidateLe), false, duration, tokens);
    var third := DecideGroup(SortBy(speech, CandidateLe), false, duration, tokens);
    GroupChosen(SortBy(official, CandidateLe), true, duration, tokens);
    if first != Undecided {
      FromSorted(choice.segments, choice.language, official, CandidateLe);
    } else {
      OfficialGroup(candidates, duration, tokens);
      GroupChosen(SortBy(automatic, CandidateLe), false, duration, tokens);
      GroupChosen(SortBy(speech, CandidateLe), false, duration, tokens);
      if second != Undecided {
        FromSorted(choice.segments, choice.language, automatic, CandidateLe);
      } else if third != Undecided {
        FromSorted(choice.segments, choice.language, speech, CandidateLe);
      } else {
        FillsChoice(SortBy(official + automatic, SubtitleLe), SortBy(speech, SpeechLe), duration, tokens);
        MultisetMembers(SortBy(official + automatic, SubtitleLe), official + automatic);
        MultisetMembers(SortBy(speech, SpeechLe), speech);
      }
    }
  }

  /** Whatever `Select` returns passed the gate: ordered, disjoint, in bounds, 90% complete, faithful. */
  lemma {:induction false} SelectedPasses(selection: Selection, candidates: seq<Candidate>, duration: int, tokens: string -> seq<string>)
    requires Realizes(selection, Decide(candidates, duration, tokens), duration, tokens)
    requires selection.Selected?
    ensures selection.report.status == Pass
    ensures SortedBy(selection.segments, KeyLe) && Disjoint(selection.segments)
    ensures InBounds(selection.segments, duration)
    ensures 10 * Measure(selection.segments, duration) >= 9 * duration
    ensures TokensPreserved(selection.segments, tokens)
  {
    OfficialAuthority(candidates, duration, tokens);
    PassMeans(selection.report, selection.segments, duration, selection.language, tokens);
  }

  // ----- Which candidate is chosen -----

  ghost predicate Passes(c: Candidate, duration: int, tokens: string -> seq<string>) {
    Reasons(c.OrderedSegments(), duration, tokens) == {}
  }

  ghost predicate FillPasses(subtitle: Candidate, speech: Candidate, duration: int, tokens: string -> seq<string>) {
    speech.AllAligned() && Reasons(Fill(subtitle, speech, duration), duration, tokens) == {}
  }

  /** By id, then by artifact id. */
  predicate ComesFirst(a: Candidate, b: Candidate) {
    StringLe(a.id, b.id) && (a.id == b.id ==> StringLe(a.artifactId, b.artifactId))
  }

  /** The first candidate that passes, in the order of the ids. */
  ghost predicate IsFirstPassing(choice: Choice, group: seq<Candidate>, duration: int, tokens: string -> seq<string>) {
    exists c :: c in group && choice == Chosen(c.OrderedSegments(), c.language) && Passes(c, duration, tokens)
      && forall other :: other in group && Passes(other, duration, tokens) ==> ComesFirst(c, other)
  }

  ghost predicate SomePasses(group: seq<Candidate>, duration: int, tokens: string -> seq<string>) {
    exists c :: c in group && Passes(c, duration, tokens)
  }

  ghost predicate SomeFillPasses(subtitles: seq<Candidate>, speeches: seq<Candidate>, duration: int, tokens: string -> seq<string>) {
    exists b, a :: b in subtitles && a in speeches && FillPasses(b, a, duration, tokens)
  }

  /** The first official candidate that does not merely lack coverage: it is taken when it passes, and rejected when not. */
  ghost predicate IsOfficialVerdict(choice: Choice, group: seq<Candidate>, duration: int, tokens: string -> seq<string>) {
    exists c :: c in group && !FailsForCoverageAlone(c, duration, tokens)
      && choice == (if Passes(c, duration, tokens) then Chosen(c.OrderedSegments(), c.language)
                    else OfficialRejected(c.OrderedSegments(), c.language))
      && forall other :: other in group && !FailsForCoverageAlone(other, duration, tokens) ==> ComesFirst(c, other)
  }

  /** No automatic subtitle waits behind an official one, and subtitles of one source are taken by id. */
  predicate FilledFirst(a: Candidate, b: Candidate) {
    (a.source.OfficialSubtitle? ==> b.source.OfficialSubtitle?) && (a.source == b.source ==> StringLe(a.id, b.id))
  }

  /** The filled subtitle of the first subtitle, automatic ones before official ones, and then the first speech that fills it. */
  ghost predicate IsFirstFill(choice: Choice, subtitles: seq<Candidate>, speeches: seq<Candidate>, duration: int,
                              tokens: string -> seq<string>)
  {
    exists b, a :: b in subtitles && a in speeches && FillPasses(b, a, duration, tokens)
      && choice == Chosen(Fill(b, a, duration), b.language)
      && (forall other, speech :: other in subtitles && speech in speeches && FillPasses(other, speech, duration, tokens) ==>
            FilledFirst(b, other))
      && (forall speech :: speech in speeches && FillPasses(b, speech, duration, tokens) ==> StringLe(a.id, speech.id))
  }

  /** The groups by the fields of the candidates: the language begins with the letters z and h in either case. */
  lemma {:induction false} GroupsByFields(candidates: seq<Candidate>, c: Candidate)
    ensures var chinese := |c.language| >= 2 && c.language[0] in ['z', 'Z'] && c.language[1] in ['h', 'H'];
      && (c in Officials(candidates) <==> c in candidates && c.source.OfficialSubtitle? && chinese)
      && (c in Automatics(candidates) <==> c in candidates && c.source.AutoSubtitle? && chinese)
      && (c in Speeches(candidates) <==> c in candidates && c.source.Asr?)
  {
  }

  /** The language of the first official Chinese candidate, else that of the first candidate, if there is one. */
  ghost predicate IsReportLanguage(language: string, candidates: seq<Candidate>) {
    if exists c :: c in candidates && c.OfficialChinese()
    then exists k :: 0 <= k < |candidates| && candidates[k].OfficialChinese() && candidates[k].language == language
           && forall j :: 0 <= j < k ==> !candidates[j].OfficialChinese()
    else language == if candidates == [] then "und" else candidates[0].language
  }

  lemma {:induction false} FallbackIsReportLanguage(candidates: seq<Candidate>)
    ensures IsReportLanguage(FallbackLanguage(candidates), candidates)
  {
    assert Officials(candidates) != [] ==> Officials(candidates)[0] in Officials(candidates);
    if exists c :: c in candidates && c.OfficialChinese() { var k := FirstOfficial(candidates); }
  }

  lemma {:induction false} FirstOfficial(candidates: seq<Candidate>) returns (k: nat)
    requires exists c :: c in candidates && c.OfficialChinese()
    ensures k < |candidates| && candidates[k].OfficialChinese() && forall j :: 0 <= j < k ==> !candidates[j].OfficialChinese()
    ensures Officials(candidates) != [] && Officials(candidates)[0] == candidates[k]
  {
    assert candidates == [candidates[0]] + candidates[1..];
    if candidates[0].OfficialChinese() {
      k := 0;
    } else {
      k := FirstOfficial(candidates[1..]);
      k := k + 1;
    }
  }

  /**
   * The tiers, by the facts of the candidates alone: official Chinese subtitles unless all lack coverage alone, then
   * automatic Chinese subtitles, then speech, then subtitles filled with aligned speech, and then nothing.
   */
  ghost predicate FollowsTiers(choice: Choice, candidates: seq<Candidate>, duration: int, tokens: string -> seq<string>) {
    var official, automatic, speech := Officials(candidates), Automatics(candidates), Speeches(candidates);
    if exists c :: c in official && !FailsForCoverageAlone(c, duration, tokens)
    then IsOfficialVerdict(choice, official, duration, tokens)
    else if SomePasses(automatic, duration, tokens) then IsFirstPassing(choice, automatic, duration, tokens)
    else if SomePasses(speech, duration, tokens) then IsFirstPassing(choice, speech, duration, tokens)
    else if SomeFillPasses(official + automatic, speech, duration, tokens)
    then IsFirstFill(choice, official + automatic, speech, duration, tokens)
    else choice.Exhausted? && IsReportLanguage(choice.language, candidates)
  }

  lemma {:induction false} SearchedFor(group: seq<Candidate>, official: bool, duration: int, tokens: string -> seq<string>)
    returns (k: nat)
    ensures k <= |group|
    ensures forall j :: 0 <= j < k ==>
      !Passes(group[j], duration, tokens) && (official ==> FailsForCoverageAlone(group[j], duration, tokens))
    ensures DecideGroup(group, official, duration, tokens) ==
      if k == |group| then Undecided
      else if Passes(group[k], duration, tokens) then Chosen(group[k].OrderedSegments(), group[k].language)
      else OfficialRejected(group[k].OrderedSegments(), group[k].language)
    ensures k < |group| ==>
      Passes(group[k], duration, tokens) || (official && !FailsForCoverageAlone(group[k], duration, tokens))
  {
    hide Reasons, SortBy;
    if group == [] {
      k := 0;
    } else if Passes(group[0], duration, tokens) || (official && !FailsForCoverageAlone(group[0], duration, tokens)) {
      k := 0;
      FailsAlone(Reasons(group[0].OrderedSegments(), duration, tokens));
    } else {
      FailsAlone(Reasons(group[0].OrderedSegments(), duration, tokens));
      var rest := SearchedFor(group[1..], official, duration, tokens);
      k := rest + 1;
      assert forall j :: 0 < j < |group| ==> group[j] == group[1..][j - 1];
    }
  }

  lemma {:induction false} FailsAlone(reasons: set<Reason>)
    ensures reasons == {CoverageBelow90Percent} <==> reasons != {} && reasons - {CoverageBelow90Percent} == {}
  {
    if reasons != {} && reasons - {CoverageBelow90Percent} == {} { OnlyCoverage(reasons); }
  }

  /** Whoever is not before the k-th candidate of the sorted group comes after it. */
  lemma {:induction false} OthersComeAfter(sorted: seq<Candidate>, k: nat, other: Candidate)
    requires SortedBy(sorted, CandidateLe) && k < |sorted| && other in sorted
    ensures other in sorted[..k] || ComesFirst(sorted[k], other)
  {
    var j :| 0 <= j < |sorted| && sorted[j] == other;
    StringLeTotal(other.id, other.id);
    StringLeTotal(other.artifactId, other.artifactId);
    if j < k { assert sorted[..k][j] == other; }
    if j > k { assert CandidateLe(sorted[k], sorted[j]); }
  }

  /** What a search through a sorted group decides, by the facts of its candidates. */
  lemma {:induction false} GroupFollows(group: seq<Candidate>, official: bool, duration: int, tokens: string -> seq<string>)
    ensures var choice := DecideGroup(SortBy(group, CandidateLe), official, duration, tokens);
      && (official ==>
            if exists c :: c in group && !FailsForCoverageAlone(c, duration, tokens)
            then IsOfficialVerdict(choice, group, duration, tokens) else choice == Undecided)
      && (!official ==>
            if SomePasses(group, duration, tokens) then IsFirstPassing(choice, group, duration, tokens) else choice == Undecided)
  {
    hide Reasons, SortBy, DecideGroup, CandidateLe, ComesFirst;
    var sorted := SortBy(group, CandidateLe);
    CandidateOrders();
    SortBySorted(group, CandidateLe);
    MultisetMembers(sorted, group);
    var k := SearchedFor(sorted, official, duration, tokens);
    forall other | other in sorted && k < |sorted| ensures other in sorted[..k] || ComesFirst(sorted[k], other) {
      OthersComeAfter(sorted, k, other);
    }
    assert forall other :: other in sorted[..k] ==>
      !Passes(other, duration, tokens) && (official ==> FailsForCoverageAlone(other, duration, tokens));
    assert forall c :: Passes(c, duration, tokens) ==> !FailsForCoverageAlone(c, duration, tokens);
    if k < |sorted| {
      assert sorted[k] in group;
    } else {
      assert sorted[..k] == sorted;
    }
  }

  lemma {:induction false} FillSearchedFor(subtitle: Candidate, speeches: seq<Candidate>, duration: int, tokens: string -> seq<string>)
    returns (k: nat)
    ensures k <= |speeches|
    ensures forall j :: 0 <= j < k ==> !FillPasses(subtitle, speeches[j], duration, tokens)
    ensures k < |speeches| ==> FillPasses(subtitle, speeches[k], duration, tokens)
    ensures DecideFill(subtitle, speeches, duration, tokens) ==
      if k == |speeches| then Undecided else Chosen(Fill(subtitle, speeches[k], duration), subtitle.language)
  {
    hide Reasons, SortBy, Fill;
    if speeches == [] || FillPasses(subtitle, speeches[0], duration, tokens) {
      k := 0;
    } else {
      var rest := FillSearchedFor(subtitle, speeches[1..], duration, tokens);
      k := rest + 1;
      assert forall j :: 0 < j < |speeches| ==> speeches[j] == speeches[1..][j - 1];
    }
  }

  lemma {:induction false} FillsSearchedFor(subtitles: seq<Candidate>, speeches: seq<Candidate>, duration: int, tokens: string -> seq<string>)
    returns (k: nat)
    ensures k <= |subtitles|
    ensures forall j :: 0 <= j < k ==> DecideFill(subtitles[j], speeches, duration, tokens) == Undecided
    ensures k < |subtitles| ==> DecideFill(subtitles[k], speeches, duration, tokens) != Undecided
    ensures DecideFills(subtitles, speeches, duration, tokens) ==
      if k == |subtitles| then Undecided else DecideFill(subtitles[k], speeches, duration, tokens)
  {
    hide DecideFill;
    if subtitles == [] || DecideFill(subtitles[0], speeches, duration, tokens) != Undecided {
      k := 0;
    } else {
      var rest := FillsSearchedFor(subtitles[1..], speeches, duration, tokens);
      k := rest + 1;
      assert forall j :: 0 < j < |subtitles| ==> subtitles[j] == subtitles[1..][j - 1];
    }
  }

  lemma {:induction false} FillsFollow(subtitles: seq<Candidate>, speeches: seq<Candidate>, duration: int, tokens: string -> seq<string>)
    ensures var choice := DecideFills(SortBy(subtitles, SubtitleLe), SortBy(speeches, SpeechLe), duration, tokens);
      if SomeFillPasses(subtitles, speeches, duration, tokens) then IsFirstFill(choice, subtitles, speeches, duration, tokens)
      else choice == Undecided
  {
    hide Reasons, SortBy, DecideFill, DecideFills, SubtitleLe, Fill, FillPasses;
    var subs, asr := SortBy(subtitles, SubtitleLe), SortBy(speeches, SpeechLe);
    CandidateOrders();
    SortBySorted(subtitles, SubtitleLe);
    SortBySorted(speeches, SpeechLe);
    MultisetMembers(subs, subtitles);
    MultisetMembers(asr, speeches);
    var k := FillsSearchedFor(subs, asr, duration, tokens);
    forall j | 0 <= j < k ensures forall a :: a in speeches ==> !FillPasses(subs[j], a, duration, tokens) {
      var m := FillSearchedFor(subs[j], asr, duration, tokens);
    }
    if k < |subs| {
      var b := subs[k];
      var m := FillSearchedFor(b, asr, duration, tokens);
      var a := asr[m];
      assert b in subtitles && a in speeches;
      forall other, speech | other in subtitles && speech in speeches && FillPasses(other, speech, duration, tokens)
        ensures FilledFirst(b, other)
      {
        var j :| 0 <= j < |subs| && subs[j] == other;
        assert j >= k;
        assert j > k ==> SubtitleLe(subs[k], subs[j]);
        FilledInOrder(b, other);
      }
      forall speech | speech in speeches && FillPasses(b, speech, duration, tokens) ensures StringLe(a.id, speech.id) {
        var j :| 0 <= j < |asr| && asr[j] == speech;
        assert j >= m;
        StringLeTotal(a.id, a.id);
        assert j > m ==> SpeechLe(asr[m], asr[j]);
      }
    } else {
      forall other, speech | other in subtitles && speech in speeches ensures !FillPasses(other, speech, duration, tokens) {
        var j :| 0 <= j < |subs| && subs[j] == other;
      }
    }
  }

  lemma {:induction false} FilledInOrder(b: Candidate, other: Candidate)
    requires b == other || SubtitleLe(b, other)
    ensures FilledFirst(b, other)
  {
    StringLeTotal(b.id, b.id);
  }

  lemma {:induction false} NeverUndecided(official: seq<Candidate>, automatic: seq<Candidate>, speech: seq<Candidate>, duration: int,
                                          tokens: string -> seq<string>)
    ensures !IsOfficialVerdict(Undecided, official, duration, tokens)
    ensures !IsFirstPassing(Undecided, automatic, duration, tokens) && !IsFirstPassing(Undecided, speech, duration, tokens)
    ensures !IsFirstFill(Undecided, official + automatic, speech, duration, tokens)
  {
    hide Reasons, SortBy;
  }

  /** The decision follows the tiers, and within a tier the order of the ids. */
  lemma {:induction false} DecisionFollowsTiers(candidates: seq<Candidate>, duration: int, tokens: string -> seq<string>)
    ensures FollowsTiers(Decide(candidates, duration, tokens), candidates, duration, tokens)
  {
    hide Reasons, SortBy, DecideGroup, DecideFills, Filter, FailsForCoverageAlone, IsOfficialVerdict, IsFirstPassing, IsFirstFill,
      SomePasses, SomeFillPasses, FallbackLanguage, IsReportLanguage;
    var official, automatic, speech := Officials(candidates), Automatics(candidates), Speeches(candidates);
    GroupFollows(official, true, duration, tokens);
    GroupFollows(automatic, false, duration, tokens);
    GroupFollows(speech, false, duration, tokens);
    FillsFollow(official + automatic, speech, duration, tokens);
    NeverUndecided(official, automatic, speech, duration, tokens);
    FallbackIsReportLanguage(candidates);
  }

  // ----- The order of the candidates does not matter -----

  ghost predicate DistinctIds(candidates: seq<Candidate>) {
    forall a, b :: a in candidates && b in candidates && a.id == b.id ==> a == b
  }

  lemma {:induction false} FilterCount<T(!new)>(s: seq<T>, keep: T -> bool, x: T)
    ensures multiset(Filter(s, keep))[x] == if keep(x) then multiset(s)[x] else 0
  {
    if s != [] {
      FilterCount(s[1..], keep, x);
      assert s == [s[0]] + s[1..];
    }
  }

  lemma {:induction false} FilterPermutation<T(!new)>(s: seq<T>, t: seq<T>, keep: T -> bool)
    requires multiset(s) == multiset(t)
    ensures multiset(Filter(s, keep)) == multiset(Filter(t, keep))
  {
    forall x ensures multiset(Filter(s, keep))[x] == multiset(Filter(t, keep))[x] {
      FilterCount(s, keep, x);
      FilterCount(t, keep, x);
    }
  }

  lemma {:induction false} CandidateOrders()
    ensures TotalPreorder(CandidateLe) && TotalPreorder(SubtitleLe) && TotalPreorder(SpeechLe)
  {
    StringLeOrder();
    forall a: string, b: string ensures StringLe(a, b) && StringLe(b, a) ==> a == b { StringLeTotal(a, b); }
  }

  ghost predicate TieFree(s: seq<Candidate>, le: (Candidate, Candidate) -> bool) {
    forall x, y :: x in s && y in s && le(x, y) && le(y, x) ==> x == y
  }

  lemma {:induction false} SortPermutation(s: seq<Candidate>, t: seq<Candidate>, le: (Candidate, Candidate) -> bool)
    requires TotalPreorder(le) && multiset(s) == multiset(t) && TieFree(s, le)
    ensures SortBy(s, le) == SortBy(t, le)
  {
    SortBySorted(s, le);
    SortBySorted(t, le);
    MultisetMembers(SortBy(s, le), s);
    SortedUnique(SortBy(s, le), SortBy(t, le), le);
  }

  lemma {:induction false} IdsBreakTies(candidates: seq<Candidate>, s: seq<Candidate>)
    requires DistinctIds(candidates) && forall c :: c in s ==> c in candidates
    ensures TieFree(s, CandidateLe) && TieFree(s, SubtitleLe) && TieFree(s, SpeechLe)
  {
    forall a: string, b: string ensures StringLe(a, b) && StringLe(b, a) ==> a == b { StringLeTotal(a, b); }
  }

  lemma {:induction false} GroupPermutation(candidates: seq<Candidate>, shuffled: seq<Candidate>, keep: Candidate -> bool,
                         le: (Candidate, Candidate) -> bool)
    requires multiset(candidates) == multiset(shuffled)
    requires TotalPreorder(le) && TieFree(candidates, le)
    ensures multiset(Filter(candidates, keep)) == multiset(Filter(shuffled, keep))
    ensures SortBy(Filter(candidates, keep), le) == SortBy(Filter(shuffled, keep), le)
  {
    FilterPermutation(candidates, shuffled, keep);
    SortPermutation(Filter(candidates, keep), Filter(shuffled, keep), le);
  }

  /** Both lists have official Chinese candidates of which the first agree, or none has and the first candidates agree. */
  predicate FirstLanguagesAgree(s: seq<Candidate>, t: seq<Candidate>) {
    if Officials(s) != [] && Officials(t) != [] then Officials(s)[0].language == Officials(t)[0].language
    else s != [] && t != [] ==> s[0].language == t[0].language
  }

  /**
   * With distinct ids every order of the candidates gives the same transcript, or rejects the same official candidate. When
   * nothing passes, the reports are equal exactly when the first official Chinese candidates have one language, or, with
   * none, the first candidates do.
   */
  lemma {:induction false} OrderIndependence(candidates: seq<Candidate>, shuffled: seq<Candidate>, duration: int,
                          tokens: string -> seq<string>)
    requires multiset(candidates) == multiset(shuffled) && DistinctIds(candidates)
    ensures var a, b := Decide(candidates, duration, tokens), Decide(shuffled, duration, tokens);
      && (a.Exhausted? <==> b.Exhausted?)
      && (a == b <==> !a.Exhausted? || FirstLanguagesAgree(candidates, shuffled))
  {
    hide DecideGroup, DecideFills, SortBy, Filter;
    CandidateOrders();
    IdsBreakTies(candidates, candidates);
    GroupPermutation(candidates, shuffled, IsOfficialChinese, CandidateLe);
    GroupPermutation(candidates, shuffled, IsAutoChinese, CandidateLe);
    GroupPermutation(candidates, shuffled, IsSpeech, CandidateLe);
    GroupPermutation(candidates, shuffled, IsSpeech, SpeechLe);
    SortPermutation(Officials(candidates) + Automatics(candidates), Officials(shuffled) + Automatics(shuffled), SubtitleLe);
    SameLength(candidates, shuffled);
    SameLength(Officials(candidates), Officials(shuffled));
    NeverExhausted(candidates, duration, tokens);
    NeverExhausted(shuffled, duration, tokens);
  }

  lemma {:induction false} SameLength(s: seq<Candidate>, t: seq<Candidate>)
    requires multiset(s) == multiset(t)
    ensures |s| == |t|
  {
    assert |multiset(s)| == |s| && |multiset(t)| == |t|;
  }

  /** Only the fallback is exhausted. */
  lemma {:induction false} NeverExhausted(candidates: seq<Candidate>, duration: int, tokens: string -> seq<string>)
    ensures !DecideGroup(SortBy(Officials(candidates), CandidateLe), true, duration, tokens).Exhausted?
    ensures !DecideGroup(SortBy(Automatics(candidates), CandidateLe), false, duration, tokens).Exhausted?
    ensures !DecideGroup(SortBy(Speeches(candidates), CandidateLe), false, duration, tokens).Exhausted?
    ensures !DecideFills(SortBy(Officials(candidates) + Automatics(candidates), SubtitleLe), SortBy(Speeches(candidates), SpeechLe),
                         duration, tokens).Exhausted?
  {
    hide DecideGroup, DecideFills, SortBy, Filter, Reasons;
    GroupChosen(SortBy(Officials(candidates), CandidateLe), true, duration, tokens);
    GroupChosen(SortBy(Automatics(candidates), CandidateLe), false, duration, tokens);
    GroupChosen(SortBy(Speeches(candidates), CandidateLe), false, duration, tokens);
    FillsChoice(SortBy(Officials(candidates) + Automatics(candidates), SubtitleLe), SortBy(Speeches(candidates), SpeechLe), duration, tokens);
  }

  /** All official Chinese candidates have one language, or, with none, all candidates do. */
  ghost predicate LanguagesAgree(candidates: seq<Candidate>) {
    OneLanguage(if Officials(candidates) != [] then Officials(candidates) else candidates)
  }

  ghost predicate OneLanguage(s: seq<Candidate>) { forall k :: 0 <= k < |s| ==> s[k].language == s[0].language }

  /** When nothing passes, the report is the same for every order exactly when the candidates it may name have one language. */
  lemma {:induction false} ReportIgnoresOrderExactlyWhen(candidates: seq<Candidate>, duration: int, tokens: string -> seq<string>)
    requires DistinctIds(candidates) && Decide(candidates, duration, tokens).Exhausted?
    ensures (forall shuffled :: multiset(shuffled) == multiset(candidates) ==>
               Decide(shuffled, duration, tokens) == Decide(candidates, duration, tokens))
            <==> LanguagesAgree(candidates)
  {
    hide Decide, DecideGroup, SortBy, Filter;
    if LanguagesAgree(candidates) {
      forall shuffled | multiset(shuffled) == multiset(candidates)
        ensures Decide(shuffled, duration, tokens) == Decide(candidates, duration, tokens)
      {
        OrderIndependence(candidates, shuffled, duration, tokens);
        AgreeingFirsts(candidates, shuffled);
      }
    } else {
      var shuffled := OtherFirst(candidates);
      OrderIndependence(candidates, shuffled, duration, tokens);
    }
  }

  lemma {:induction false} AgreeingFirsts(candidates: seq<Candidate>, shuffled: seq<Candidate>)
    requires multiset(shuffled) == multiset(candidates) && LanguagesAgree(candidates)
    ensures FirstLanguagesAgree(candidates, shuffled)
  {
    hide Filter;
    FilterPermutation(candidates, shuffled, IsOfficialChinese);
    SameLength(candidates, shuffled);
    SameLength(Officials(candidates), Officials(shuffled));
    var s, t := Officials(candidates), Officials(shuffled);
    if s != [] {
      MultisetMembers(s, t);
      assert t[0] in t;
      var j :| 0 <= j < |s| && s[j] == t[0];
    } else if candidates != [] {
      MultisetMembers(candidates, shuffled);
      assert shuffled[0] in shuffled;
      var j :| 0 <= j < |candidates| && candidates[j] == shuffled[0];
    }
  }

  /** An order that puts a candidate of another language first. */
  lemma {:induction false} OtherFirst(candidates: seq<Candidate>) returns (shuffled: seq<Candidate>)
    requires !LanguagesAgree(candidates)
    ensures multiset(shuffled) == multiset(candidates) && !FirstLanguagesAgree(candidates, shuffled)
  {
    hide Filter;
    var officials := Officials(candidates);
    var named := if officials != [] then officials else candidates;
    var j :| 0 <= j < |named| && named[j].language != named[0].language;
    var x := named[j];
    assert x in candidates && (officials != [] ==> IsOfficialChinese(x)) by {
      if officials != [] { FilterMember(candidates, IsOfficialChinese, x); }
    }
    var rest := Without(candidates, x);
    shuffled := [x] + rest;
    FilterPermutation(candidates, shuffled, IsOfficialChinese);
    SameLength(officials, Officials(shuffled));
    SameLength(candidates, shuffled);
    if officials != [] { FilterFirst(x, rest, IsOfficialChinese); }
  }

  lemma {:induction false} Without<T>(s: seq<T>, x: T) returns (rest: seq<T>)
    requires x in s
    ensures multiset([x] + rest) == multiset(s)
  {
    var k :| 0 <= k < |s| && s[k] == x;
    rest := s[..k] + s[k + 1..];
    assert s == s[..k] + [x] + s[k + 1..];
  }

  lemma {:induction false} FilterMember<T(!new)>(s: seq<T>, keep: T -> bool, x: T)
    requires x in Filter(s, keep)
    ensures x in s && keep(x)
  {
    FilterCount(s, keep, x);
    assert x in multiset(Filter(s, keep));
    assert x in multiset(s);
  }

  lemma {:induction false} FilterFirst<T(!new)>(x: T, rest: seq<T>, keep: T -> bool)
    requires keep(x)
    ensures Filter([x] + rest, keep) == [x] + Filter(rest, keep)
  {
    assert ([x] + rest)[1..] == rest;
  }

  lemma {:induction false} NoSegmentsFail(duration: int, tokens: string -> seq<string>)
    requires duration > 0
    ensures Reasons([], duration, tokens) == {CoverageBelow90Percent}
  {
    NothingMeasured(duration);
  }

  lemma {:induction false} NothingMeasured(hi: int)
    ensures Measure([], hi) == 0
  {
    if hi > 0 { NothingMeasured(hi - 1); }
  }

  lemma {:induction false} CoverageFailuresUndecided(group: seq<Candidate>, official: bool, duration: int, tokens: string -> seq<string>)
    requires forall k :: 0 <= k < |group| ==> FailsForCoverageAlone(group[k], duration, tokens)
    ensures DecideGroup(group, official, duration, tokens) == Undecided
  {
    hide Reasons;
    if group != [] {
      assert FailsForCoverageAlone(group[0], duration, tokens);
      CoverageFailuresUndecided(group[1..], official, duration, tokens);
    }
  }

  /** Two official Chinese candidates without segments, in two languages: the report names whichever comes first. */
  lemma {:induction false} TwoOfficialsExample(a: Candidate, b: Candidate, duration: int, tokens: string -> seq<string>)
    requires duration > 0 && a.OfficialChinese() && b.OfficialChinese() && a.segments == b.segments == []
    ensures Decide([a, b], duration, tokens) == Exhausted(a.language)
    ensures Decide([b, a], duration, tokens) == Exhausted(b.language)
  {
    hide Reasons;
    EmptyOfficials(a, b, duration, tokens);
    EmptyOfficials(b, a, duration, tokens);
  }

  lemma {:induction false} EmptyOfficials(a: Candidate, b: Candidate, duration: int, tokens: string -> seq<string>)
    requires duration > 0 && a.OfficialChinese() && b.OfficialChinese() && a.segments == b.segments == []
    ensures Decide([a, b], duration, tokens) == Exhausted(a.language)
  {
    hide Reasons, SortBy, DecideGroup, DecideFills, Filter;
    var both := [a, b];
    FilterAll(both, IsOfficialChinese);
    FilterNone(both, IsAutoChinese);
    FilterNone(both, IsSpeech);
    NothingSorted();
    BothFail(a, b, duration, tokens);
    NothingDecided(SortBy(both + [], SubtitleLe), duration, tokens);
  }

  lemma {:induction false} BothFail(a: Candidate, b: Candidate, duration: int, tokens: string -> seq<string>)
    requires duration > 0 && a.segments == b.segments == []
    ensures DecideGroup(SortBy([a, b], CandidateLe), true, duration, tokens) == Undecided
  {
    hide SortBy, DecideGroup, FailsForCoverageAlone;
    EmptyFails(a, duration, tokens);
    EmptyFails(b, duration, tokens);
    var sorted := SortBy([a, b], CandidateLe);
    MultisetMembers(sorted, [a, b]);
    forall k | 0 <= k < |sorted| ensures FailsForCoverageAlone(sorted[k], duration, tokens) {
      assert sorted[k] in sorted;
    }
    CoverageFailuresUndecided(sorted, true, duration, tokens);
  }

  lemma {:induction false} EmptyFails(c: Candidate, duration: int, tokens: string -> seq<string>)
    requires duration > 0 && c.segments == []
    ensures FailsForCoverageAlone(c, duration, tokens)
  {
    hide Reasons;
    NoSegmentsFail(duration, tokens);
  }

  lemma {:induction false} FilterNone<T(!new)>(s: seq<T>, keep: T -> bool)
    requires forall k :: 0 <= k < |s| ==> !keep(s[k])
    ensures Filter(s, keep) == []
  {
    if s != [] { FilterNone(s[1..], keep); }
  }

  lemma {:induction false} NothingSorted()
    ensures SortBy<Segment>([], KeyLe) == [] && SortBy<Candidate>([], CandidateLe) == [] && SortBy<Candidate>([], SpeechLe) == []
  {
  }

  lemma {:induction false} NothingDecided(subtitles: seq<Candidate>, duration: int, tokens: string -> seq<string>)
    ensures DecideGroup([], false, duration, tokens) == Undecided && DecideFills(subtitles, [], duration, tokens) == Undecided
  {
    if subtitles != [] { NothingDecided(subtitles[1..], duration, tokens); }
  }
}
