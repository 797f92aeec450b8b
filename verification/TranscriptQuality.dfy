/** Transcript segments and the formal quality gate (application/transcript_quality_service.py). */
module TranscriptQuality {
  import opened Ordering

  datatype Source = OfficialSubtitle | AutoSubtitle | Asr

  datatype Alignment = Aligned | Unaligned | Unknown

  datatype SegmentData = SegmentData(
    source: Source, artifactId: string, start: int, end: int,
    rawText: string, normalizedText: string, alignment: Alignment)

  /** The constructor's contract on the timestamps, in milliseconds. */
  type Segment = s: SegmentData | 0 <= s.start < s.end
    witness SegmentData(Asr, "a", 0, 1, "x", "x", Aligned)

  datatype Reason = OutOfBounds | NonMonotonicOrOverlap | CoverageBelow90Percent | HardFactTokenMutation

  datatype Status = Pass | RetryableAsr | NeedsReview

  datatype Report = Report(
    duration: int, covered: int, maxGap: int, overlap: int, monotonic: bool,
    language: string, status: Status, reasons: set<Reason>)

  datatype Outcome = Evaluated(report: Report) | DurationInvalid

  type Interval = (int, int)

  function Min(a: int, b: int): int { if a <= b then a else b }

  function Max(a: int, b: int): int { if a <= b then b else a }

  // ----- Order of segments -----

  /** `(start, end, artifact id, raw text, normalized text)`, compared lexicographically. */
  predicate KeyLe(a: Segment, b: Segment) {
    if a.start != b.start then a.start < b.start
    else if a.end != b.end then a.end < b.end
    else if a.artifactId != b.artifactId then StringLe(a.artifactId, b.artifactId)
    else if a.rawText != b.rawText then StringLe(a.rawText, b.rawText)
    else StringLe(a.normalizedText, b.normalizedText)
  }

  /** The field decides where two segments differ first: start, end, artifact, raw text, normalized text. */
  lemma {:induction false} KeyOrderMeans(a: Segment, b: Segment)
    ensures a.start < b.start ==> !KeyLe(b, a)
    ensures a.start == b.start && a.end < b.end ==> !KeyLe(b, a)
    ensures a.start == b.start && a.end == b.end && a.artifactId != b.artifactId ==> (KeyLe(a, b) <==> StringLe(a.artifactId, b.artifactId))
    ensures a.start == b.start && a.end == b.end && a.artifactId == b.artifactId && a.rawText != b.rawText ==>
      (KeyLe(a, b) <==> StringLe(a.rawText, b.rawText))
    ensures KeyLe(a, b) && KeyLe(b, a) <==>
      && a.start == b.start && a.end == b.end && a.artifactId == b.artifactId && a.rawText == b.rawText
      && a.normalizedText == b.normalizedText
  {
    StringLeTotal(a.artifactId, b.artifactId);
    StringLeTotal(a.rawText, b.rawText);
    StringLeTotal(a.normalizedText, b.normalizedText);
  }

  lemma {:induction false} KeyLeOrder()
    ensures TotalPreorder(KeyLe)
  {
    forall a, b ensures KeyLe(a, b) || KeyLe(b, a) {
      StringLeTotal(a.artifactId, b.artifactId);
      StringLeTotal(a.rawText, b.rawText);
      StringLeTotal(a.normalizedText, b.normalizedText);
    }
    forall a, b, c | KeyLe(a, b) && KeyLe(b, c) ensures KeyLe(a, c) { KeyLeTransitive(a, b, c); }
  }

  lemma {:induction false} KeyLeTransitive(a: Segment, b: Segment, c: Segment)
    requires KeyLe(a, b) && KeyLe(b, c)
    ensures KeyLe(a, c)
  {
    StringLeTotal(a.artifactId, b.artifactId);
    StringLeTotal(b.artifactId, c.artifactId);
    StringLeTotal(a.rawText, b.rawText);
    StringLeTotal(b.rawText, c.rawText);
    StringLeOrder();
  }

  ghost predicate Disjoint(segments: seq<Segment>) {
    forall i :: 0 <= i < |segments| - 1 ==> segments[i].end <= segments[i + 1].start
  }

  ghost predicate Monotonic(segments: seq<Segment>) {
    SortedBy(segments, KeyLe) && Disjoint(segments)
  }

  // ----- What is to be measured -----

  ghost predicate CoveredAt(segments: seq<Segment>, t: int) {
    exists s :: s in segments && s.start <= t < s.end
  }

  /** The number of milliseconds in `[0, hi)` that lie in some segment. */
  ghost function Measure(segments: seq<Segment>, hi: int): nat {
    if hi <= 0 then 0 else Measure(segments, hi - 1) + (if CoveredAt(segments, hi - 1) then 1 else 0)
  }

  /** How far, in total, segments start beyond the duration. */
  function Overshoot(segments: seq<Segment>, duration: int): nat {
    if segments == [] then 0 else Max(0, segments[0].start - duration) + Overshoot(segments[1..], duration)
  }

  /** Total length of the segments, each cut off at the duration. */
  function ClippedLength(segments: seq<Segment>, duration: int): int {
    if segments == [] then 0
    else Min(segments[0].end, duration) - segments[0].start + ClippedLength(segments[1..], duration)
  }

  ghost predicate Uncovered(segments: seq<Segment>, a: int, b: int) {
    forall t :: a <= t < b ==> !CoveredAt(segments, t)
  }

  ghost predicate LongestUncoveredRun(segments: seq<Segment>, duration: int, length: int) {
    && (exists a, b :: 0 <= a <= b <= duration && b - a == length && Uncovered(segments, a, b))
    && (forall a, b :: 0 <= a <= b <= duration && Uncovered(segments, a, b) ==> b - a <= length)
  }

  function RawTokens(segments: seq<Segment>, tokens: string -> seq<string>): seq<string> {
    if segments == [] then [] else tokens(segments[0].rawText) + RawTokens(segments[1..], tokens)
  }

  function NormalizedTokens(segments: seq<Segment>, tokens: string -> seq<string>): seq<string> {
    if segments == [] then [] else tokens(segments[0].normalizedText) + NormalizedTokens(segments[1..], tokens)
  }

  /** No hard fact token of the raw text is lost: multiplicities count, order does not. */
  ghost predicate TokensPreserved(segments: seq<Segment>, tokens: string -> seq<string>) {
    multiset(RawTokens(segments, tokens)) <= multiset(NormalizedTokens(segments, tokens))
  }

  /** The value the sweep computes; `CoverageIsMeasure` says when it is the true measure. */
  ghost function CoveredMs(segments: seq<Segment>, duration: int): int {
    Measure(segments, duration) - Overshoot(segments, duration)
  }

  ghost predicate InBounds(segments: seq<Segment>, duration: int) {
    forall s :: s in segments ==> s.end <= duration
  }

  function ReasonSet(inBounds: bool, monotonic: bool, short: bool, kept: bool): set<Reason> {
    (if inBounds then {} else {OutOfBounds})
    + (if monotonic then {} else {NonMonotonicOrOverlap})
    + (if short then {CoverageBelow90Percent} else {})
    + (if kept then {} else {HardFactTokenMutation})
  }

  ghost predicate CoverageShort(segments: seq<Segment>, duration: int) {
    10 * CoveredMs(segments, duration) < 9 * duration
  }

  ghost function Reasons(segments: seq<Segment>, duration: int, tokens: string -> seq<string>): set<Reason> {
    ReasonSet(InBounds(segments, duration), Monotonic(segments),
              CoverageShort(segments, duration), TokensPreserved(segments, tokens))
  }

  function StatusOf(reasons: set<Reason>): Status {
    if reasons == {} then Pass
    else if reasons == {CoverageBelow90Percent} then RetryableAsr
    else NeedsReview
  }

  // ----- The sweep over interval lists -----

  function SumLengths(union: seq<Interval>): int {
    if union == [] then 0 else SumLengths(union[..|union| - 1]) + union[|union| - 1].1 - union[|union| - 1].0
  }

  function InnerGaps(union: seq<Interval>): seq<int> {
    if |union| < 2 then [] else [union[1].0 - union[0].1] + InnerGaps(union[1..])
  }

  function Gaps(union: seq<Interval>, duration: int): (r: seq<int>)
    ensures r != []
  {
    if union == [] then [duration]
    else InnerGaps(union) + [union[0].0, duration - union[|union| - 1].1]
  }

  function Sum(values: seq<int>): int {
    if values == [] then 0 else values[0] + Sum(values[1..])
  }

  function Maximum(values: seq<int>): (m: int)
    requires values != []
    ensures m in values
    ensures forall v :: v in values ==> v <= m
  {
    assert values == [values[0]] + values[1..];
    if |values| == 1 then values[0] else Max(values[0], Maximum(values[1..]))
  }

  lemma {:induction false} SumSplit(a: seq<int>, b: seq<int>)
    ensures Sum(a + b) == Sum(a) + Sum(b)
  {
    if a == [] {
      assert a + b == b;
    } else {
      SumSplit(a[1..], b);
      assert (a + b)[1..] == a[1..] + b;
    }
  }

  lemma {:induction false} SumLengthsFront(union: seq<Interval>)
    requires union != []
    ensures SumLengths(union) == union[0].1 - union[0].0 + SumLengths(union[1..])
  {
    if |union| > 1 {
      var front := union[..|union| - 1];
      SumLengthsFront(front);
      assert front[1..] == union[1..][..|union| - 2];
    }
  }

  lemma {:induction false} InnerGapsSum(union: seq<Interval>)
    requires union != []
    ensures SumLengths(union) + Sum(InnerGaps(union)) == union[|union| - 1].1 - union[0].0
  {
    SumLengthsFront(union);
    if |union| > 1 { InnerGapsSum(union[1..]); }
  }

  /** Covered time and gaps account for the whole duration, whatever the interval list. */
  lemma {:induction false} GapsComplementUnion(union: seq<Interval>, duration: int)
    ensures SumLengths(union) + Sum(Gaps(union, duration)) == duration
  {
    if union != [] {
      var first, last := union[0].0, duration - union[|union| - 1].1;
      InnerGapsSum(union);
      SumSplit(InnerGaps(union), [first, last]);
      SumSplit([first], [last]);
      assert [first, last] == [first] + [last];
      assert Sum([first]) == first && Sum([last]) == last;
    }
  }

  // ----- Permutations do not change the totals -----

  lemma {:induction false} TotalsOfInsert(x: Segment, s: seq<Segment>, duration: int)
    ensures Overshoot(InsertBy(x, s, KeyLe), duration) == Max(0, x.start - duration) + Overshoot(s, duration)
    ensures ClippedLength(InsertBy(x, s, KeyLe), duration)
         == Min(x.end, duration) - x.start + ClippedLength(s, duration)
  {
    if s != [] && !KeyLe(x, s[0]) {
      TotalsOfInsert(x, s[1..], duration);
    }
  }

  lemma {:induction false} TotalsOfSort(s: seq<Segment>, duration: int)
    ensures Overshoot(SortBy(s, KeyLe), duration) == Overshoot(s, duration)
    ensures ClippedLength(SortBy(s, KeyLe), duration) == ClippedLength(s, duration)
  {
    if s != [] {
      TotalsOfSort(s[1..], duration);
      TotalsOfInsert(s[0], SortBy(s[1..], KeyLe), duration);
    }
  }

  lemma {:induction false} TotalsAppend(s: seq<Segment>, x: Segment, duration: int)
    ensures Overshoot(s + [x], duration) == Overshoot(s, duration) + Max(0, x.start - duration)
    ensures ClippedLength(s + [x], duration) == ClippedLength(s, duration) + Min(x.end, duration) - x.start
  {
    if s != [] {
      TotalsAppend(s[1..], x, duration);
      assert (s + [x])[1..] == s[1..] + [x];
    }
  }

  lemma {:induction false} MeasureSameCover(s: seq<Segment>, t: seq<Segment>, hi: int)
    requires forall x :: x in s <==> x in t
    ensures Measure(s, hi) == Measure(t, hi)
    decreases hi
  {
    if hi > 0 { MeasureSameCover(s, t, hi - 1); }
  }

  lemma {:induction false} MeasureNothing(hi: int)
    ensures Measure([], hi) == 0
    decreases hi
  {
    if hi > 0 { MeasureNothing(hi - 1); }
  }

  /** A further segment that adds exactly `[a, b)` to the covered time adds `b - a` to the measure. */
  lemma {:induction false} MeasureAppend(s: seq<Segment>, x: Segment, a: int, b: int, hi: int)
    requires 0 <= a <= b
    requires forall t :: 0 <= t < hi ==> (CoveredAt(s + [x], t) <==> CoveredAt(s, t) || a <= t < b)
    requires forall t :: a <= t < b && t < hi ==> !CoveredAt(s, t)
    ensures Measure(s + [x], hi) == Measure(s, hi) + Max(0, Min(b, hi) - Min(a, Max(hi, 0)))
    decreases hi
  {
    if hi > 0 { MeasureAppend(s, x, a, b, hi - 1); }
  }

  lemma {:induction false} CoveredAppend(s: seq<Segment>, x: Segment, t: int)
    ensures CoveredAt(s + [x], t) <==> CoveredAt(s, t) || x.start <= t < x.end
  {
    if CoveredAt(s, t) {
      var y :| y in s && y.start <= t < y.end;
      assert y in s + [x];
    }
    if x.start <= t < x.end { assert x in s + [x]; }
  }

  // ----- The sweep -----

  ghost predicate InUnion(union: seq<Interval>, t: int) {
    exists k :: 0 <= k < |union| && union[k].0 <= t < union[k].1
  }

  /** Ascending intervals with room between them, inside `[0, duration]`, only the last may be empty. */
  ghost predicate Separated(union: seq<Interval>, duration: int) {
    && (forall k :: 0 <= k < |union| ==> 0 <= union[k].0 <= union[k].1 <= duration)
    && (forall k :: 0 <= k < |union| ==> union[k].0 < union[k].1 || union[k].0 == duration)
    && (forall j, k :: 0 <= j < k < |union| ==> union[j].1 < union[k].0)
  }

  ghost predicate StartsWithin(segments: seq<Segment>, duration: int) {
    forall s :: s in segments ==> s.start <= duration
  }

  /** The last interval is where the next segment, which starts no earlier, has to be compared. */
  ghost predicate Frontier(done: seq<Segment>, union: seq<Interval>, duration: int)
    requires done != []
  {
    && union != []
    && var last := union[|union| - 1];
    && last.0 <= done[|done| - 1].start && last.1 <= duration
    && (forall t :: last.1 <= t < duration ==> !CoveredAt(done, t))
    && (forall t :: last.0 <= t < last.1 ==> CoveredAt(done, t))
  }

  ghost predicate Swept(done: seq<Segment>, union: seq<Interval>, overlap: int, duration: int) {
    && SumLengths(union) == CoveredMs(done, duration)
    && ClippedLength(done, duration) == SumLengths(union) + overlap
    && (done == [] ==> union == [])
    && (done != [] ==> Frontier(done, union, duration))
    && (StartsWithin(done, duration) ==>
      && Separated(union, duration)
      && forall t :: 0 <= t < duration ==> (CoveredAt(done, t) <==> InUnion(union, t)))
  }

  /** One round of the sweep: a new interval, or an extension of the last one. */
  function SweepStep(union: seq<Interval>, overlap: int, item: Segment, duration: int): (seq<Interval>, int) {
    var start, end := item.start, Min(item.end, duration);
    if union == [] || start > union[|union| - 1].1 then (union + [(start, end)], overlap)
    else
      var last := union[|union| - 1];
      (union[..|union| - 1] + [(last.0, Max(last.1, end))], overlap + Max(0, Min(end, last.1) - start))
  }

  lemma {:induction false} NewIntervalArithmetic(start: int, end: int, duration: int)
    requires start < end && 0 < duration
    ensures Max(0, Min(end, duration) - Min(start, Max(duration, 0))) - Max(0, start - duration)
         == Min(end, duration) - start
  {
  }

  lemma {:induction false} ExtensionArithmetic(frontier: int, start: int, end: int, duration: int)
    requires 0 <= start <= frontier <= duration && start < end && 0 < duration
    ensures Max(0, Min(Max(frontier, end), duration) - Min(frontier, Max(duration, 0)))
         == Max(frontier, Min(end, duration)) - frontier
    ensures Min(end, duration) - start
         == Max(frontier, Min(end, duration)) - frontier + Max(0, Min(Min(end, duration), frontier) - start)
  {
  }

  lemma {:induction false} NewIntervalTotals(done: seq<Segment>, union: seq<Interval>, item: Segment, duration: int)
    requires duration > 0 && SumLengths(union) == CoveredMs(done, duration)
    requires forall t :: item.start <= t < duration ==> !CoveredAt(done, t)
    ensures SumLengths(union + [(item.start, Min(item.end, duration))]) == CoveredMs(done + [item], duration)
  {
    var u := union + [(item.start, Min(item.end, duration))];
    assert u[..|u| - 1] == union;
    TotalsAppend(done, item, duration);
    forall t ensures CoveredAt(done + [item], t) <==> CoveredAt(done, t) || item.start <= t < item.end {
      CoveredAppend(done, item, t);
    }
    MeasureAppend(done, item, item.start, item.end, duration);
    NewIntervalArithmetic(item.start, item.end, duration);
  }

  lemma {:induction false} ExtensionTotals(done: seq<Segment>, union: seq<Interval>, item: Segment, duration: int)
    requires duration > 0 && done != [] && SumLengths(union) == CoveredMs(done, duration)
    requires Frontier(done, union, duration)
    requires union[|union| - 1].0 <= item.start <= union[|union| - 1].1
    ensures var last := union[|union| - 1];
      SumLengths(union[..|union| - 1] + [(last.0, Max(last.1, Min(item.end, duration)))])
      == CoveredMs(done + [item], duration)
  {
    var last := union[|union| - 1];
    var u := union[..|union| - 1] + [(last.0, Max(last.1, Min(item.end, duration)))];
    assert u[..|u| - 1] == union[..|union| - 1];
    TotalsAppend(done, item, duration);
    forall t ensures CoveredAt(done + [item], t) <==> CoveredAt(done, t) || item.start <= t < item.end {
      CoveredAppend(done, item, t);
    }
    MeasureAppend(done, item, last.1, Max(last.1, item.end), duration);
    ExtensionArithmetic(last.1, item.start, item.end, duration);
  }

  lemma {:induction false} StepTotals(done: seq<Segment>, union: seq<Interval>, overlap: int, item: Segment, duration: int)
    requires duration > 0 && Swept(done, union, overlap, duration)
    requires done != [] ==> done[|done| - 1].start <= item.start
    ensures var (u, o) := SweepStep(union, overlap, item, duration);
      && SumLengths(u) == CoveredMs(done + [item], duration)
      && ClippedLength(done + [item], duration) == SumLengths(u) + o
  {
    TotalsAppend(done, item, duration);
    if union == [] || item.start > union[|union| - 1].1 {
      var u := union + [(item.start, Min(item.end, duration))];
      assert u[..|u| - 1] == union;
      NewIntervalTotals(done, union, item, duration);
    } else {
      var last := union[|union| - 1];
      var u := union[..|union| - 1] + [(last.0, Max(last.1, Min(item.end, duration)))];
      assert u[..|u| - 1] == union[..|union| - 1];
      ExtensionTotals(done, union, item, duration);
      ExtensionArithmetic(last.1, item.start, item.end, duration);
    }
  }

  lemma {:induction false} StepFrontier(done: seq<Segment>, union: seq<Interval>, overlap: int, item: Segment, duration: int)
    requires duration > 0 && Swept(done, union, overlap, duration)
    requires done != [] ==> done[|done| - 1].start <= item.start
    ensures Frontier(done + [item], SweepStep(union, overlap, item, duration).0, duration)
  {
    forall t ensures CoveredAt(done + [item], t) <==> CoveredAt(done, t) || item.start <= t < item.end {
      CoveredAppend(done, item, t);
    }
  }

  lemma {:induction false} StepSeparated(union: seq<Interval>, overlap: int, item: Segment, duration: int)
    requires Separated(union, duration) && item.start <= duration
    requires union != [] ==> union[|union| - 1].0 <= item.start
    ensures Separated(SweepStep(union, overlap, item, duration).0, duration)
  {
  }

  lemma {:induction false} StepMembers(union: seq<Interval>, overlap: int, item: Segment, duration: int, t: int)
    requires Separated(union, duration) && item.start <= duration && t < duration
    requires union != [] ==> union[|union| - 1].0 <= item.start
    ensures var u := SweepStep(union, overlap, item, duration).0;
      InUnion(u, t) <==> InUnion(union, t) || item.start <= t < item.end
  {
    var u := SweepStep(union, overlap, item, duration).0;
    if InUnion(union, t) {
      var k :| 0 <= k < |union| && union[k].0 <= t < union[k].1;
      assert u[k].0 <= t < u[k].1;
    }
    if item.start <= t < item.end { assert u[|u| - 1].0 <= t < u[|u| - 1].1; }
    if InUnion(u, t) {
      var k :| 0 <= k < |u| && u[k].0 <= t < u[k].1;
      if k < |u| - 1 { assert union[k] == u[k]; }
      else if |u| == |union| && t < union[k].1 { assert union[k].0 <= t < union[k].1; }
    }
  }

  lemma {:induction false} StepUnion(done: seq<Segment>, union: seq<Interval>, overlap: int, item: Segment, duration: int)
    requires duration > 0 && Swept(done, union, overlap, duration)
    requires done != [] ==> done[|done| - 1].start <= item.start
    requires StartsWithin(done + [item], duration)
    ensures var u := SweepStep(union, overlap, item, duration).0;
      && Separated(u, duration)
      && forall t :: 0 <= t < duration ==> (CoveredAt(done + [item], t) <==> InUnion(u, t))
  {
    assert item in done + [item];
    assert StartsWithin(done, duration) by {
      forall s | s in done ensures s.start <= duration { assert s in done + [item]; }
    }
    StepSeparated(union, overlap, item, duration);
    forall t | 0 <= t < duration
      ensures CoveredAt(done + [item], t) <==> InUnion(SweepStep(union, overlap, item, duration).0, t)
    {
      CoveredAppend(done, item, t);
      StepMembers(union, overlap, item, duration, t);
    }
  }

  lemma {:induction false} StepSwept(done: seq<Segment>, union: seq<Interval>, overlap: int, item: Segment, duration: int)
    requires duration > 0 && Swept(done, union, overlap, duration)
    requires done != [] ==> done[|done| - 1].start <= item.start
    ensures var (u, o) := SweepStep(union, overlap, item, duration); Swept(done + [item], u, o, duration)
  {
    StepTotals(done, union, overlap, item, duration);
    StepFrontier(done, union, overlap, item, duration);
    if StartsWithin(done + [item], duration) { StepUnion(done, union, overlap, item, duration); }
  }

  function SweepAll(ordered: seq<Segment>, duration: int): (seq<Interval>, int) {
    if ordered == [] then ([], 0)
    else
      var (union, overlap) := SweepAll(ordered[..|ordered| - 1], duration);
      SweepStep(union, overlap, ordered[|ordered| - 1], duration)
  }

  lemma {:induction false} SweepAllSwept(ordered: seq<Segment>, duration: int)
    requires duration > 0 && SortedBy(ordered, KeyLe)
    ensures Swept(ordered, SweepAll(ordered, duration).0, SweepAll(ordered, duration).1, duration)
  {
    if ordered == [] {
      MeasureNothing(duration);
    } else {
      var n := |ordered| - 1;
      SweepAllSwept(ordered[..n], duration);
      var (union, overlap) := SweepAll(ordered[..n], duration);
      assert n > 0 ==> KeyLe(ordered[n - 1], ordered[n]);
      StepSwept(ordered[..n], union, overlap, ordered[n], duration);
      assert ordered == ordered[..n] + [ordered[n]];
    }
  }

  method Sweep(ordered: seq<Segment>, duration: int) returns (union: seq<Interval>, overlap: int)
    requires duration > 0 && SortedBy(ordered, KeyLe)
    ensures Swept(ordered, union, overlap, duration)
  {
    var intervals: seq<Interval> := [];
    for i := 0 to |ordered|
      invariant |intervals| == i
      invariant forall j :: 0 <= j < i ==> intervals[j] == (ordered[j].start, Min(ordered[j].end, duration))
    {
      intervals := intervals + [(ordered[i].start, Min(ordered[i].end, duration))];
    }
    union, overlap := [], 0;
    for i := 0 to |intervals|
      invariant (union, overlap) == SweepAll(ordered[..i], duration)
    {
      var (start, end) := intervals[i];
      assert ordered[..i + 1][..i] == ordered[..i];
      if union == [] || start > union[|union| - 1].1 {
        union := union + [(start, end)];
      } else {
        var last := union[|union| - 1];
        overlap := overlap + Max(0, Min(end, last.1) - start);
        union := union[..|union| - 1] + [(last.0, Max(last.1, end))];
      }
    }
    assert ordered[..|ordered|] == ordered;
    SweepAllSwept(ordered, duration);
  }

  // ----- The longest gap -----

  /** The gaps in the order of time, from `lo` on. */
  function GapsFrom(lo: int, union: seq<Interval>, duration: int): seq<int>
    decreases |union|
  {
    if union == [] then [duration - lo]
    else [union[0].0 - lo] + GapsFrom(union[0].1, union[1..], duration)
  }

  lemma {:induction false} GapsFromInner(union: seq<Interval>, lo: int, duration: int)
    requires union != []
    ensures GapsFrom(lo, union, duration)
         == [union[0].0 - lo] + InnerGaps(union) + [duration - union[|union| - 1].1]
  {
    if |union| > 1 {
      GapsFromInner(union[1..], union[0].1, duration);
      assert union[1..][|union| - 2] == union[|union| - 1];
    }
  }

  lemma {:induction false} GapsSameMembers(union: seq<Interval>, duration: int)
    ensures forall g :: g in Gaps(union, duration) <==> g in GapsFrom(0, union, duration)
  {
    if union != [] { GapsFromInner(union, 0, duration); }
  }

  ghost predicate Misses(union: seq<Interval>, a: int, b: int) {
    forall t :: a <= t < b ==> !InUnion(union, t)
  }

  lemma {:induction false} MissesTail(union: seq<Interval>, a: int, b: int)
    requires union != []
    ensures Misses(union, a, b) <==> Misses(union[1..], a, b) && Misses(union[..1], a, b)
  {
    forall t ensures InUnion(union, t) <==> InUnion(union[1..], t) || InUnion(union[..1], t) {
      if InUnion(union, t) {
        var k :| 0 <= k < |union| && union[k].0 <= t < union[k].1;
        if k > 0 { assert union[1..][k - 1] == union[k]; } else { assert union[..1][0] == union[k]; }
      }
      if InUnion(union[1..], t) {
        var k :| 0 <= k < |union| - 1 && union[1..][k].0 <= t < union[1..][k].1;
        assert union[k + 1] == union[1..][k];
      }
      if InUnion(union[..1], t) { assert union[..1][0] == union[0]; }
    }
  }

  /** A run outside the union lies in one gap. */
  lemma {:induction false} RunWithinGap(union: seq<Interval>, duration: int, lo: int, a: int, b: int)
    requires Separated(union, duration) && 0 <= lo <= a < b <= duration && Misses(union, a, b)
    requires union != [] ==> lo <= union[0].0
    ensures exists g :: g in GapsFrom(lo, union, duration) && b - a <= g
    decreases |union|
  {
    var gaps := GapsFrom(lo, union, duration);
    if union == [] {
      assert gaps[0] == duration - lo && gaps[0] in gaps;
    } else if b <= union[0].0 {
      assert gaps[0] == union[0].0 - lo && gaps[0] in gaps;
    } else {
      assert a >= union[0].1 by {
        var t := Max(a, union[0].0);
        if a < union[0].1 { assert InUnion(union, t); }
      }
      MissesTail(union, a, b);
      RunWithinGap(union[1..], duration, union[0].1, a, b);
      var g :| g in GapsFrom(union[0].1, union[1..], duration) && b - a <= g;
      assert g in gaps;
    }
  }

  /** Every gap is a run outside the union. */
  lemma {:induction false} GapIsRun(union: seq<Interval>, duration: int, lo: int, g: int)
    requires Separated(union, duration) && 0 <= lo <= duration
    requires union != [] ==> lo <= union[0].0
    requires g in GapsFrom(lo, union, duration)
    ensures exists a, b :: lo <= a <= b <= duration && b - a == g && Misses(union, a, b)
    decreases |union|
  {
    if union == [] {
      assert Misses(union, lo, duration);
    } else if g == union[0].0 - lo {
      assert Misses(union, lo, union[0].0);
    } else {
      GapIsRun(union[1..], duration, union[0].1, g);
      var a, b :| union[0].1 <= a <= b <= duration && b - a == g && Misses(union[1..], a, b);
      MissesTail(union, a, b);
      assert Misses(union, a, b);
    }
  }

  lemma {:induction false} MaxGapIsLongestRun(segments: seq<Segment>, union: seq<Interval>, duration: int)
    requires duration > 0 && Separated(union, duration)
    requires forall t :: 0 <= t < duration ==> (CoveredAt(segments, t) <==> InUnion(union, t))
    ensures LongestUncoveredRun(segments, duration, Maximum(Gaps(union, duration)))
  {
    var longest := Maximum(Gaps(union, duration));
    GapsSameMembers(union, duration);
    GapIsRun(union, duration, 0, longest);
    var a, b :| 0 <= a <= b <= duration && b - a == longest && Misses(union, a, b);
    assert Uncovered(segments, a, b);
    forall a, b | 0 <= a <= b <= duration && Uncovered(segments, a, b) ensures b - a <= longest {
      if a < b {
        assert Misses(union, a, b);
        RunWithinGap(union, duration, 0, a, b);
      } else {
        assert longest >= 0;
      }
    }
  }

  // ----- Preservation of hard fact tokens -----

  function Count(values: seq<string>, token: string): nat {
    multiset(values)[token]
  }

  /** How many raw tokens occur at least as often among the normalized ones. */
  function Preserved(rest: seq<string>, raw: seq<string>, normalized: seq<string>): nat {
    if rest == [] then 0
    else
      var tail := Preserved(rest[1..], raw, normalized);
      if Count(normalized, rest[0]) >= Count(raw, rest[0]) then tail + 1 else tail
  }

  lemma {:induction false} AllPreserved(rest: seq<string>, raw: seq<string>, normalized: seq<string>)
    ensures Preserved(rest, raw, normalized) <= |rest|
    ensures Preserved(rest, raw, normalized) == |rest|
       <==> forall token :: token in rest ==> Count(normalized, token) >= Count(raw, token)
  {
    if rest != [] {
      AllPreserved(rest[1..], raw, normalized);
      assert rest == [rest[0]] + rest[1..];
    }
  }

  lemma {:induction false} PreservedMeansMultiset(raw: seq<string>, normalized: seq<string>)
    ensures Preserved(raw, raw, normalized) == |raw| <==> multiset(raw) <= multiset(normalized)
  {
    AllPreserved(raw, raw, normalized);
    if forall token :: token in raw ==> Count(normalized, token) >= Count(raw, token) {
      forall token ensures multiset(raw)[token] <= multiset(normalized)[token] {
        if token !in raw { assert token !in multiset(raw); }
      }
    }
    if multiset(raw) <= multiset(normalized) {
      forall token | token in raw ensures Count(normalized, token) >= Count(raw, token) { }
    }
  }

  lemma {:induction false} TokensOfInsert(x: Segment, s: seq<Segment>, tokens: string -> seq<string>)
    ensures multiset(RawTokens(InsertBy(x, s, KeyLe), tokens))
         == multiset(tokens(x.rawText)) + multiset(RawTokens(s, tokens))
  {
    hide KeyLe;
    if s != [] && !KeyLe(x, s[0]) { TokensOfInsert(x, s[1..], tokens); }
  }

  lemma {:induction false} NormalizedTokensOfInsert(x: Segment, s: seq<Segment>, tokens: string -> seq<string>)
    ensures multiset(NormalizedTokens(InsertBy(x, s, KeyLe), tokens))
         == multiset(tokens(x.normalizedText)) + multiset(NormalizedTokens(s, tokens))
  {
    hide KeyLe;
    if s != [] && !KeyLe(x, s[0]) { NormalizedTokensOfInsert(x, s[1..], tokens); }
  }

  lemma {:induction false} TokensOfSort(s: seq<Segment>, tokens: string -> seq<string>)
    ensures multiset(RawTokens(SortBy(s, KeyLe), tokens)) == multiset(RawTokens(s, tokens))
    ensures multiset(NormalizedTokens(SortBy(s, KeyLe), tokens)) == multiset(NormalizedTokens(s, tokens))
  {
    if s != [] {
      TokensOfSort(s[1..], tokens);
      TokensOfInsert(s[0], SortBy(s[1..], KeyLe), tokens);
      NormalizedTokensOfInsert(s[0], SortBy(s[1..], KeyLe), tokens);
    }
  }

  // ----- The gate -----

  /** Everything the report says, in terms of the segments alone. */
  ghost predicate Describes(report: Report, segments: seq<Segment>, duration: int, language: string,
                            tokens: string -> seq<string>)
  {
    && report.duration == duration && report.language == language
    && report.covered == CoveredMs(segments, duration)
    && report.covered + report.overlap == ClippedLength(segments, duration)
    && (StartsWithin(segments, duration) ==> LongestUncoveredRun(segments, duration, report.maxGap))
    && report.monotonic == Monotonic(segments)
    && report.reasons == Reasons(segments, duration, tokens)
    && report.status == StatusOf(report.reasons)
  }

  method IsMonotonic(segments: seq<Segment>, ordered: seq<Segment>) returns (monotonic: bool)
    requires ordered == SortBy(segments, KeyLe)
    ensures monotonic == Monotonic(segments)
  {
    KeyLeOrder();
    SortBySorted(segments, KeyLe);
    if SortedBy(segments, KeyLe) { SortByFixpoint(segments, KeyLe); }
    monotonic := segments == ordered && forall i :: 0 <= i < |ordered| - 1 ==> ordered[i].end <= ordered[i + 1].start;
  }

  method MeasureCoverage(segments: seq<Segment>, ordered: seq<Segment>, duration: int)
    returns (covered: int, overlap: int, maxGap: int)
    requires duration > 0 && ordered == SortBy(segments, KeyLe)
    ensures covered == CoveredMs(segments, duration)
    ensures covered + overlap == ClippedLength(segments, duration)
    ensures StartsWithin(segments, duration) ==> LongestUncoveredRun(segments, duration, maxGap)
  {
    KeyLeOrder();
    SortBySorted(segments, KeyLe);
    MultisetMembers(ordered, segments);
    var union: seq<Interval>;
    union, overlap := Sweep(ordered, duration);
    covered, maxGap := SumLengths(union), Maximum(Gaps(union, duration));
    MeasureSameCover(ordered, segments, duration);
    TotalsOfSort(segments, duration);
    if StartsWithin(segments, duration) {
      assert forall t :: CoveredAt(ordered, t) <==> CoveredAt(segments, t);
      MaxGapIsLongestRun(segments, union, duration);
    }
  }

  method HardFactsKept(segments: seq<Segment>, ordered: seq<Segment>, tokens: string -> seq<string>)
    returns (kept: bool)
    requires ordered == SortBy(segments, KeyLe)
    ensures kept == TokensPreserved(segments, tokens)
  {
    var raw, normalized := RawTokens(ordered, tokens), NormalizedTokens(ordered, tokens);
    PreservedMeansMultiset(raw, normalized);
    TokensOfSort(segments, tokens);
    kept := Preserved(raw, raw, normalized) == |raw|;
  }

  method OutOfBoundsReasons(segments: seq<Segment>, ordered: seq<Segment>, duration: int)
    returns (reasons: seq<Reason>)
    requires multiset(ordered) == multiset(segments)
    ensures forall j :: 0 <= j < |reasons| ==> reasons[j] == OutOfBounds
    ensures reasons == [] <==> InBounds(segments, duration)
  {
    reasons := [];
    for i := 0 to |ordered|
      invariant forall j :: 0 <= j < |reasons| ==> reasons[j] == OutOfBounds
      invariant |reasons| == 0 <==> forall j :: 0 <= j < i ==> ordered[j].end <= duration
    {
      if ordered[i].end > duration { reasons := reasons + [OutOfBounds]; }
    }
    InBoundsOfOrdered(segments, ordered, duration);
  }

  lemma {:induction false} InBoundsOfOrdered(segments: seq<Segment>, ordered: seq<Segment>, duration: int)
    requires multiset(ordered) == multiset(segments)
    ensures InBounds(segments, duration) <==> forall j :: 0 <= j < |ordered| ==> ordered[j].end <= duration
  {
    MultisetMembers(ordered, segments);
    if InBounds(segments, duration) {
      forall j | 0 <= j < |ordered| ensures ordered[j].end <= duration { assert ordered[j] in ordered; }
    }
  }

  function AppendIf(reasons: seq<Reason>, condition: bool, reason: Reason): seq<Reason> {
    if condition then reasons + [reason] else reasons
  }

  method Evaluate(segments: seq<Segment>, duration: int, language: string, tokens: string -> seq<string>)
    returns (outcome: Outcome)
    ensures outcome.DurationInvalid? <==> duration <= 0
    ensures outcome.Evaluated? ==> Describes(outcome.report, segments, duration, language, tokens)
  {
    if duration <= 0 { return DurationInvalid; }
    var ordered := SortBy(segments, KeyLe);
    var monotonic := IsMonotonic(segments, ordered);
    var reasons := OutOfBoundsReasons(segments, ordered, duration);
    var covered, overlap, maxGap := MeasureCoverage(segments, ordered, duration);
    var kept := HardFactsKept(segments, ordered, tokens);
    ghost var outOfBounds := reasons;
    var short := 10 * covered < 9 * duration;
    reasons := AppendIf(reasons, !monotonic, NonMonotonicOrOverlap);
    reasons := AppendIf(reasons, short, CoverageBelow90Percent);
    reasons := AppendIf(reasons, !kept, HardFactTokenMutation);
    var status := if reasons == [] then Pass
                  else if reasons == [CoverageBelow90Percent] then RetryableAsr
                  else NeedsReview;
    var codes := set r | r in reasons;
    ReasonCodes(outOfBounds, reasons, codes, monotonic, short, kept);
    outcome := Evaluated(Report(duration, covered, maxGap, overlap, monotonic, language, status, codes));
  }

  /** The list of reasons and the set of reason codes lead to the same status. */
  lemma {:induction false} ReasonCodes(bounds: seq<Reason>, reasons: seq<Reason>, codes: set<Reason>, monotonic: bool, short: bool, kept: bool)
    requires forall j :: 0 <= j < |bounds| ==> bounds[j] == OutOfBounds
    requires reasons == AppendIf(AppendIf(AppendIf(bounds, !monotonic, NonMonotonicOrOverlap),
                                          short, CoverageBelow90Percent),
                                 !kept, HardFactTokenMutation)
    requires codes == set r | r in reasons
    ensures codes == ReasonSet(bounds == [], monotonic, short, kept)
    ensures StatusOf(codes) == if reasons == [] then Pass
                               else if reasons == [CoverageBelow90Percent] then RetryableAsr
                               else NeedsReview
  {
    if bounds != [] {
      assert bounds[0] in bounds && reasons[0] in reasons;
    }
  }

  // ----- What the gate means -----

  lemma {:induction false} OvershootZero(segments: seq<Segment>, duration: int)
    ensures Overshoot(segments, duration) == 0 <==> StartsWithin(segments, duration)
  {
    if segments != [] {
      OvershootZero(segments[1..], duration);
      assert segments == [segments[0]] + segments[1..];
    }
  }

  /** The sweep measures the covered time exactly if and only if no segment starts after the end. */
  lemma {:induction false} CoverageIsMeasure(segments: seq<Segment>, duration: int)
    ensures CoveredMs(segments, duration) == Measure(segments, duration) <==> StartsWithin(segments, duration)
  {
    OvershootZero(segments, duration);
  }

  /** One segment behind the end of a 100 ms recording: the sweep reports a negative coverage. */
  lemma {:induction false} LateStartExample()
    ensures var late := SegmentData(Asr, "asr", 200, 210, "x", "x", Aligned);
      CoveredMs([late], 100) == -100 && Measure([late], 100) == 0
  {
    var late: Segment := SegmentData(Asr, "asr", 200, 210, "x", "x", Aligned);
    assert ([] + [late]) == [late];
    forall t | 0 <= t < 100 ensures !CoveredAt([late], t) { }
    MeasureAppend([], late, 100, 100, 100);
    MeasureNothing(100);
    assert Overshoot([late], 100) == 100 + Overshoot([], 100);
  }

  lemma {:induction false} InBoundsLength(segments: seq<Segment>, duration: int)
    requires InBounds(segments, duration)
    ensures ClippedLength(segments, duration) == TotalLength(segments)
  {
    if segments != [] {
      assert segments[0] in segments;
      InBoundsLength(segments[1..], duration);
    }
  }

  function TotalLength(segments: seq<Segment>): int {
    if segments == [] then 0 else segments[0].end - segments[0].start + TotalLength(segments[1..])
  }

  /** In bounds: lengths split into covered and doubly covered time, and the measure is exact. */
  lemma {:induction false} InBoundsAccounting(report: Report, segments: seq<Segment>, duration: int, language: string,
                           tokens: string -> seq<string>)
    requires Describes(report, segments, duration, language, tokens) && InBounds(segments, duration)
    ensures report.covered == Measure(segments, duration)
    ensures TotalLength(segments) == report.covered + report.overlap
    ensures LongestUncoveredRun(segments, duration, report.maxGap)
  {
    CoverageIsMeasure(segments, duration);
    InBoundsLength(segments, duration);
  }

  /** Each reason is given exactly for its fault; lacking coverage alone asks for recognition again, anything worse for a review. */
  lemma {:induction false} ReasonsMean(report: Report, segments: seq<Segment>, duration: int, language: string, tokens: string -> seq<string>)
    requires Describes(report, segments, duration, language, tokens)
    ensures OutOfBounds in report.reasons <==> exists s :: s in segments && s.end > duration
    ensures NonMonotonicOrOverlap in report.reasons <==>
      !(SortedBy(segments, KeyLe) && forall i, j :: 0 <= i < j < |segments| && j == i + 1 ==> segments[i].end <= segments[j].start)
    ensures CoverageBelow90Percent in report.reasons <==> 10 * report.covered < 9 * duration
    ensures HardFactTokenMutation in report.reasons <==> !TokensPreserved(segments, tokens)
    ensures report.status == Pass <==> report.reasons == {}
    ensures report.status == RetryableAsr <==>
      && CoverageBelow90Percent in report.reasons && OutOfBounds !in report.reasons
      && NonMonotonicOrOverlap !in report.reasons && HardFactTokenMutation !in report.reasons
  {
    hide SortedBy, TokensPreserved, CoveredMs;
    assert report.reasons == {CoverageBelow90Percent} <==>
      forall r: Reason :: r in report.reasons <==> r == CoverageBelow90Percent;
  }

  /** A transcript passes exactly when it is ordered, disjoint, in bounds, 90% complete and faithful. */
  lemma {:induction false} PassMeans(report: Report, segments: seq<Segment>, duration: int, language: string,
                  tokens: string -> seq<string>)
    requires Describes(report, segments, duration, language, tokens)
    ensures report.status == Pass <==>
      && SortedBy(segments, KeyLe) && Disjoint(segments) && InBounds(segments, duration)
      && 10 * Measure(segments, duration) >= 9 * duration
      && TokensPreserved(segments, tokens)
  {
    if InBounds(segments, duration) { CoverageIsMeasure(segments, duration); }
    var reasons := Reasons(segments, duration, tokens);
    assert report.status == Pass <==> reasons == {};
    assert OutOfBounds in reasons <==> !InBounds(segments, duration);
    assert NonMonotonicOrOverlap in reasons <==> !Monotonic(segments);
    assert CoverageBelow90Percent in reasons <==> CoverageShort(segments, duration);
    assert HardFactTokenMutation in reasons <==> !TokensPreserved(segments, tokens);
    assert reasons == {} <==> forall r: Reason :: r !in reasons;
  }
}
