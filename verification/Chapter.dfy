/** Greedy chapter segmentation (domain/chapter.py). */
module Chapter {

  datatype Segment = Segment(start: real, end: real, text: string)

  datatype VideoChapter = VideoChapter(index: nat, summary: string, start: real, end: real)

  const SUMMARY_LENGTH := 240

  function Min(a: nat, b: nat): nat { if a <= b then a else b }

  function Flatten<T>(groups: seq<seq<T>>): seq<T> {
    if groups == [] then [] else groups[0] + Flatten(groups[1..])
  }

  lemma {:induction false} FlattenAppend<T>(groups: seq<seq<T>>, last: seq<T>)
    ensures Flatten(groups + [last]) == Flatten(groups) + last
  {
    if groups == [] {
      assert Flatten([last]) == last + Flatten<T>([]);
    } else {
      FlattenAppend(groups[1..], last);
      assert (groups + [last])[1..] == groups[1..] + [last];
    }
  }

  /** The text of a chapter: its segments' texts with a blank between them. */
  function JoinTexts(group: seq<Segment>): string {
    if group == [] then ""
    else if |group| == 1 then group[0].text
    else group[0].text + " " + JoinTexts(group[1..])
  }

  /** Joined texts are those of the parts with one blank in between. */
  lemma {:induction false} JoinOfParts(a: seq<Segment>, b: seq<Segment>)
    requires a != [] && b != []
    ensures JoinTexts(a + b) == JoinTexts(a) + " " + JoinTexts(b)
    ensures JoinTexts([a[0]]) == a[0].text
  {
    if |a| == 1 {
      assert a + b == [a[0]] + b && (a + b)[1..] == b;
    } else {
      JoinOfParts(a[1..], b);
      assert (a + b)[1..] == a[1..] + b;
    }
  }

  /** A contiguous partition of `segments` into non-empty chapters. */
  ghost predicate Partition(groups: seq<seq<Segment>>, segments: seq<Segment>) {
    && Flatten(groups) == segments
    && forall k :: 0 <= k < |groups| ==> groups[k] != []
  }

  /** A chapter of several segments stays within the target span; a single long segment is allowed. */
  ghost predicate Fits(group: seq<Segment>, target: real) {
    |group| > 1 ==> group[|group| - 1].end - group[0].start <= target
  }

  /** No segment after the first of its chapter ends beyond the target. */
  ghost predicate EveryItemFits(group: seq<Segment>, target: real) {
    forall k :: 0 < k < |group| ==> group[k].end - group[0].start <= target
  }

  /** A chapter was closed only because its successor's first segment did not fit any more. */
  ghost predicate Maximal(groups: seq<seq<Segment>>, target: real)
    requires forall k :: 0 <= k < |groups| ==> groups[k] != []
  {
    forall i :: 0 <= i < |groups| - 1 ==> groups[i + 1][0].end - groups[i][0].start > target
  }

  ghost predicate InTimeOrder(segments: seq<Segment>) {
    forall i, j :: 0 <= i < j < |segments| ==>
      segments[i].start <= segments[j].start && segments[i].end <= segments[j].end
  }

  /** Finished chapters: not empty, within the target, and closed only when they had to be. */
  ghost predicate Closed(groups: seq<seq<Segment>>, target: real) {
    && (forall k :: 0 <= k < |groups| ==> groups[k] != [] && EveryItemFits(groups[k], target))
    && Maximal(groups, target)
  }

  lemma {:induction false} CloseOne(groups: seq<seq<Segment>>, current: seq<Segment>, target: real)
    requires Closed(groups, target) && current != [] && EveryItemFits(current, target)
    requires groups != [] ==>
      groups[|groups| - 1] != [] && current[0].end - groups[|groups| - 1][0].start > target
    ensures Closed(groups + [current], target)
    ensures Flatten(groups + [current]) == Flatten(groups) + current
  {
    FlattenAppend(groups, current);
  }

  method GroupSegments(segments: seq<Segment>, target: real) returns (groups: seq<seq<Segment>>)
    requires segments != []
    ensures Partition(groups, segments)
    ensures Closed(groups, target)
  {
    groups := [];
    var current: seq<Segment> := [];
    var groupStart := segments[0].start;
    for i := 0 to |segments|
      invariant Flatten(groups) + current == segments[..i]
      invariant Closed(groups, target)
      invariant i == 0 ==> groups == [] && current == [] && groupStart == segments[0].start
      invariant i > 0 ==> current != [] && groupStart == current[0].start
      invariant EveryItemFits(current, target)
      invariant groups != [] ==>
        groups[|groups| - 1] != [] && current[0].end - groups[|groups| - 1][0].start > target
    {
      hide Closed, Flatten, EveryItemFits;
      var item := segments[i];
      assert segments[..i + 1] == segments[..i] + [item];
      if current != [] && item.end - groupStart > target {
        CloseOne(groups, current, target);
        groups := groups + [current];
        current := [];
        groupStart := item.start;
      }
      current := current + [item];
    }
    assert segments[..|segments|] == segments;
    if current != [] {
      CloseOne(groups, current, target);
      groups := groups + [current];
    }
  }

  method SegmentChapters(segments: seq<Segment>, target: real)
    returns (chapters: seq<VideoChapter>, groups: seq<seq<Segment>>)
    ensures Partition(groups, segments)
    ensures Closed(groups, target)
    ensures |chapters| == |groups|
    ensures forall i :: 0 <= i < |chapters| ==>
      && chapters[i].index == i
      && chapters[i].start == groups[i][0].start
      && chapters[i].end == groups[i][|groups[i]| - 1].end
      && chapters[i].summary <= JoinTexts(groups[i])
      && |chapters[i].summary| == Min(SUMMARY_LENGTH, |JoinTexts(groups[i])|)
  {
    chapters, groups := [], [];
    if segments == [] { return; }
    groups := GroupSegments(segments, target);
    for i := 0 to |groups|
      invariant |chapters| == i
      invariant forall j :: 0 <= j < i ==>
        && chapters[j].index == j
        && chapters[j].start == groups[j][0].start
        && chapters[j].end == groups[j][|groups[j]| - 1].end
        && chapters[j].summary <= JoinTexts(groups[j])
        && |chapters[j].summary| == Min(SUMMARY_LENGTH, |JoinTexts(groups[j])|)
    {
      var group := groups[i];
      var text := JoinTexts(group);
      var summary := if |text| <= SUMMARY_LENGTH then text else text[..SUMMARY_LENGTH];
      chapters := chapters + [VideoChapter(i, summary, group[0].start, group[|group| - 1].end)];
    }
  }

  /** The first chapter of a partition is the segment range it covers. */
  lemma {:induction false} FirstGroup(groups: seq<seq<Segment>>, s: seq<Segment>, i: nat)
    requires i <= |s| && groups != [] && Flatten(groups) == s[i..]
    ensures i + |groups[0]| <= |s|
    ensures groups[0] == s[i..i + |groups[0]|]
    ensures Flatten(groups[1..]) == s[i + |groups[0]|..]
  {
    var n := |groups[0]|;
    assert s[i..][..n] == groups[0];
    assert s[i..][n..] == Flatten(groups[1..]);
  }

  /** The greedy head of `s[i..]` ends no earlier than a head within the limit that starts at `j <= i`. */
  lemma {:induction false} HeadReachesFurther(s: seq<Segment>, i: nat, i': nat, j: nat, j': nat, target: real)
    requires InTimeOrder(s) && j <= i < i' < |s| && j < j' <= |s|
    requires s[i'].end - s[i].start > target
    requires Fits(s[j..j'], target)
    ensures j' <= i'
  {
    var group, last := s[j..j'], if i' < j' then j' - 1 else i';
    assert group[0] == s[j] && group[|group| - 1] == s[j' - 1];
    assert s[j].start <= s[i].start && s[i'].end <= s[last].end;
  }

  /**
   * Greedy stays ahead: a greedy partition of `s[i..]` has no more chapters than any partition
   * within the limit of the longer rest `s[j..]`.
   */
  lemma {:induction false} StaysAhead(s: seq<Segment>, greedy: seq<seq<Segment>>, i: nat,
                                      other: seq<seq<Segment>>, j: nat, target: real)
    requires InTimeOrder(s) && j <= i <= |s|
    requires Partition(greedy, s[i..]) && Maximal(greedy, target)
    requires Partition(other, s[j..]) && forall k :: 0 <= k < |other| ==> Fits(other[k], target)
    ensures |greedy| <= |other|
    decreases |greedy|
  {
    if greedy != [] {
      FirstGroup(greedy, s, i);
      assert other != [];
      FirstGroup(other, s, j);
      var i', j' := i + |greedy[0]|, j + |other[0]|;
      if |greedy| > 1 {
        FirstGroup(greedy[1..], s, i');
        assert greedy[1][0] == s[i'] && greedy[0][0] == s[i];
        HeadReachesFurther(s, i, i', j, j', target);
        StaysAhead(s, greedy[1..], i', other[1..], j', target);
      }
    }
  }

  /**
   * For segments in time order no partition into chapters within the target uses fewer chapters
   * than the one `GroupSegments` and `SegmentChapters` compute.
   */
  lemma {:induction false} GreedyIsOptimal(segments: seq<Segment>, greedy: seq<seq<Segment>>, other: seq<seq<Segment>>, target: real)
    requires InTimeOrder(segments)
    requires Partition(greedy, segments) && Closed(greedy, target)
    requires Partition(other, segments) && forall k :: 0 <= k < |other| ==> Fits(other[k], target)
    ensures |greedy| <= |other|
  {
    assert segments[0..] == segments;
    StaysAhead(segments, greedy, 0, other, 0, target);
  }

  /** What the two methods promise determines the chapters: there is only one such partition. */
  lemma {:induction false} GreedyIsUnique(segments: seq<Segment>, a: seq<seq<Segment>>, b: seq<seq<Segment>>, target: real)
    requires Partition(a, segments) && Closed(a, target)
    requires Partition(b, segments) && Closed(b, target)
    ensures a == b
    decreases |a|
  {
    if a != [] {
      assert |Flatten(a)| >= |a[0]|;
      assert b != [];
      assert segments[0..] == segments;
      FirstGroup(a, segments, 0);
      FirstGroup(b, segments, 0);
      FirstNotLonger(segments, a, b, target);
      FirstNotLonger(segments, b, a, target);
      assert a[0] == b[0];
      assert Closed(a[1..], target) && Closed(b[1..], target);
      GreedyIsUnique(segments[|a[0]|..], a[1..], b[1..], target);
      assert a == [a[0]] + a[1..] && b == [b[0]] + b[1..];
    }
  }

  lemma {:induction false} ItemFits(group: seq<Segment>, target: real, k: nat)
    requires EveryItemFits(group, target) && k < |group|
    ensures k == 0 || group[k].end - group[0].start <= target
  {
  }

  lemma {:induction false} FirstNotLonger(segments: seq<Segment>, a: seq<seq<Segment>>, b: seq<seq<Segment>>, target: real)
    requires a != [] && b != [] && a[0] != [] && b[0] != []
    requires Partition(a, segments) && Maximal(a, target)
    requires Partition(b, segments) && forall k :: 0 <= k < |b| ==> EveryItemFits(b[k], target)
    ensures |b[0]| <= |a[0]|
  {
    assert segments[0..] == segments;
    FirstGroup(a, segments, 0);
    FirstGroup(b, segments, 0);
    if |a| > 1 {
      FirstGroup(a[1..], segments, |a[0]|);
      var n := |a[0]|;
      var k := if n < |b[0]| then n else 0;
      assert segments[n] == a[1][0] && b[0][k] == segments[k];
      ItemFits(b[0], target, k);
    }
  }
}
