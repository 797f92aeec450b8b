/** The coverage checks of topic maps, group plans and extractions. */
module TopicValidation {
  import opened Options
  import opened IndexSets
  import opened Ordering
  import opened TopicEdits
  import opened TopicRepair
  import opened TopicConservation

  // ----- Topic maps (scripts/build_local_coherent_knowledge_preview.py) -----

  /** Rows `start .. end`, both included. */
  datatype Topic = Topic(start: int, end: int)

  predicate Holds(topic: Topic, row: int) { topic.start <= row <= topic.end }

  ghost predicate HasRow(topics: seq<Topic>, row: int) { exists i :: 0 <= i < |topics| && Holds(topics[i], row) }

  /** Non-empty topics, one after the other, that hold every row from `from` on and none beyond the last. */
  ghost predicate CoversRows(topics: seq<Topic>, from: int, rows: nat) {
    && (forall i :: 0 <= i < |topics| ==> from <= topics[i].start <= topics[i].end < rows)
    && (forall i, j :: 0 <= i < j < |topics| ==> topics[i].end < topics[j].start)
    && (forall row :: from <= row < rows ==> HasRow(topics, row))
  }

  /** The fields of a topic map; those that are missing are absent. */
  datatype TopicMap = TopicMap(sourceHash: Option<string>, mediaHash: Option<string>, count: Option<int>, topics: seq<Topic>)

  datatype MapError = ProvenanceMismatch | NotContiguous | NotCovering

  predicate HasProvenance(topicMap: TopicMap, sourceHash: string, mediaHash: string) {
    && topicMap.sourceHash == Some(sourceHash) && topicMap.mediaHash == Some(mediaHash) && topicMap.count == Some(|topicMap.topics|)
    && topicMap.topics != []
  }

  method ValidateTopicMap(topicMap: TopicMap, rows: nat, sourceHash: string, mediaHash: string) returns (error: Option<MapError>)
    ensures error.None? <==> HasProvenance(topicMap, sourceHash, mediaHash) && CoversRows(topicMap.topics, 0, rows)
    ensures error == Some(ProvenanceMismatch) <==> !HasProvenance(topicMap, sourceHash, mediaHash)
    ensures error == Some(NotCovering) ==> exists n: nat :: n < rows && CoversRows(topicMap.topics, 0, n)
  {
    hide CoversRows;
    if !HasProvenance(topicMap, sourceHash, mediaHash) { return Some(ProvenanceMismatch); }
    var topics := topicMap.topics;
    var cursor := 0;
    for i := 0 to |topics|
      invariant 0 <= cursor <= rows
      invariant CoversRows(topics[i..], cursor, rows) <==> CoversRows(topics, 0, rows)
      invariant forall n: nat :: cursor <= n <= rows ==> (CoversRows(topics[i..], cursor, n) <==> CoversRows(topics, 0, n))
    {
      var topic := topics[i];
      CoversFromFirst(topics[i..], cursor, rows);
      if topic.start != cursor || topic.end < cursor || topic.end >= rows { return Some(NotContiguous); }
      forall n: nat | topic.end + 1 <= n <= rows { CoversFromFirst(topics[i..], cursor, n); }
      cursor := topic.end + 1;
    }
    CoversNothing(cursor, rows);
    CoversNothing(cursor, cursor);
    assert topics[|topics|..] == [];
    assert CoversRows(topics, 0, cursor);
    error := if cursor == rows then None else Some(NotCovering);
  }

  lemma {:induction false} CoversNothing(from: int, rows: nat)
    requires from <= rows
    ensures CoversRows([], from, rows) <==> from == rows
  {
    assert !HasRow([], from);
  }

  lemma {:induction false} CoversFromFirst(topics: seq<Topic>, from: int, rows: nat)
    requires topics != [] && 0 <= from <= rows
    ensures var first := topics[0]; CoversRows(topics, from, rows) <==>
      first.start == from && from <= first.end < rows && CoversRows(topics[1..], first.end + 1, rows)
  {
    hide CoversRows;
    var first := topics[0];
    if CoversRows(topics, from, rows) { CoversRest(topics, from, rows); }
    if first.start == from && from <= first.end < rows && CoversRows(topics[1..], first.end + 1, rows) {
      CoversWithFirst(topics, from, rows);
    }
  }

  lemma {:induction false} CoversRest(topics: seq<Topic>, from: int, rows: nat)
    requires topics != [] && 0 <= from <= rows && CoversRows(topics, from, rows)
    ensures var first := topics[0];
      first.start == from && from <= first.end < rows && CoversRows(topics[1..], first.end + 1, rows)
  {
    var first, rest := topics[0], topics[1..];
    assert HasRow(topics, from);
    var i :| 0 <= i < |topics| && Holds(topics[i], from);
    assert i == 0;
    forall row | first.end + 1 <= row < rows ensures HasRow(rest, row) {
      assert HasRow(topics, row);
      var j :| 0 <= j < |topics| && Holds(topics[j], row);
      assert j > 0 && rest[j - 1] == topics[j];
    }
  }

  lemma {:induction false} CoversWithFirst(topics: seq<Topic>, from: int, rows: nat)
    requires topics != [] && 0 <= from == topics[0].start <= topics[0].end < rows
    requires CoversRows(topics[1..], topics[0].end + 1, rows)
    ensures CoversRows(topics, from, rows)
  {
    var first, rest := topics[0], topics[1..];
    forall i | 0 <= i < |topics| ensures from <= topics[i].start <= topics[i].end < rows {
      if i > 0 { assert topics[i] == rest[i - 1]; }
    }
    forall i, j | 0 <= i < j < |topics| ensures topics[i].end < topics[j].start {
      assert topics[j] == rest[j - 1];
      if i > 0 { assert topics[i] == rest[i - 1]; }
    }
    forall row | from <= row < rows ensures HasRow(topics, row) {
      if row <= first.end {
        assert Holds(topics[0], row);
      } else {
        assert HasRow(rest, row);
        var j :| 0 <= j < |rest| && Holds(rest[j], row);
        assert topics[j + 1] == rest[j];
      }
    }
  }

  /** In an accepted map, a row has exactly one topic. */
  lemma {:induction false} RowHasOneTopic(topics: seq<Topic>, rows: nat, row: int, i: nat, j: nat)
    requires CoversRows(topics, 0, rows) && i < |topics| && j < |topics|
    requires Holds(topics[i], row) && Holds(topics[j], row)
    ensures 0 <= row < rows && i == j
  {
  }

  // ----- Exact coverage -----

  function Range(n: nat): (r: seq<int>)
    ensures |r| == n && forall k :: 0 <= k < n ==> r[k] == k
  {
    seq(n, k => k)
  }

  ghost predicate CoversOnce(s: seq<int>, n: nat) {
    forall x :: multiset(s)[x] == if 0 <= x < n then 1 else 0
  }

  lemma {:induction false} RangeCoversOnce(n: nat)
    ensures CoversOnce(Range(n), n)
  {
    AscendingCounts(Range(n));
    forall x ensures x in Range(n) <==> 0 <= x < n {
      if 0 <= x < n { assert Range(n)[x] == x; }
    }
  }

  /** `sorted(s) == list(range(n))` says that `s` names each of `0 .. n-1` once. */
  lemma {:induction false} SortedRangeTest(s: seq<int>, n: nat)
    ensures SortBy(s, IntLe) == Range(n) <==> CoversOnce(s, n)
  {
    hide SortBy, Range;
    RangeCoversOnce(n);
    if CoversOnce(s, n) {
      assert multiset(s) == multiset(Range(n)) by {
        forall x ensures multiset(s)[x] == multiset(Range(n))[x] {
          assert CoversOnce(s, n) && CoversOnce(Range(n), n);
        }
      }
      SortBySorted(s, IntLe);
      assert SortedBy(Range(n), IntLe);
      SortedUnique(SortBy(s, IntLe), Range(n), IntLe);
    }
    if SortBy(s, IntLe) == Range(n) { assert multiset(s) == multiset(Range(n)); }
  }

  // ----- Group plans (scripts/build_local_coherent_knowledge_preview_v2.py) -----

  predicate ProperGroup(group: Group) { group.topics != [] && Ascending(group.topics) && group.described }

  ghost predicate ProperPlan(groups: seq<Group>, excluded: seq<int>, n: nat) {
    && groups != [] && (forall i :: 0 <= i < |groups| ==> ProperGroup(groups[i]))
    && CoversOnce(excluded + Flatten(GroupTopics(groups)), n)
    && forall i, j :: 0 <= i < j < |groups| ==> groups[i].topics[0] < groups[j].topics[0]
  }

  function Firsts(groups: seq<Group>): (r: seq<int>)
    requires forall i :: 0 <= i < |groups| ==> groups[i].topics != []
    ensures |r| == |groups| && forall i :: 0 <= i < |groups| ==> r[i] == groups[i].topics[0]
  {
    seq(|groups|, i requires 0 <= i < |groups| => groups[i].topics[0])
  }

  /** The firsts are compared with their sorted copy; being different, they then increase strictly. */
  method ValidateGroupPlan(groups: seq<Group>, excluded: seq<int>, n: nat) returns (ok: bool)
    ensures ok <==> ProperPlan(groups, excluded, n)
  {
    hide SortBy, Ascending, Flatten, Range, CoversOnce;
    if groups == [] { return false; }
    var coverage := excluded;
    NoGroups();
    assert groups[..0] == [] && excluded + [] == excluded;
    for i := 0 to |groups|
      invariant forall k :: 0 <= k < i ==> ProperGroup(groups[k])
      invariant coverage == excluded + Flatten(GroupTopics(groups[..i]))
    {
      if !ProperGroup(groups[i]) { return false; }
      FlattenNext(groups, i);
      coverage := coverage + groups[i].topics;
    }
    assert groups[..|groups|] == groups;
    SortedRangeTest(coverage, n);
    if SortBy(coverage, IntLe) != Range(n) { return false; }
    FirstsTest(groups, excluded, n);
    ok := Firsts(groups) == SortBy(Firsts(groups), IntLe);
  }

  lemma {:induction false} NoGroups()
    ensures Flatten(GroupTopics([])) == []
  {
  }

  lemma {:induction false} FlattenNext(groups: seq<Group>, i: nat)
    requires i < |groups|
    ensures Flatten(GroupTopics(groups[..i + 1])) == Flatten(GroupTopics(groups[..i])) + groups[i].topics
  {
    assert GroupTopics(groups[..i + 1]) == GroupTopics(groups[..i]) + [groups[i].topics];
    FlattenConcat(GroupTopics(groups[..i]), [groups[i].topics]);
    assert Flatten([groups[i].topics]) == groups[i].topics + Flatten([]);
  }

  lemma {:induction false} FirstsTest(groups: seq<Group>, excluded: seq<int>, n: nat)
    requires forall i :: 0 <= i < |groups| ==> groups[i].topics != []
    requires CoversOnce(excluded + Flatten(GroupTopics(groups)), n)
    ensures Firsts(groups) == SortBy(Firsts(groups), IntLe)
       <==> forall i, j :: 0 <= i < j < |groups| ==> groups[i].topics[0] < groups[j].topics[0]
  {
    hide SortBy, Flatten, CoversOnce, Ascending;
    var firsts := Firsts(groups);
    SortBySorted(firsts, IntLe);
    if SortedBy(firsts, IntLe) { SortByFixpoint(firsts, IntLe); }
    forall i, j | 0 <= i < j < |groups| ensures firsts[i] != firsts[j] { GroupFirstsDiffer(groups, excluded, n, i, j); }
    if firsts == SortBy(firsts, IntLe) {
      forall i, j | 0 <= i < j < |groups| ensures firsts[i] < firsts[j] { assert IntLe(firsts[i], firsts[j]); }
    }
  }

  lemma {:induction false} GroupFirstsDiffer(groups: seq<Group>, excluded: seq<int>, n: nat, i: nat, j: nat)
    requires i < j < |groups| && groups[i].topics != [] && groups[j].topics != []
    requires CoversOnce(excluded + Flatten(GroupTopics(groups)), n)
    ensures groups[i].topics[0] != groups[j].topics[0]
  {
    hide Flatten;
    var all := GroupTopics(groups);
    var rest := all[..i] + all[i + 1..];
    FlattenWithout(all, i);
    assert rest[j - 1] == all[j];
    FlattenWithout(rest, j - 1);
    var x, y := all[i][0], all[j][0];
    assert x in all[i] && y in all[j];
    assert multiset(excluded + Flatten(all)) == multiset(excluded) + multiset(Flatten(all));
    assert multiset(excluded + Flatten(all))[x] <= 1;
    assert multiset(Flatten(all))[x] == multiset(all[i])[x] + multiset(Flatten(rest))[x];
    assert multiset(Flatten(rest))[y] >= multiset(all[j])[y] > 0;
  }

  // ----- The coverage check of an extraction -----

  predicate ProperCard(card: Card) { card.topics != [] && Ascending(card.topics) }

  ghost predicate ProperExtraction(preview: Preview, n: nat) {
    && preview.knowledge != []
    && (forall k :: 0 <= k < |preview.knowledge| ==> ProperCard(preview.knowledge[k]))
    && IsPartition(preview, n)
  }

  method ValidateCoverage(preview: Preview, n: nat) returns (ok: bool)
    ensures ok <==> ProperExtraction(preview, n)
  {
    hide SortBy, ProperCard, Flatten, Range, CoversOnce, Topics;
    var cards := preview.knowledge;
    if cards == [] { return false; }
    var all := preview.excluded;
    NoTopics();
    assert cards[..0] == [];
    for i := 0 to |cards|
      invariant forall k :: 0 <= k < i ==> ProperCard(cards[k])
      invariant all == preview.excluded + Topics(cards[..i])
    {
      if !ProperCard(cards[i]) { return false; }
      assert cards[..i + 1] == cards[..i] + [cards[i]];
      TopicsConcat(cards[..i], [cards[i]]);
      TopicsOne(cards[i]);
      all := all + cards[i].topics;
    }
    assert cards[..|cards|] == cards;
    SortedRangeTest(all, n);
    PartitionIsCoverage(preview, n);
    ok := SortBy(all, IntLe) == Range(n);
  }

  lemma {:induction false} PartitionIsCoverage(preview: Preview, n: nat)
    ensures IsPartition(preview, n) <==> CoversOnce(preview.excluded + Topics(preview.knowledge), n)
  {
    hide Topics;
    var all := preview.excluded + Topics(preview.knowledge);
    assert multiset(all) == Contents(preview);
  }

  /** After a repair, only an empty list or an unordered answer can still fail the coverage check. */
  lemma {:induction false} RepairedPreviewValidates(preview: Preview, spec: Spec, answers: Answers, n: nat)
    requires ValidSpec(preview, spec) && Complete(preview, spec, answers)
    requires IsPartition(preview, n) && Applied(preview, spec, answers).Some?
    ensures var r := Applied(preview, spec, answers).value;
      ProperExtraction(r, n) <==> r.knowledge != [] && forall k :: 0 <= k < |r.knowledge| ==> ProperCard(r.knowledge[k])
  {
    hide Contents, Applied, ValidSpec, Complete, IsPartition, ProperCard;
    RepairKeepsPartition(preview, spec, answers, n);
  }
}
