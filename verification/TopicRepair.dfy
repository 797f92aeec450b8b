/** Targeted repair of a knowledge preview (scripts/repair_local_coherent_knowledge_preview.py). */
module TopicRepair {
  import opened Options
  import opened IndexSets
  import opened Ordering
  import opened TopicEdits

  /** A draft: its cards, and the topics that no card covers. */
  datatype Preview = Preview(knowledge: seq<Card>, excluded: seq<int>)

  /** `described` says that the issue or focus text is not blank. Positions count from one. */
  datatype Repair = Repair(position: int, described: bool, topics: Option<seq<int>>)
  datatype Group = Group(topics: seq<int>, described: bool)
  datatype Split = Split(position: int, groups: seq<Group>)
  datatype Merge = Merge(positions: seq<int>, described: bool)
  datatype Spec = Spec(repairs: seq<Repair>, drops: seq<int>, splits: seq<Split>, merges: seq<Merge>, inserts: seq<Group>)

  /** Cards extracted by the model, in the order in which the jobs complete. */
  datatype Answers = Answers(
    repaired: seq<(int, Card)>, merged: seq<(seq<int>, Card)>, split: map<int, seq<Card>>, inserted: seq<(seq<int>, Card)>)

  // ----- What is conserved -----

  ghost function Contents(preview: Preview): multiset<int> {
    multiset(Topics(preview.knowledge)) + multiset(preview.excluded)
  }

  ghost predicate Simple(contents: multiset<int>) { forall x :: contents[x] <= 1 }

  /** Every topic `0 .. n-1` belongs to exactly one card or is excluded, and no other topic occurs. */
  ghost predicate IsPartition(preview: Preview, n: nat) {
    forall x :: Contents(preview)[x] == if 0 <= x < n then 1 else 0
  }

  // ----- The repair specification -----

  predicate IntLe(a: int, b: int) { a <= b }

  predicate InRange(position: int, preview: Preview) { 1 <= position <= |preview.knowledge| }

  function GroupTopics(groups: seq<Group>): (r: seq<seq<int>>)
    ensures |r| == |groups| && forall k :: 0 <= k < |groups| ==> r[k] == groups[k].topics
  {
    seq(|groups|, k requires 0 <= k < |groups| => groups[k].topics)
  }

  ghost predicate ValidRepairs(preview: Preview, spec: Spec) {
    && (forall i :: 0 <= i < |spec.repairs| ==> InRange(spec.repairs[i].position, preview) && spec.repairs[i].described)
    && (forall i, j :: 0 <= i < j < |spec.repairs| ==> spec.repairs[i].position != spec.repairs[j].position)
  }

  ghost predicate IsRepaired(spec: Spec, position: int) {
    exists i :: 0 <= i < |spec.repairs| && spec.repairs[i].position == position
  }

  ghost predicate ValidDrops(preview: Preview, spec: Spec) {
    && (forall i :: 0 <= i < |spec.drops| ==> InRange(spec.drops[i], preview) && !IsRepaired(spec, spec.drops[i]))
    && (forall i, j :: 0 <= i < j < |spec.drops| ==> spec.drops[i] != spec.drops[j])
  }

  ghost predicate ValidSplit(preview: Preview, spec: Spec, split: Split) {
    && InRange(split.position, preview)
    && !IsRepaired(spec, split.position) && split.position !in spec.drops
    && |split.groups| >= 2
    && SortBy(Flatten(GroupTopics(split.groups)), IntLe) == preview.knowledge[split.position - 1].topics
    && forall k :: 0 <= k < |split.groups| ==> split.groups[k].described
  }

  ghost predicate ValidSplits(preview: Preview, spec: Spec) {
    && (forall i :: 0 <= i < |spec.splits| ==> ValidSplit(preview, spec, spec.splits[i]))
    && (forall i, j :: 0 <= i < j < |spec.splits| ==> spec.splits[i].position != spec.splits[j].position)
  }

  ghost predicate ValidMerge(preview: Preview, spec: Spec, merge: Merge) {
    && |merge.positions| >= 2 && Ascending(merge.positions) && merge.described
    && forall k :: 0 <= k < |merge.positions| ==> InRange(merge.positions[k], preview) && merge.positions[k] !in spec.drops
  }

  ghost predicate DisjointMerges(a: Merge, b: Merge) { forall x :: x in a.positions ==> x !in b.positions }

  ghost predicate ValidMerges(preview: Preview, spec: Spec) {
    && (forall i :: 0 <= i < |spec.merges| ==> ValidMerge(preview, spec, spec.merges[i]))
    && (forall i, j :: 0 <= i < j < |spec.merges| ==> DisjointMerges(spec.merges[i], spec.merges[j]))
  }

  ghost predicate ValidSpec(preview: Preview, spec: Spec) {
    && ValidRepairs(preview, spec) && ValidDrops(preview, spec) && ValidSplits(preview, spec) && ValidMerges(preview, spec)
    && (spec.merges != [] ==> spec.repairs == [] && spec.splits == [] && spec.inserts == [])
    && !(spec.repairs == [] && spec.splits == [] && spec.drops == [] && spec.inserts == [] && spec.merges == [])
  }

  /** The checks of the specification, in the order of the source. */
  method Validate(preview: Preview, spec: Spec) returns (ok: bool)
    ensures ok <==> ValidSpec(preview, spec)
  {
    hide SortBy, Flatten;
    ok := false;
    var seen: set<int> := {};
    for i := 0 to |spec.repairs|
      invariant forall p :: p in seen <==> exists k :: 0 <= k < i && spec.repairs[k].position == p
      invariant forall k :: 0 <= k < i ==> InRange(spec.repairs[k].position, preview) && spec.repairs[k].described
      invariant forall j, k :: 0 <= j < k < i ==> spec.repairs[j].position != spec.repairs[k].position
    {
      var repair := spec.repairs[i];
      if !InRange(repair.position, preview) || repair.position in seen || !repair.described { return; }
      seen := seen + {repair.position};
    }
    assert forall p :: p in seen <==> IsRepaired(spec, p);
    var dropsOk := ValidateDrops(preview, spec, seen);
    if !dropsOk { return; }
    var splitsOk := ValidateSplits(preview, spec, seen);
    if !splitsOk { return; }
    var mergesOk := ValidateMerges(preview, spec);
    if !mergesOk { return; }
    if spec.merges != [] && (spec.repairs != [] || spec.splits != [] || spec.inserts != []) { return; }
    if spec.repairs == [] && spec.splits == [] && spec.drops == [] && spec.inserts == [] && spec.merges == [] { return; }
    ok := true;
  }

  method ValidateDrops(preview: Preview, spec: Spec, seen: set<int>) returns (ok: bool)
    requires forall p :: p in seen <==> IsRepaired(spec, p)
    ensures ok <==> ValidDrops(preview, spec)
  {
    hide IsRepaired;
    ok := false;
    for i := 0 to |spec.drops|
      invariant forall k :: 0 <= k < i ==> InRange(spec.drops[k], preview) && spec.drops[k] !in seen
      invariant forall j, k :: 0 <= j < k < i ==> spec.drops[j] != spec.drops[k]
    {
      if !InRange(spec.drops[i], preview) || spec.drops[i] in spec.drops[..i] || spec.drops[i] in seen { return; }
    }
    ok := true;
  }

  method ValidateSplits(preview: Preview, spec: Spec, seen: set<int>) returns (ok: bool)
    requires forall p :: p in seen <==> IsRepaired(spec, p)
    ensures ok <==> ValidSplits(preview, spec)
  {
    hide SortBy, Flatten, IsRepaired;
    ok := false;
    var positions: set<int> := {};
    for i := 0 to |spec.splits|
      invariant forall p :: p in positions <==> exists k :: 0 <= k < i && spec.splits[k].position == p
      invariant forall k :: 0 <= k < i ==> ValidSplit(preview, spec, spec.splits[k])
      invariant forall j, k :: 0 <= j < k < i ==> spec.splits[j].position != spec.splits[k].position
    {
      var split := spec.splits[i];
      if !InRange(split.position, preview) || split.position in seen || split.position in spec.drops
         || split.position in positions || |split.groups| < 2 { return; }
      if SortBy(Flatten(GroupTopics(split.groups)), IntLe) != preview.knowledge[split.position - 1].topics
         || exists k :: 0 <= k < |split.groups| && !split.groups[k].described { return; }
      positions := positions + {split.position};
    }
    ok := true;
  }

  method ValidateMerges(preview: Preview, spec: Spec) returns (ok: bool)
    ensures ok <==> ValidMerges(preview, spec)
  {
    hide ValidMerge;
    ok := false;
    var positions: set<int> := {};
    for i := 0 to |spec.merges|
      invariant forall p :: p in positions <==> exists k :: 0 <= k < i && p in spec.merges[k].positions
      invariant forall k :: 0 <= k < i ==> ValidMerge(preview, spec, spec.merges[k])
      invariant forall j, k :: 0 <= j < k < i ==> DisjointMerges(spec.merges[j], spec.merges[k])
    {
      var merge := spec.merges[i];
      var mergeOk := ValidateMerge(preview, spec, merge, positions);
      if !mergeOk { return; }
      positions := positions + SetOf(merge.positions);
    }
    ok := true;
  }

  method ValidateMerge(preview: Preview, spec: Spec, merge: Merge, taken: set<int>) returns (ok: bool)
    ensures ok <==> ValidMerge(preview, spec, merge) && forall p :: p in taken ==> p !in merge.positions
  {
    hide Ascending, SortedSet;
    AscendingIsSortedSet(merge.positions);
    ok := |merge.positions| >= 2 && merge.positions == SortedSet(merge.positions) && merge.described
      && forall k :: 0 <= k < |merge.positions| ==>
           InRange(merge.positions[k], preview) && merge.positions[k] !in taken && merge.positions[k] !in spec.drops;
  }

  lemma {:induction false} AscendingIsSortedSet(s: seq<int>)
    ensures Ascending(s) <==> s == SortedSet(s)
  {
    SortedSetAscending(s);
    if Ascending(s) { SortedSetFixpoint(s); }
  }

  // ----- The phases, in order -----

  function Without(s: seq<int>, removed: seq<int>): (r: seq<int>)
    ensures forall x :: x in r <==> x in s && x !in removed
  {
    if s == [] then []
    else
      assert s == [s[0]] + s[1..];
      if s[0] in removed then Without(s[1..], removed) else [s[0]] + Without(s[1..], removed)
  }

  /** A repaired card may give topics up, and take excluded ones from inside its own span. */
  predicate TopicsAllowed(preview: Preview, previous: seq<int>, topics: seq<int>) {
    && topics != [] && Ascending(topics)
    && forall k :: 0 <= k < |topics| ==>
         || topics[k] in previous
         || (topics[k] in preview.excluded && previous != [] && previous[0] <= topics[k] <= previous[|previous| - 1])
  }

  function RepairTopics(preview: Preview, repair: Repair): (r: Option<Preview>)
    requires InRange(repair.position, preview)
    ensures r.Some? ==> |r.value.knowledge| == |preview.knowledge|
  {
    if repair.topics.None? then Some(preview)
    else
      var card, topics := preview.knowledge[repair.position - 1], repair.topics.value;
      if !TopicsAllowed(preview, card.topics, topics) then None
      else Some(Preview(
        preview.knowledge[repair.position - 1 := card.(topics := topics)],
        SortedSet(Without(preview.excluded + Without(card.topics, topics), topics))))
  }

  ghost predicate RepairsFit(repairs: seq<Repair>, size: nat) {
    forall k :: 0 <= k < |repairs| ==> 1 <= repairs[k].position <= size
  }

  function RepairAllTopics(preview: Preview, repairs: seq<Repair>): (r: Option<Preview>)
    requires RepairsFit(repairs, |preview.knowledge|)
    ensures r.Some? ==> |r.value.knowledge| == |preview.knowledge|
    decreases |repairs|
  {
    if repairs == [] then Some(preview)
    else
      var next := RepairTopics(preview, repairs[0]);
      if next.None? then None
      else
        RepairAllTopics(next.value, repairs[1..])
  }

  ghost predicate PositionsFit(completed: seq<(int, Card)>, size: nat) {
    forall k :: 0 <= k < |completed| ==> 1 <= completed[k].0 <= size
  }

  function AcceptRepaired(cards: seq<Card>, completed: seq<(int, Card)>): (r: Option<seq<Card>>)
    requires PositionsFit(completed, |cards|)
    ensures r.Some? ==> |r.value| == |cards|
    decreases |completed|
  {
    if completed == [] then Some(cards)
    else
      var position, card := completed[0].0, completed[0].1;
      if card.topics != cards[position - 1].topics then None
      else AcceptRepaired(cards[position - 1 := card], completed[1..])
  }

  ghost predicate Fit(positions: seq<int>, size: nat) {
    forall k :: 0 <= k < |positions| ==> 1 <= positions[k] <= size
  }

  function TopicsAt(cards: seq<Card>, positions: seq<int>): seq<int>
    requires Fit(positions, |cards|)
  {
    if positions == [] then [] else cards[positions[0] - 1].topics + TopicsAt(cards, positions[1..])
  }

  function DropCards(preview: Preview, drops: seq<int>): Preview
    requires Fit(drops, |preview.knowledge|)
  {
    Preview(
      Rebuilt(preview.knowledge, Removal(drops)),
      if drops == [] then preview.excluded else SortedSet(preview.excluded + TopicsAt(preview.knowledge, drops)))
  }

  function Jobs(completed: seq<(seq<int>, Card)>): (r: seq<seq<int>>)
    ensures |r| == |completed| && forall k :: 0 <= k < |completed| ==> r[k] == completed[k].0
  {
    seq(|completed|, k requires 0 <= k < |completed| => completed[k].0)
  }

  function Extracted(completed: seq<(seq<int>, Card)>): (r: seq<Card>)
    ensures |r| == |completed| && forall k :: 0 <= k < |completed| ==> r[k] == completed[k].1
  {
    seq(|completed|, k requires 0 <= k < |completed| => completed[k].1)
  }

  /** Every answer keeps the coordinates of its group. */
  predicate Faithful(completed: seq<(seq<int>, Card)>) {
    forall k :: 0 <= k < |completed| ==> completed[k].1.topics == completed[k].0
  }

  function MergedPositions(merges: seq<Merge>): seq<int> {
    if merges == [] then [] else merges[0].positions + MergedPositions(merges[1..])
  }

  ghost predicate MergesFit(merges: seq<Merge>, size: nat) {
    forall i :: 0 <= i < |merges| ==> Fit(merges[i].positions, size)
  }

  lemma {:induction false} MergedPositionsFit(merges: seq<Merge>, preview: Preview, spec: Spec)
    requires forall i :: 0 <= i < |merges| ==> ValidMerge(preview, spec, merges[i])
    ensures MergesFit(merges, |preview.knowledge|) && Fit(MergedPositions(merges), |preview.knowledge|)
    ensures forall p :: p in MergedPositions(merges) ==> p !in spec.drops
    decreases |merges|
  {
    if merges != [] {
      assert ValidMerge(preview, spec, merges[0]);
      MergedPositionsFit(merges[1..], preview, spec);
    }
  }

  function MergeGroups(cards: seq<Card>, merges: seq<Merge>): seq<seq<int>>
    requires MergesFit(merges, |cards|)
  {
    if merges == [] then []
    else [SortedSet(TopicsAt(cards, merges[0].positions))] + MergeGroups(cards, merges[1..])
  }

  function First(card: Card): int { if card.topics == [] then 0 else card.topics[0] }

  predicate FirstLe(a: Card, b: Card) { First(a) <= First(b) }

  lemma {:induction false} SortKeepsTopics(cards: seq<Card>)
    requires HasTopics(cards)
    ensures HasTopics(SortBy(cards, FirstLe))
  {
    var sorted := SortBy(cards, FirstLe);
    MultisetMembers(sorted, cards);
    forall k | 0 <= k < |sorted| ensures sorted[k].topics != [] { assert sorted[k] in cards; }
  }

  /** The dropped and merged positions leave the list `cards`; the merged cards come in by first topic. */
  function MergeCards(cards: seq<Card>, drops: seq<int>, merges: seq<Merge>, completed: seq<(seq<int>, Card)>): Option<seq<Card>> {
    if !Faithful(completed) || !HasTopics(Extracted(completed)) then None
    else
      SortKeepsTopics(Extracted(completed));
      InsertAll(Rebuilt(cards, Removal(drops + MergedPositions(merges))), SortBy(Extracted(completed), FirstLe))
  }

  predicate KeepsCoverage(original: Card, replacement: seq<Card>) {
    SortBy(Topics(replacement), IntLe) == original.topics
  }

  function SplitCards(cards: seq<Card>, drops: seq<int>, answers: map<int, seq<Card>>): Option<seq<Card>>
    requires forall p :: p in answers ==> 1 <= p <= |cards|
  {
    if forall p :: p in answers ==> KeepsCoverage(cards[p - 1], answers[p])
    then Some(Rebuilt(cards, Removal(drops) + answers))
    else None
  }

  predicate InsertAllowed(excluded: seq<int>, group: Group) {
    && group.topics != [] && Ascending(group.topics) && group.described
    && forall k :: 0 <= k < |group.topics| ==> group.topics[k] in excluded
  }

  predicate DisjointGroups(a: Group, b: Group) { forall x :: x in a.topics ==> x !in b.topics }

  predicate ValidInserts(excluded: seq<int>, inserts: seq<Group>) {
    && (forall i :: 0 <= i < |inserts| ==> InsertAllowed(excluded, inserts[i]))
    && (forall i, j :: 0 <= i < j < |inserts| ==> DisjointGroups(inserts[i], inserts[j]))
  }

  lemma {:induction false} InsertedHaveTopics(excluded: seq<int>, inserts: seq<Group>, completed: seq<(seq<int>, Card)>)
    requires ValidInserts(excluded, inserts) && Faithful(completed)
    requires multiset(Jobs(completed)) == multiset(GroupTopics(inserts))
    ensures HasTopics(Extracted(completed))
  {
    MultisetMembers(Jobs(completed), GroupTopics(inserts));
    forall k | 0 <= k < |completed| ensures completed[k].1.topics != [] { assert Jobs(completed)[k] in Jobs(completed); }
  }

  function InsertCards(preview: Preview, inserts: seq<Group>, completed: seq<(seq<int>, Card)>): Option<Preview>
    requires multiset(Jobs(completed)) == multiset(GroupTopics(inserts))
  {
    if !ValidInserts(preview.excluded, inserts) || !Faithful(completed) then None
    else if inserts == [] then Some(preview)
    else
      InsertedHaveTopics(preview.excluded, inserts, completed);
      match InsertAll(preview.knowledge, Extracted(completed))
      case None => None
      case Some(cards) => Some(Preview(cards, SortedSet(Without(preview.excluded, Flatten(GroupTopics(inserts))))))
  }

  // ----- The whole run -----

  function RepairPositions(repairs: seq<Repair>): (r: seq<int>)
    ensures |r| == |repairs| && forall k :: 0 <= k < |repairs| ==> r[k] == repairs[k].position
  {
    seq(|repairs|, k requires 0 <= k < |repairs| => repairs[k].position)
  }

  function RepairedPositions(completed: seq<(int, Card)>): (r: seq<int>)
    ensures |r| == |completed| && forall k :: 0 <= k < |completed| ==> r[k] == completed[k].0
  {
    seq(|completed|, k requires 0 <= k < |completed| => completed[k].0)
  }

  function SplitPositions(splits: seq<Split>): (r: seq<int>)
    ensures |r| == |splits| && forall k :: 0 <= k < |splits| ==> r[k] == splits[k].position
  {
    seq(|splits|, k requires 0 <= k < |splits| => splits[k].position)
  }

  /** Every submitted job completes exactly once. */
  ghost predicate Complete(preview: Preview, spec: Spec, answers: Answers)
    requires ValidSpec(preview, spec)
  {
    && multiset(RepairedPositions(answers.repaired)) == multiset(RepairPositions(spec.repairs))
    && multiset(Jobs(answers.merged)) == multiset(MergeGroups(preview.knowledge, spec.merges))
    && (forall p :: p in answers.split <==> p in SplitPositions(spec.splits))
    && multiset(Jobs(answers.inserted)) == multiset(GroupTopics(spec.inserts))
  }

  lemma {:induction false} CompleteFits(preview: Preview, spec: Spec, answers: Answers)
    requires ValidSpec(preview, spec) && Complete(preview, spec, answers)
    ensures PositionsFit(answers.repaired, |preview.knowledge|)
    ensures forall p :: p in answers.split ==> 1 <= p <= |preview.knowledge| && p !in spec.drops
    ensures RepairsFit(spec.repairs, |preview.knowledge|)
    ensures spec.repairs == [] ==> answers.repaired == []
    ensures Fit(spec.drops, |preview.knowledge|)
  {
    hide MergeGroups, ValidMerges;
    var done, jobs := RepairedPositions(answers.repaired), RepairPositions(spec.repairs);
    MultisetMembers(done, jobs);
    forall k | 0 <= k < |answers.repaired| ensures 1 <= answers.repaired[k].0 <= |preview.knowledge| {
      assert done[k] in jobs;
    }
    assert |done| == |multiset(done)| == |multiset(jobs)| == |jobs|;
  }

  /** What the run makes of the draft, or nothing when it stops with an error. */
  ghost function Applied(preview: Preview, spec: Spec, answers: Answers): Option<Preview>
    requires ValidSpec(preview, spec) && Complete(preview, spec, answers)
  {
    CompleteFits(preview, spec, answers);
    match RepairAllTopics(preview, spec.repairs)
    case None => None
    case Some(repaired) =>
      match AcceptRepaired(repaired.knowledge, answers.repaired)
      case None => None
      case Some(cards) =>
        var excluded := DropCards(Preview(cards, repaired.excluded), spec.drops).excluded;
        match Restructured(cards, spec, answers)
        case None => None
        case Some(knowledge) => InsertCards(Preview(knowledge, excluded), spec.inserts, answers.inserted)
  }

  /** Merges exclude splits, so the cards that stay after the drops are either merged or split. */
  ghost function Restructured(cards: seq<Card>, spec: Spec, answers: Answers): Option<seq<Card>>
    requires forall p :: p in answers.split ==> 1 <= p <= |cards|
  {
    if spec.merges != [] then MergeCards(cards, spec.drops, spec.merges, answers.merged)
    else SplitCards(cards, spec.drops, answers.split)
  }
}
