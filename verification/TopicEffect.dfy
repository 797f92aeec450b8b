/** What a repair of a preview does to its cards, and when it succeeds. */
module TopicEffect {
  import opened Options
  import opened IndexSets
  import opened Ordering
  import opened TopicEdits
  import opened TopicRepair
  import opened TopicConservation

  // ----- Topic repairs -----

  /** One repair of topics takes an ascending choice from the card and from the exclusions inside its span, and nothing else. */
  lemma {:induction false} TopicRepairMeans(preview: Preview, repair: Repair, topics: seq<int>)
    requires InRange(repair.position, preview) && repair.topics == Some(topics)
    ensures var card, r := preview.knowledge[repair.position - 1], RepairAllTopics(preview, [repair]);
      && (r.Some? <==>
            && topics != [] && (forall i, j :: 0 <= i < j < |topics| ==> topics[i] < topics[j])
            && forall x :: x in topics ==>
                 x in card.topics || (x in preview.excluded && card.topics != [] && card.topics[0] <= x <= card.topics[|card.topics| - 1]))
      && (r.Some? ==>
            && r.value.knowledge == preview.knowledge[repair.position - 1 := Card(topics, card.text)]
            && forall x :: x in r.value.excluded <==> (x in preview.excluded || x in card.topics) && x !in topics)
  {
    hide SortedSet;
    assert [repair][1..] == [];
    var next := RepairTopics(preview, repair);
    assert RepairAllTopics(preview, [repair]) == next by {
      if next.Some? { assert RepairAllTopics(next.value, []) == next; }
    }
  }

  lemma {:induction false} TopicRepairsJoin(preview: Preview, a: seq<Repair>, b: seq<Repair>)
    requires RepairsFit(a, |preview.knowledge|) && RepairsFit(b, |preview.knowledge|)
    ensures RepairsFit(a + b, |preview.knowledge|)
    ensures RepairAllTopics(preview, a + b) ==
      if RepairAllTopics(preview, a).Some? then RepairAllTopics(RepairAllTopics(preview, a).value, b) else None
    decreases |a|
  {
    hide RepairTopics;
    if a == [] {
      assert a + b == b;
    } else {
      assert (a + b)[0] == a[0] && (a + b)[1..] == a[1..] + b;
      var next := RepairTopics(preview, a[0]);
      if next.Some? { TopicRepairsJoin(next.value, a[1..], b); }
    }
  }

  ghost predicate RepairsDiffer(repairs: seq<Repair>) {
    forall i, j :: 0 <= i < j < |repairs| ==> repairs[i].position != repairs[j].position
  }

  ghost predicate HasRepairAt(repairs: seq<Repair>, p: int) { exists i :: 0 <= i < |repairs| && repairs[i].position == p }

  ghost predicate HasAnswerAt(completed: seq<(int, Card)>, p: int) { exists k :: 0 <= k < |completed| && completed[k].0 == p }

  /** The topics that a card is to have: those that its repair names, and otherwise its own. */
  function AskedTopics(cards: seq<Card>, repair: Repair): seq<int>
    requires 1 <= repair.position <= |cards|
  {
    if repair.topics.Some? then repair.topics.value else cards[repair.position - 1].topics
  }

  lemma {:induction false} TopicRepairsAt(preview: Preview, repairs: seq<Repair>, p: int)
    requires RepairsFit(repairs, |preview.knowledge|) && RepairsDiffer(repairs) && 1 <= p <= |preview.knowledge|
    ensures var r := RepairAllTopics(preview, repairs); r.Some? ==>
      && (forall k :: 0 <= k < |repairs| && repairs[k].position == p ==>
            r.value.knowledge[p - 1].topics == AskedTopics(preview.knowledge, repairs[k]))
      && (!HasRepairAt(repairs, p) ==> r.value.knowledge[p - 1] == preview.knowledge[p - 1])
    decreases |repairs|
  {
    hide SortedSet, TopicsAllowed;
    if repairs != [] {
      var next := RepairTopics(preview, repairs[0]);
      if next.Some? {
        assert forall k :: 0 < k < |repairs| ==> repairs[k] == repairs[1..][k - 1];
        TopicRepairsAt(next.value, repairs[1..], p);
      }
    }
  }

  // ----- Accepted answers -----

  ghost predicate KeepsCoordinates(cards: seq<Card>, completed: seq<(int, Card)>)
    requires PositionsFit(completed, |cards|)
  {
    forall k :: 0 <= k < |completed| ==> completed[k].1.topics == cards[completed[k].0 - 1].topics
  }

  lemma {:induction false} CoordinatesOfRest(cards: seq<Card>, completed: seq<(int, Card)>)
    requires completed != [] && PositionsFit(completed, |cards|)
    requires completed[0].1.topics == cards[completed[0].0 - 1].topics
    ensures PositionsFit(completed[1..], |cards|)
    ensures KeepsCoordinates(cards, completed)
      <==> KeepsCoordinates(cards[completed[0].0 - 1 := completed[0].1], completed[1..])
  {
    var rest, next := completed[1..], cards[completed[0].0 - 1 := completed[0].1];
    assert forall q :: 0 <= q < |cards| ==> next[q].topics == cards[q].topics;
    assert forall k :: 0 <= k < |rest| ==> rest[k] == completed[k + 1];
    if KeepsCoordinates(next, rest) {
      forall k | 0 <= k < |completed| ensures completed[k].1.topics == cards[completed[k].0 - 1].topics {
        if k > 0 { assert rest[k - 1] == completed[k]; }
      }
    }
  }

  /** Answers are accepted exactly when each keeps the coordinates of its card. */
  lemma {:induction false} AcceptedExactlyWhen(cards: seq<Card>, completed: seq<(int, Card)>)
    requires PositionsFit(completed, |cards|)
    ensures AcceptRepaired(cards, completed).Some? <==> KeepsCoordinates(cards, completed)
    decreases |completed|
  {
    if completed != [] && completed[0].1.topics == cards[completed[0].0 - 1].topics {
      CoordinatesOfRest(cards, completed);
      hide KeepsCoordinates;
      AcceptedExactlyWhen(cards[completed[0].0 - 1 := completed[0].1], completed[1..]);
    }
  }

  /** An accepted answer stands in the place of its card; other cards stay. */
  lemma {:induction false} AcceptedAt(cards: seq<Card>, completed: seq<(int, Card)>, p: int)
    requires PositionsFit(completed, |cards|) && PositionsDiffer(completed) && 1 <= p <= |cards|
    ensures var r := AcceptRepaired(cards, completed); r.Some? ==>
      && (forall k :: 0 <= k < |completed| && completed[k].0 == p ==> r.value[p - 1] == completed[k].1)
      && (!HasAnswerAt(completed, p) ==> r.value[p - 1] == cards[p - 1])
    decreases |completed|
  {
    if completed != [] && completed[0].1.topics == cards[completed[0].0 - 1].topics {
      var x, rest := completed[0], completed[1..];
      assert x in completed && forall k :: 0 <= k < |completed| ==> completed[k] in completed;
      assert PositionsDiffer(rest) && forall k :: 0 < k < |completed| ==> completed[k] == rest[k - 1];
      hide PositionsDiffer;
      AcceptedAt(cards[x.0 - 1 := x.1], rest, p);
    }
  }

  /** The answer to the repair of each position. */
  function RepairEdits(completed: seq<(int, Card)>): Edits {
    if completed == [] then map[]
    else RepairEdits(completed[..|completed| - 1])[completed[|completed| - 1].0 := [completed[|completed| - 1].1]]
  }

  lemma {:induction false} RepairEditsAt(completed: seq<(int, Card)>)
    requires PositionsDiffer(completed)
    ensures forall k :: 0 <= k < |completed| ==>
      completed[k].0 in RepairEdits(completed) && RepairEdits(completed)[completed[k].0] == [completed[k].1]
    ensures forall p :: p in RepairEdits(completed) <==> HasAnswerAt(completed, p)
  {
    if completed != [] {
      var n := |completed| - 1;
      var front := completed[..n];
      assert forall k :: 0 <= k < n ==> front[k] == completed[k];
      assert forall k :: 0 <= k <= n ==> completed[k] in completed;
      RepairEditsAt(front);
      forall p ensures HasAnswerAt(completed, p) <==> p == completed[n].0 || HasAnswerAt(front, p) {
        if HasAnswerAt(front, p) {
          var k :| 0 <= k < |front| && front[k].0 == p;
          assert completed[k].0 == p;
        }
      }
    }
  }

  ghost predicate EditedTo(before: seq<Card>, after: seq<Card>, edits: Edits) {
    && |after| == |before|
    && forall q :: 0 <= q < |after| ==> if q + 1 in edits then edits[q + 1] == [after[q]] else after[q] == before[q]
  }

  /** Editing a list whose single cards were replaced before is one edit of the original list; later edits win. */
  lemma {:induction false} EditsCompose(before: seq<Card>, after: seq<Card>, first: Edits, second: Edits)
    requires EditedTo(before, after, first)
    ensures Rebuilt(after, second) == Rebuilt(before, first + second)
  {
    if after != [] {
      var n := |after|;
      assert EditedTo(before[..n - 1], after[..n - 1], first);
      assert after[n - 1] == before[n - 1] || n in first;
      EditsCompose(before[..n - 1], after[..n - 1], first, second);
    }
  }

  // ----- The whole repair -----

  /** Every position that the repair touches, in the numbering of the original list, with what comes in its place. */
  function AllEdits(spec: Spec, answers: Answers): Edits {
    RepairEdits(answers.repaired)
    + if spec.merges != [] then Removal(spec.drops + MergedPositions(spec.merges)) else Removal(spec.drops) + answers.split
  }

  lemma {:induction false} InsertionsKeepCards(cards: seq<Card>, inserted: seq<Card>)
    requires HasTopics(inserted)
    ensures InsertAll(cards, inserted).Some? ==> multiset(InsertAll(cards, inserted).value) == multiset(cards) + multiset(inserted)
    ensures HasTopics(cards) ==> InsertAll(cards, inserted).Some?
    decreases |inserted|
  {
    hide InsertCard;
    if inserted != [] {
      assert inserted == [inserted[0]] + inserted[1..];
      InsertionSucceeds(cards, inserted[0]);
      if InsertCard(cards, inserted[0]).Some? {
        InsertionKeepsCards(cards, inserted[0]);
        InsertionsKeepCards(InsertCard(cards, inserted[0]).value, inserted[1..]);
      }
    }
  }

  lemma {:induction false} InsertionSucceeds(cards: seq<Card>, card: Card)
    requires card.topics != []
    ensures HasTopics(cards) ==> InsertCard(cards, card).Some? && HasTopics(InsertCard(cards, card).value)
  {
    if cards != [] { InsertionSucceeds(cards[1..], card); }
  }

  /** The answer is what the repair of its position asked for. */
  ghost predicate AnswersAsked(cards: seq<Card>, repairs: seq<Repair>, completed: seq<(int, Card)>) {
    forall i, k :: 0 <= i < |repairs| && 0 <= k < |completed| && repairs[i].position == completed[k].0
                   && 1 <= repairs[i].position <= |cards| ==>
      completed[k].1.topics == AskedTopics(cards, repairs[i])
  }

  /** After the topic repairs, the accepted answers edit the original list, and they are accepted when they are as asked. */
  lemma {:induction false} RepairsEdit(preview: Preview, spec: Spec, answers: Answers)
    requires ValidSpec(preview, spec) && Complete(preview, spec, answers)
    requires RepairsFit(spec.repairs, |preview.knowledge|) && PositionsFit(answers.repaired, |preview.knowledge|)
    ensures var repaired := RepairAllTopics(preview, spec.repairs); repaired.Some? ==>
      var accepted := AcceptRepaired(repaired.value.knowledge, answers.repaired);
      && (accepted.Some? <==> AnswersAsked(preview.knowledge, spec.repairs, answers.repaired))
      && (accepted.Some? ==> EditedTo(preview.knowledge, accepted.value, RepairEdits(answers.repaired)))
  {
    hide RepairAllTopics, AcceptRepaired, ValidDrops, ValidSplits, ValidMerges, PositionsDiffer, MergeGroups, RepairEdits, AskedTopics;
    RepairedPositionsDiffer(preview, spec, answers);
    var repaired := RepairAllTopics(preview, spec.repairs);
    if repaired.Some? {
      var cards, completed := repaired.value.knowledge, answers.repaired;
      AcceptedExactlyWhen(cards, completed);
      AsAsked(preview, cards, spec, answers);
      if AcceptRepaired(cards, completed).Some? {
        var accepted := AcceptRepaired(cards, completed).value;
        RepairEditsAt(completed);
        forall q | 0 <= q < |accepted|
          ensures if q + 1 in RepairEdits(completed) then RepairEdits(completed)[q + 1] == [accepted[q]]
                  else accepted[q] == preview.knowledge[q]
        {
          EditedAt(preview, spec, answers, q + 1);
        }
      }
    }
  }

  lemma {:induction false} SamePositions(repairs: seq<Repair>, completed: seq<(int, Card)>, p: int)
    requires multiset(RepairedPositions(completed)) == multiset(RepairPositions(repairs))
    ensures HasRepairAt(repairs, p) <==> HasAnswerAt(completed, p)
  {
    var done, jobs := RepairedPositions(completed), RepairPositions(repairs);
    MultisetMembers(done, jobs);
    assert HasAnswerAt(completed, p) <==> p in done by {
      if p in done {
        var k :| 0 <= k < |done| && done[k] == p;
        assert completed[k].0 == p;
      }
      if HasAnswerAt(completed, p) {
        var k :| 0 <= k < |completed| && completed[k].0 == p;
        assert done[k] == p;
      }
    }
    assert HasRepairAt(repairs, p) <==> p in jobs by {
      if p in jobs {
        var k :| 0 <= k < |jobs| && jobs[k] == p;
        assert repairs[k].position == p;
      }
      if HasRepairAt(repairs, p) {
        var k :| 0 <= k < |repairs| && repairs[k].position == p;
        assert jobs[k] == p;
      }
    }
  }

  /** The answers keep the coordinates of the repaired draft exactly when they have the topics that were asked for. */
  lemma {:induction false} AsAsked(preview: Preview, cards: seq<Card>, spec: Spec, answers: Answers)
    requires ValidRepairs(preview, spec) && RepairsFit(spec.repairs, |preview.knowledge|)
    requires PositionsFit(answers.repaired, |preview.knowledge|) && |cards| == |preview.knowledge|
    requires RepairAllTopics(preview, spec.repairs).Some? && cards == RepairAllTopics(preview, spec.repairs).value.knowledge
    requires multiset(RepairedPositions(answers.repaired)) == multiset(RepairPositions(spec.repairs))
    ensures AnswersAsked(preview.knowledge, spec.repairs, answers.repaired) <==> KeepsCoordinates(cards, answers.repaired)
  {
    hide RepairAllTopics, AskedTopics;
    forall i, k | 0 <= i < |spec.repairs| && 0 <= k < |answers.repaired| && spec.repairs[i].position == answers.repaired[k].0
      ensures cards[answers.repaired[k].0 - 1].topics == AskedTopics(preview.knowledge, spec.repairs[i])
    {
      TopicRepairsAt(preview, spec.repairs, spec.repairs[i].position);
    }
    if AnswersAsked(preview.knowledge, spec.repairs, answers.repaired) {
      forall k | 0 <= k < |answers.repaired| ensures answers.repaired[k].1.topics == cards[answers.repaired[k].0 - 1].topics {
        SamePositions(spec.repairs, answers.repaired, answers.repaired[k].0);
        assert HasAnswerAt(answers.repaired, answers.repaired[k].0);
        var i :| 0 <= i < |spec.repairs| && spec.repairs[i].position == answers.repaired[k].0;
      }
    }
  }

  /** What stands at a position once the answers are accepted. */
  lemma {:induction false} EditedAt(preview: Preview, spec: Spec, answers: Answers, p: int)
    requires ValidRepairs(preview, spec) && PositionsDiffer(answers.repaired) && 1 <= p <= |preview.knowledge|
    requires RepairsFit(spec.repairs, |preview.knowledge|) && PositionsFit(answers.repaired, |preview.knowledge|)
    requires multiset(RepairedPositions(answers.repaired)) == multiset(RepairPositions(spec.repairs))
    requires RepairAllTopics(preview, spec.repairs).Some?
    requires AcceptRepaired(RepairAllTopics(preview, spec.repairs).value.knowledge, answers.repaired).Some?
    ensures var accepted := AcceptRepaired(RepairAllTopics(preview, spec.repairs).value.knowledge, answers.repaired).value;
      if p in RepairEdits(answers.repaired) then RepairEdits(answers.repaired)[p] == [accepted[p - 1]]
      else accepted[p - 1] == preview.knowledge[p - 1]
  {
    hide RepairAllTopics, AcceptRepaired, PositionsDiffer, RepairEdits, AskedTopics;
    TopicRepairsAt(preview, spec.repairs, p);
    AcceptedAt(RepairAllTopics(preview, spec.repairs).value.knowledge, answers.repaired, p);
    SamePositions(spec.repairs, answers.repaired, p);
    RepairEditsAt(answers.repaired);
  }

  lemma {:induction false} NothingCompleted(completed: seq<(seq<int>, Card)>)
    requires multiset(Jobs(completed)) == multiset{}
    ensures completed == [] && Extracted(completed) == []
  {
    assert |multiset(Jobs(completed))| == |Jobs(completed)| == |completed|;
  }

  lemma {:induction false} RestructuredCards(before: seq<Card>, cards: seq<Card>, spec: Spec, answers: Answers)
    requires EditedTo(before, cards, RepairEdits(answers.repaired))
    requires forall p :: p in answers.split ==> 1 <= p <= |cards|
    requires spec.merges == [] ==> answers.merged == []
    ensures var r := Restructured(cards, spec, answers); r.Some? ==>
      && multiset(r.value) == multiset(Rebuilt(before, AllEdits(spec, answers))) + multiset(Extracted(answers.merged))
      && (spec.merges == [] ==> r.value == Rebuilt(before, AllEdits(spec, answers)))
  {
    hide Rebuilt, SortBy, InsertAll, RepairEdits, MergedPositions;
    var second :=
      if spec.merges != [] then Removal(spec.drops + MergedPositions(spec.merges)) else Removal(spec.drops) + answers.split;
    EditsCompose(before, cards, RepairEdits(answers.repaired), second);
    if spec.merges != [] && Restructured(cards, spec, answers).Some? {
      var merged := Extracted(answers.merged);
      SortKeepsTopics(merged);
      InsertionsKeepCards(Rebuilt(cards, second), SortBy(merged, FirstLe));
    }
  }

  /**
   * A repair that succeeds is one edit of the original list, in its own numbering: every repaired card is replaced by its
   * answer, with the topics that were asked for, dropped and merged cards go, split cards are replaced by their parts, and
   * all others stay in order. The merged and inserted cards come in beside these, and nothing else does.
   */
  lemma {:induction false} RepairEditsTheList(preview: Preview, spec: Spec, answers: Answers)
    requires ValidSpec(preview, spec) && Complete(preview, spec, answers) && Applied(preview, spec, answers).Some?
    ensures var r, edited := Applied(preview, spec, answers).value, Rebuilt(preview.knowledge, AllEdits(spec, answers));
      && multiset(r.knowledge) == multiset(edited) + multiset(Extracted(answers.merged)) + multiset(Extracted(answers.inserted))
      && (spec.merges == [] && spec.inserts == [] ==> r.knowledge == edited)
      && AnswersAsked(preview.knowledge, spec.repairs, answers.repaired)
  {
    hide Rebuilt, SortBy, InsertAll, RepairEdits, MergedPositions, RepairAllTopics, AcceptRepaired, Restructured, ValidSplits, ValidRepairs,
      ValidDrops, ValidMerges, SortedSet, TopicsAt, Flatten, EditedTo;
    CompleteFits(preview, spec, answers);
    RepairsEdit(preview, spec, answers);
    NoJobs(preview, spec, answers);
    var repaired := RepairAllTopics(preview, spec.repairs);
    var accepted := AcceptRepaired(repaired.value.knowledge, answers.repaired);
    var cards := accepted.value;
    RestructuredCards(preview.knowledge, cards, spec, answers);
    var knowledge := Restructured(cards, spec, answers).value;
    if spec.inserts != [] {
      var excluded := DropCards(Preview(cards, repaired.value.excluded), spec.drops).excluded;
      InsertedHaveTopics(excluded, spec.inserts, answers.inserted);
      InsertionsKeepCards(knowledge, Extracted(answers.inserted));
    }
  }

  lemma {:induction false} NoJobs(preview: Preview, spec: Spec, answers: Answers)
    requires ValidSpec(preview, spec) && Complete(preview, spec, answers)
    ensures spec.merges == [] ==> answers.merged == [] && Extracted(answers.merged) == []
    ensures spec.inserts == [] ==> answers.inserted == [] && Extracted(answers.inserted) == []
  {
    hide ValidSplits, ValidRepairs, ValidDrops, ValidMerges;
    if spec.merges == [] { NothingCompleted(answers.merged); }
    if spec.inserts == [] {
      assert GroupTopics(spec.inserts) == [];
      NothingCompleted(answers.inserted);
    }
  }

  /** Of a draft that names no topic twice, the topics that no card covers afterwards are excluded, and no others. */
  lemma {:induction false} ExcludedIsTheRest(preview: Preview, spec: Spec, answers: Answers, x: int)
    requires ValidSpec(preview, spec) && Complete(preview, spec, answers) && Applied(preview, spec, answers).Some?
    requires Simple(Contents(preview))
    ensures var r := Applied(preview, spec, answers).value;
      x in r.excluded <==> (x in Topics(preview.knowledge) || x in preview.excluded) && x !in Topics(r.knowledge)
  {
    hide Applied, ValidSpec, Complete, Topics;
    RepairConserves(preview, spec, answers);
    var r := Applied(preview, spec, answers).value;
    assert Contents(r)[x] == Contents(preview)[x] <= 1;
    assert x in r.excluded <==> multiset(r.excluded)[x] > 0;
    assert x in preview.excluded <==> multiset(preview.excluded)[x] > 0;
    assert x in Topics(r.knowledge) <==> multiset(Topics(r.knowledge))[x] > 0;
    assert x in Topics(preview.knowledge) <==> multiset(Topics(preview.knowledge))[x] > 0;
  }

  // ----- When a repair succeeds -----

  lemma {:induction false} TopicRepairsKeepTopics(preview: Preview, repairs: seq<Repair>)
    requires RepairsFit(repairs, |preview.knowledge|) && HasTopics(preview.knowledge)
    ensures RepairAllTopics(preview, repairs).Some? ==> HasTopics(RepairAllTopics(preview, repairs).value.knowledge)
    decreases |repairs|
  {
    hide SortedSet;
    if repairs != [] {
      var next := RepairTopics(preview, repairs[0]);
      if next.Some? { TopicRepairsKeepTopics(next.value, repairs[1..]); }
    }
  }

  lemma {:induction false} RebuiltHasTopics(cards: seq<Card>, edits: Edits)
    requires HasTopics(cards) && forall p :: p in edits ==> HasTopics(edits[p])
    ensures HasTopics(Rebuilt(cards, edits))
  {
    if cards != [] { RebuiltHasTopics(cards[..|cards| - 1], edits); }
  }

  lemma {:induction false} MergedHaveTopics(cards: seq<Card>, merges: seq<Merge>, completed: seq<(seq<int>, Card)>)
    requires HasTopics(cards) && MergesFit(merges, |cards|) && forall i :: 0 <= i < |merges| ==> merges[i].positions != []
    requires multiset(Jobs(completed)) == multiset(MergeGroups(cards, merges)) && Faithful(completed)
    ensures HasTopics(Extracted(completed))
  {
    hide MergeGroups, MergesFit;
    MultisetMembers(Jobs(completed), MergeGroups(cards, merges));
    GroupsHaveTopics(cards, merges);
    forall k | 0 <= k < |completed| ensures completed[k].1.topics != [] {
      assert Jobs(completed)[k] in MergeGroups(cards, merges);
    }
  }

  lemma {:induction false} GroupsHaveTopics(cards: seq<Card>, merges: seq<Merge>)
    requires HasTopics(cards) && MergesFit(merges, |cards|) && forall i :: 0 <= i < |merges| ==> merges[i].positions != []
    ensures forall g :: g in MergeGroups(cards, merges) ==> g != []
    decreases |merges|
  {
    hide SortedSet;
    if merges != [] {
      GroupsHaveTopics(cards, merges[1..]);
      var topics := TopicsAt(cards, merges[0].positions);
      assert topics[0] in topics && topics[0] in SortedSet(topics);
    }
  }

  /** Dropping a card excludes its topics beside those that are excluded already. */
  lemma {:induction false} DroppedAreExcluded(draft: Preview, drops: seq<int>, x: int)
    requires Fit(drops, |draft.knowledge|)
    ensures x in DropCards(draft, drops).excluded <==>
      x in draft.excluded || exists k :: 0 <= k < |drops| && x in draft.knowledge[drops[k] - 1].topics
  {
    hide SortedSet, Rebuilt;
    AtPositions(draft.knowledge, drops, x);
  }

  lemma {:induction false} AtPositions(cards: seq<Card>, positions: seq<int>, x: int)
    requires Fit(positions, |cards|)
    ensures x in TopicsAt(cards, positions) <==> exists k :: 0 <= k < |positions| && x in cards[positions[k] - 1].topics
  {
    if positions != [] {
      var rest := positions[1..];
      AtPositions(cards, rest, x);
      hide TopicsAt;
      assert TopicsAt(cards, positions) == cards[positions[0] - 1].topics + TopicsAt(cards, rest) by { AtFirst(cards, positions); }
      if k :| 0 <= k < |rest| && x in cards[rest[k] - 1].topics { assert x in cards[positions[k + 1] - 1].topics; }
      if x in cards[positions[0] - 1].topics {
      } else if k :| 0 <= k < |positions| && x in cards[positions[k] - 1].topics {
        assert k > 0 && rest[k - 1] == positions[k];
      }
    }
  }

  lemma {:induction false} AtFirst(cards: seq<Card>, positions: seq<int>)
    requires Fit(positions, |cards|) && positions != []
    ensures TopicsAt(cards, positions) == cards[positions[0] - 1].topics + TopicsAt(cards, positions[1..])
  {
  }

  /** The groups are described, ascending, apart from each other, and of topics that are excluded or leave with a dropped card. */
  ghost predicate MayBeInserted(excluded: seq<int>, cards: seq<Card>, drops: seq<int>, inserts: seq<Group>)
    requires Fit(drops, |cards|)
  {
    && (forall i :: 0 <= i < |inserts| ==>
          && inserts[i].described && inserts[i].topics != [] && Ascending(inserts[i].topics)
          && forall x :: x in inserts[i].topics ==>
               x in excluded || exists k :: 0 <= k < |drops| && x in cards[drops[k] - 1].topics)
    && forall i, j, x :: 0 <= i < j < |inserts| && x in inserts[i].topics ==> x !in inserts[j].topics
  }

  lemma {:induction false} InsertsAllowedExactlyWhen(excluded: seq<int>, cards: seq<Card>, drops: seq<int>, inserts: seq<Group>)
    requires Fit(drops, |cards|)
    ensures ValidInserts(DropCards(Preview(cards, excluded), drops).excluded, inserts) <==> MayBeInserted(excluded, cards, drops, inserts)
  {
    hide DropCards, Ascending;
    var all := DropCards(Preview(cards, excluded), drops).excluded;
    forall x
      ensures x in all <==> x in excluded || exists k :: 0 <= k < |drops| && x in cards[drops[k] - 1].topics
    {
      DroppedAreExcluded(Preview(cards, excluded), drops, x);
    }
    if MayBeInserted(excluded, cards, drops, inserts) {
      forall i | 0 <= i < |inserts| ensures InsertAllowed(all, inserts[i]) {
        forall k | 0 <= k < |inserts[i].topics| ensures inserts[i].topics[k] in all {
          var x := inserts[i].topics[k];
          assert x in inserts[i].topics;
          assert x in excluded || exists m :: 0 <= m < |drops| && x in cards[drops[m] - 1].topics;
        }
      }
    }
    if ValidInserts(all, inserts) {
      forall i | 0 <= i < |inserts|
        ensures inserts[i].described && inserts[i].topics != [] && Ascending(inserts[i].topics)
        ensures forall x :: x in inserts[i].topics ==> x in all
      {
        assert InsertAllowed(all, inserts[i]);
      }
      forall i, j, x | 0 <= i < j < |inserts| && x in inserts[i].topics ensures x !in inserts[j].topics {
        assert DisjointGroups(inserts[i], inserts[j]);
      }
    }
  }

  /** The cards before the restructuring: accepted answers, and elsewhere the original cards; all with topics. */
  lemma {:induction false} DraftBefore(preview: Preview, spec: Spec, answers: Answers)
    requires ValidSpec(preview, spec) && Complete(preview, spec, answers) && HasTopics(preview.knowledge)
    requires RepairsFit(spec.repairs, |preview.knowledge|) && PositionsFit(answers.repaired, |preview.knowledge|)
    requires RepairAllTopics(preview, spec.repairs).Some?
    requires AcceptRepaired(RepairAllTopics(preview, spec.repairs).value.knowledge, answers.repaired).Some?
    ensures var cards := AcceptRepaired(RepairAllTopics(preview, spec.repairs).value.knowledge, answers.repaired).value;
      && HasTopics(cards) && |cards| == |preview.knowledge|
      && (forall p :: p in spec.drops || p in answers.split ==> 1 <= p <= |cards| && cards[p - 1] == preview.knowledge[p - 1])
      && (spec.merges != [] ==> cards == preview.knowledge)
  {
    hide RepairAllTopics, AcceptRepaired, ValidMerges, MergeGroups, RepairEdits, AnswersAsked, PositionsDiffer;
    CompleteFits(preview, spec, answers);
    MergesSkipRepairs(preview, spec, answers);
    RepairedPositionsDiffer(preview, spec, answers);
    var repaired := RepairAllTopics(preview, spec.repairs).value.knowledge;
    TopicRepairsKeepTopics(preview, spec.repairs);
    AcceptedKeepCoordinates(repaired, answers.repaired);
    var cards := AcceptRepaired(repaired, answers.repaired).value;
    assert forall k :: 0 <= k < |cards| ==> Coordinates(cards)[k] == Coordinates(repaired)[k];
    forall p | p in spec.drops || p in answers.split ensures 1 <= p <= |cards| && cards[p - 1] == preview.knowledge[p - 1] {
      UntouchedByRepairs(preview, spec, answers, p);
      EditedAt(preview, spec, answers, p);
      RepairEditsAt(answers.repaired);
      SamePositions(spec.repairs, answers.repaired, p);
    }
  }

  lemma {:induction false} UntouchedByRepairs(preview: Preview, spec: Spec, answers: Answers, p: int)
    requires ValidSpec(preview, spec) && Complete(preview, spec, answers) && (p in spec.drops || p in answers.split)
    ensures 1 <= p <= |preview.knowledge| && !HasRepairAt(spec.repairs, p)
  {
    hide ValidMerges, MergeGroups, SortBy;
    if p in spec.drops {
      var i :| 0 <= i < |spec.drops| && spec.drops[i] == p;
      assert !IsRepaired(spec, spec.drops[i]);
    } else {
      var i :| 0 <= i < |spec.splits| && SplitPositions(spec.splits)[i] == p;
      assert ValidSplit(preview, spec, spec.splits[i]);
    }
  }

  /** The parts of a split hold exactly the topics of their card. */
  ghost predicate SplitsCover(cards: seq<Card>, split: map<int, seq<Card>>) {
    forall p :: p in split ==> 1 <= p <= |cards| && SortBy(Topics(split[p]), IntLe) == cards[p - 1].topics
  }

  lemma {:induction false} RestructuresExactlyWhen(preview: Preview, cards: seq<Card>, spec: Spec, answers: Answers)
    requires ValidSpec(preview, spec) && Complete(preview, spec, answers) && HasTopics(cards) && |cards| == |preview.knowledge|
    requires forall p :: p in answers.split ==> 1 <= p <= |cards| && cards[p - 1] == preview.knowledge[p - 1]
    requires (spec.merges != [] ==> cards == preview.knowledge) && forall p :: p in answers.split ==> HasTopics(answers.split[p])
    ensures Restructured(cards, spec, answers).Some? <==>
      Faithful(answers.merged) && (spec.merges == [] ==> SplitsCover(preview.knowledge, answers.split))
    ensures Restructured(cards, spec, answers).Some? && spec.inserts != [] ==> HasTopics(Restructured(cards, spec, answers).value)
  {
    hide Rebuilt, SortBy, InsertAll, MergedPositions, HasTopics, ValidSplits, ValidRepairs, Topics, MergeGroups;
    if spec.merges != [] {
      var merged := Extracted(answers.merged);
      MergesFacts(preview, spec);
      var gone := Removal(spec.drops + MergedPositions(spec.merges));
      assert HasTopics(Rebuilt(cards, gone)) by { NoneHaveTopics(); RebuiltHasTopics(cards, gone); }
      if Faithful(answers.merged) {
        MergedHaveTopics(preview.knowledge, spec.merges, answers.merged);
        SortKeepsTopics(merged);
        InsertionsKeepCards(Rebuilt(cards, gone), SortBy(merged, FirstLe));
      }
    } else {
      NoJobs(preview, spec, answers);
      var edits := Removal(spec.drops) + answers.split;
      assert HasTopics(Rebuilt(cards, edits)) by { NoneHaveTopics(); RebuiltHasTopics(cards, edits); }
    }
  }

  lemma {:induction false} NoneHaveTopics()
    ensures HasTopics([])
  {
  }

  /**
   * For cards that have topics: the repair succeeds exactly when its topic repairs are allowed, every answer has the
   * coordinates that were asked for, the parts of a split cover their card, and the inserted groups are excluded by then.
   */
  lemma {:induction false} RepairSucceedsExactlyWhen(preview: Preview, spec: Spec, answers: Answers)
    requires ValidSpec(preview, spec) && Complete(preview, spec, answers)
    requires HasTopics(preview.knowledge) && forall p :: p in answers.split ==> HasTopics(answers.split[p])
    requires RepairsFit(spec.repairs, |preview.knowledge|) && Fit(spec.drops, |preview.knowledge|)
    ensures Applied(preview, spec, answers).Some? <==>
      && RepairAllTopics(preview, spec.repairs).Some? && AnswersAsked(preview.knowledge, spec.repairs, answers.repaired)
      && Faithful(answers.merged) && (spec.merges == [] ==> SplitsCover(preview.knowledge, answers.split))
      && MayBeInserted(RepairAllTopics(preview, spec.repairs).value.excluded, preview.knowledge, spec.drops, spec.inserts)
      && Faithful(answers.inserted)
  {
    hide Rebuilt, SortBy, InsertAll, RepairEdits, MergedPositions, RepairAllTopics, AcceptRepaired, Restructured, ValidSplits, ValidRepairs,
      ValidDrops, ValidMerges, SortedSet, TopicsAt, Flatten, EditedTo, MayBeInserted, ValidInserts, Faithful, AnswersAsked, SplitsCover, HasTopics;
    CompleteFits(preview, spec, answers);
    RepairsEdit(preview, spec, answers);
    var repaired := RepairAllTopics(preview, spec.repairs);
    if repaired.Some? {
      var accepted := AcceptRepaired(repaired.value.knowledge, answers.repaired);
      if accepted.Some? {
        DraftBefore(preview, spec, answers);
        RestructuresExactlyWhen(preview, accepted.value, spec, answers);
        SameDrops(repaired.value.excluded, accepted.value, preview.knowledge, spec.drops);
        InsertsAllowedExactlyWhen(repaired.value.excluded, preview.knowledge, spec.drops, spec.inserts);
        var excluded := DropCards(Preview(accepted.value, repaired.value.excluded), spec.drops).excluded;
        if ValidInserts(excluded, spec.inserts) && Faithful(answers.inserted) && Restructured(accepted.value, spec, answers).Some? {
          InsertedHaveTopics(excluded, spec.inserts, answers.inserted);
          InsertionsKeepCards(Restructured(accepted.value, spec, answers).value, Extracted(answers.inserted));
        }
      }
    }
  }

  lemma {:induction false} SameDrops(excluded: seq<int>, a: seq<Card>, b: seq<Card>, drops: seq<int>)
    requires |a| == |b| && Fit(drops, |a|) && forall p :: p in drops ==> 1 <= p <= |a| && a[p - 1] == b[p - 1]
    ensures DropCards(Preview(a, excluded), drops).excluded == DropCards(Preview(b, excluded), drops).excluded
  {
    hide SortedSet, Rebuilt;
    assert forall k :: 0 <= k < |drops| ==> drops[k] in drops;
    SameAt(a, b, drops);
  }

  lemma {:induction false} SameAt(a: seq<Card>, b: seq<Card>, drops: seq<int>)
    requires |a| == |b| && Fit(drops, |a|)
    requires forall k :: 0 <= k < |drops| ==> a[drops[k] - 1] == b[drops[k] - 1]
    ensures TopicsAt(a, drops) == TopicsAt(b, drops)
  {
    if drops != [] {
      var rest := drops[1..];
      assert forall k :: 0 <= k < |rest| ==> rest[k] == drops[k + 1];
      SameAt(a, b, rest);
    }
  }
}
