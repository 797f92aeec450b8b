/** The draft that the repair script edits in place. */
module TopicDraft {
  import opened Options
  import opened IndexSets
  import opened Ordering
  import opened TopicEdits
  import opened TopicRepair

  function Restrict(answers: map<int, seq<Card>>, positions: seq<int>): Edits {
    map p | p in answers && p in positions :: answers[p]
  }

  ghost predicate AllKeepCoverage(cards: seq<Card>, answers: map<int, seq<Card>>, positions: seq<int>) {
    forall p :: p in positions ==> p in answers && 1 <= p <= |cards| && KeepsCoverage(cards[p - 1], answers[p])
  }

  lemma {:induction false} SplitStarts(drops: seq<int>, answers: map<int, seq<Card>>)
    ensures Removal(drops) + Restrict(answers, []) == Removal(drops)
    ensures forall cards :: AllKeepCoverage(cards, answers, [])
  {
  }

  lemma {:induction false} OneMoreKeepsCoverage(cards: seq<Card>, answers: map<int, seq<Card>>, p: int, positions: seq<int>)
    requires AllKeepCoverage(cards, answers, positions)
    requires p in answers && 1 <= p <= |cards| && KeepsCoverage(cards[p - 1], answers[p])
    ensures AllKeepCoverage(cards, answers, [p] + positions)
  {
  }

  lemma {:induction false} SplitEnds(cards: seq<Card>, drops: seq<int>, answers: map<int, seq<Card>>, positions: seq<int>)
    requires forall p :: p in answers ==> 1 <= p <= |cards|
    requires forall p :: p in positions <==> p in answers
    requires AllKeepCoverage(cards, answers, positions)
    ensures SplitCards(cards, drops, answers) == Some(Rebuilt(cards, Removal(drops) + Restrict(answers, positions)))
  {
    hide KeepsCoverage, Rebuilt;
    var same := Restrict(answers, positions);
    assert forall p :: p in same <==> p in answers;
    assert forall p :: p in same ==> same[p] == answers[p];
    assert same == answers;
  }

  lemma {:induction false} NoDrops(preview: Preview)
    ensures DropCards(preview, []) == preview
  {
    NoEdits(preview.knowledge);
    assert Removal([]) == map[];
  }

  class Draft {
    var knowledge: seq<Card>
    var excluded: seq<int>

    function State(): Preview
      reads this
    {
      Preview(knowledge, excluded)
    }

    constructor (preview: Preview)
      ensures State() == preview
    {
      knowledge, excluded := preview.knowledge, preview.excluded;
    }

    method ApplyTopicRepairs(repairs: seq<Repair>) returns (ok: bool)
      requires RepairsFit(repairs, |knowledge|)
      modifies this
      ensures (if ok then Some(State()) else None) == RepairAllTopics(old(State()), repairs)
    {
      for i := 0 to |repairs|
        invariant |knowledge| == |old(knowledge)|
        invariant RepairAllTopics(State(), repairs[i..]) == RepairAllTopics(old(State()), repairs)
      {
        hide SortedSet, Without, Ascending;
        if repairs[i].topics.Some? {
          var position, topics := repairs[i].position, repairs[i].topics.value;
          var previous := knowledge[position - 1].topics;
          if !TopicsAllowed(State(), previous, topics) { return false; }
          knowledge := knowledge[position - 1 := knowledge[position - 1].(topics := topics)];
          excluded := SortedSet(Without(excluded + Without(previous, topics), topics));
        }
      }
      ok := true;
    }

    method AcceptRepairedCards(completed: seq<(int, Card)>) returns (ok: bool)
      requires PositionsFit(completed, |knowledge|)
      modifies this`knowledge
      ensures (if ok then Some(knowledge) else None) == AcceptRepaired(old(knowledge), completed)
    {
      for i := 0 to |completed|
        invariant |knowledge| == |old(knowledge)|
        invariant AcceptRepaired(knowledge, completed[i..]) == AcceptRepaired(old(knowledge), completed)
      {
        var position, card := completed[i].0, completed[i].1;
        if card.topics != knowledge[position - 1].topics { return false; }
        knowledge := knowledge[position - 1 := card];
      }
      ok := true;
    }

    method Drop(drops: seq<int>)
      requires Fit(drops, |knowledge|)
      modifies this
      ensures State() == DropCards(old(State()), drops)
    {
      hide DropCards;
      ghost var before := State();
      var positions := SortedSet(drops);
      SortedSetAscending(drops);
      assert forall j :: 0 <= j < |positions| ==> positions[j] in drops;
      NoDrops(before);
      var k := |positions|;
      assert positions[k..] == [];
      while k > 0
        invariant 0 <= k <= |positions| && Fit(positions, |before.knowledge|)
        invariant State() == DropCards(before, positions[k..])
      {
        k := k - 1;
        DropAt(before, positions[k], positions[k + 1..]);
        assert positions[k..] == [positions[k]] + positions[k + 1..];
      }
      assert positions[0..] == positions;
      DropsAreASet(before, positions, drops);
    }

    method DropAt(ghost before: Preview, position: int, ghost done: seq<int>)
      requires 1 <= position <= |before.knowledge| && Fit(done, |before.knowledge|)
      requires forall k :: 0 <= k < |done| ==> position < done[k]
      requires State() == DropCards(before, done)
      modifies this
      ensures Fit([position] + done, |before.knowledge|)
      ensures State() == DropCards(before, [position] + done)
    {
      hide DropCards;
      DropOne(before, position, done);
      var dropped := knowledge[position - 1];
      knowledge := knowledge[..position - 1] + knowledge[position..];
      excluded := SortedSet(excluded + dropped.topics);
    }

    /** `cards` is the list before the drops, whose positions the merges name. */
    method MergeAt(ghost cards: seq<Card>, drops: seq<int>, merges: seq<Merge>, completed: seq<(seq<int>, Card)>)
      returns (ok: bool)
      requires knowledge == Rebuilt(cards, Removal(drops))
      requires Fit(drops, |cards|) && Distinct(drops)
      requires Fit(MergedPositions(merges), |cards|) && forall p :: p in MergedPositions(merges) ==> p !in drops
      modifies this`knowledge
      ensures (if ok then Some(knowledge) else None) == MergeCards(cards, drops, merges, completed)
    {
      hide Rebuilt, SortedSet, InsertCard, SortBy, CountBelow;
      if exists k :: 0 <= k < |completed| && completed[k].1.topics != completed[k].0 { return false; }
      var merged := Extracted(completed);
      var positions := SortedSet(MergedPositions(merges));
      SortedSetAscending(MergedPositions(merges));
      var k := |positions|;
      assert drops + positions[k..] == drops;
      while k > 0
        invariant 0 <= k <= |positions|
        invariant knowledge == Rebuilt(cards, Removal(drops + positions[k..]))
      {
        k := k - 1;
        var position := positions[k];
        assert position in positions;
        assert positions[k..] == [position] + positions[k + 1..];
        PopAdjusted(cards, drops, position, positions[k + 1..]);
        var adjusted := position - CountBelow(drops, position);
        knowledge := knowledge[..adjusted - 1] + knowledge[adjusted..];
      }
      assert positions[0..] == positions;
      assert Removal(drops + positions) == Removal(drops + MergedPositions(merges));
      if !HasTopics(merged) { return false; }
      SortKeepsTopics(merged);
      ok := InsertInOrder(SortBy(merged, FirstLe));
    }

    method InsertInOrder(cards: seq<Card>) returns (ok: bool)
      requires HasTopics(cards)
      modifies this`knowledge
      ensures (if ok then Some(knowledge) else None) == InsertAll(old(knowledge), cards)
    {
      hide InsertCard;
      for i := 0 to |cards|
        invariant InsertAll(knowledge, cards[i..]) == InsertAll(old(knowledge), cards)
      {
        var inserted := InsertBeforeLarger(cards[i]);
        assert cards[i..][1..] == cards[i + 1..];
        if !inserted { return false; }
      }
      ok := true;
    }

    /** `list.insert` at the first card whose first topic is larger. */
    method InsertBeforeLarger(card: Card) returns (ok: bool)
      requires card.topics != []
      modifies this`knowledge
      ensures (if ok then Some(knowledge) else None) == InsertCard(old(knowledge), card)
    {
      var index := 0;
      PrefixedNothing(InsertCard(knowledge, card));
      assert knowledge[..0] == [] && knowledge[0..] == knowledge;
      while index < |knowledge|
        invariant 0 <= index <= |knowledge| && knowledge == old(knowledge)
        invariant InsertCard(knowledge, card) == Prefixed(knowledge[..index], InsertCard(knowledge[index..], card))
      {
        if knowledge[index].topics == [] { return false; }
        if knowledge[index].topics[0] > card.topics[0] { break; }
        assert knowledge[index..][1..] == knowledge[index + 1..];
        assert knowledge[..index + 1] == knowledge[..index] + [knowledge[index]];
        PrefixedTwice(knowledge[..index], knowledge[index], InsertCard(knowledge[index + 1..], card));
        index := index + 1;
      }
      if index == |knowledge| { assert [card] + knowledge[index..] == [card]; }
      assert InsertCard(knowledge[index..], card) == Some([card] + knowledge[index..]);
      assert knowledge[..index] + ([card] + knowledge[index..]) == knowledge[..index] + [card] + knowledge[index..];
      knowledge := knowledge[..index] + [card] + knowledge[index..];
      ok := true;
    }

    /** `cards` is the list before the drops, whose positions the splits name. */
    method SplitAt(ghost cards: seq<Card>, drops: seq<int>, splits: seq<Split>, answers: map<int, seq<Card>>) returns (ok: bool)
      requires knowledge == Rebuilt(cards, Removal(drops))
      requires Fit(drops, |cards|) && Distinct(drops)
      requires forall p :: p in answers <==> p in SplitPositions(splits)
      requires forall p :: p in answers ==> 1 <= p <= |cards| && p !in drops
      modifies this`knowledge
      ensures (if ok then Some(knowledge) else None) == SplitCards(cards, drops, answers)
    {
      hide Rebuilt, Removal, Restrict, SplitCards, KeepsCoverage, Distinct, SortedSet, SplitPositions, AllKeepCoverage;
      var positions := SortedSet(SplitPositions(splits));
      SortedSetAscending(SplitPositions(splits));
      assert forall p :: p in positions <==> p in answers;
      SplitStarts(drops, answers);
      var k := |positions|;
      assert positions[k..] == [];
      while k > 0
        invariant 0 <= k <= |positions|
        invariant knowledge == Rebuilt(cards, Removal(drops) + Restrict(answers, positions[k..]))
        invariant AllKeepCoverage(cards, answers, positions[k..])
      {
        k := k - 1;
        assert positions[k] in positions;
        var replaced := ReplaceAt(cards, drops, positions[k], answers, positions[k + 1..]);
        if !replaced { return false; }
        OneMoreKeepsCoverage(cards, answers, positions[k], positions[k + 1..]);
        assert positions[k..] == [positions[k]] + positions[k + 1..];
      }
      assert positions[0..] == positions;
      SplitEnds(cards, drops, answers, positions);
      ok := true;
    }

    method ReplaceAt(ghost cards: seq<Card>, drops: seq<int>, position: int, answers: map<int, seq<Card>>, ghost done: seq<int>)
      returns (ok: bool)
      requires 1 <= position <= |cards| && position !in drops && position in answers
      requires Fit(drops, |cards|) && Distinct(drops)
      requires forall p :: p in answers ==> 1 <= p <= |cards|
      requires forall k :: 0 <= k < |done| ==> position < done[k]
      requires knowledge == Rebuilt(cards, Removal(drops) + Restrict(answers, done))
      modifies this`knowledge
      ensures ok <==> KeepsCoverage(cards[position - 1], answers[position])
      ensures ok ==> knowledge == Rebuilt(cards, Removal(drops) + Restrict(answers, [position] + done))
      ensures !ok ==> SplitCards(cards, drops, answers) == None
    {
      hide Rebuilt, Removal, Restrict, KeepsCoverage, CountBelow, Distinct;
      ReplaceAdjusted(cards, drops, position, answers, done);
      var adjusted := position - CountBelow(drops, position);
      var original := knowledge[adjusted - 1];
      knowledge := knowledge[..adjusted - 1] + knowledge[adjusted..];
      ok := KeepsCoverage(original, answers[position]);
      if ok {
        ghost var was := old(knowledge);
        assert knowledge[..adjusted - 1] == was[..adjusted - 1] && knowledge[adjusted - 1..] == was[adjusted..];
        knowledge := knowledge[..adjusted - 1] + answers[position] + knowledge[adjusted - 1..];
      }
    }

    method InsertGroups(inserts: seq<Group>, completed: seq<(seq<int>, Card)>) returns (ok: bool)
      requires multiset(Jobs(completed)) == multiset(GroupTopics(inserts))
      modifies this
      ensures (if ok then Some(State()) else None) == InsertCards(old(State()), inserts, completed)
    {
      hide SortedSet, Without, InsertAll, Flatten, InsertAllowed;
      var taken: set<int> := {};
      for i := 0 to |inserts|
        invariant unchanged(this)
        invariant forall x :: x in taken <==> exists k :: 0 <= k < i && x in inserts[k].topics
        invariant forall k :: 0 <= k < i ==> InsertAllowed(excluded, inserts[k])
        invariant forall j, k :: 0 <= j < k < i ==> DisjointGroups(inserts[j], inserts[k])
      {
        var clash := exists x :: x in inserts[i].topics && x in taken;
        if !InsertAllowed(excluded, inserts[i]) || clash { return false; }
        taken := taken + SetOf(inserts[i].topics);
      }
      if inserts != [] {
        if exists k :: 0 <= k < |completed| && completed[k].1.topics != completed[k].0 { return false; }
        InsertedHaveTopics(excluded, inserts, completed);
        ok := InsertInOrder(Extracted(completed));
        if !ok { return; }
        excluded := SortedSet(Without(excluded, Flatten(GroupTopics(inserts))));
      }
      ok := true;
    }

    /** The edits of the script, phase by phase. */
    method Apply(spec: Spec, answers: Answers) returns (ok: bool)
      requires ValidSpec(State(), spec) && Complete(State(), spec, answers)
      modifies this
      ensures (if ok then Some(State()) else None) == Applied(old(State()), spec, answers)
    {
      hide ValidSpec, Complete, RepairAllTopics, AcceptRepaired, Rebuilt, MergeCards, SplitCards, SortedSet;
      ghost var before := State();
      CompleteFits(before, spec, answers);
      SpecFacts(before, spec, answers);
      ok := ApplyTopicRepairs(spec.repairs);
      if !ok { return; }
      ok := AcceptRepairedCards(answers.repaired);
      if !ok { return; }
      ghost var cards := knowledge;
      Drop(spec.drops);
      if spec.merges != [] {
        ok := MergeAt(cards, spec.drops, spec.merges, answers.merged);
      } else {
        ok := SplitAt(cards, spec.drops, spec.splits, answers.split);
      }
      if !ok { return; }
      ok := InsertGroups(spec.inserts, answers.inserted);
    }
  }

  lemma {:induction false} SpecFacts(preview: Preview, spec: Spec, answers: Answers)
    requires ValidSpec(preview, spec) && Complete(preview, spec, answers)
    ensures RepairsFit(spec.repairs, |preview.knowledge|)
    ensures Distinct(spec.drops)
    ensures Fit(MergedPositions(spec.merges), |preview.knowledge|)
    ensures forall p :: p in MergedPositions(spec.merges) ==> p !in spec.drops
    ensures forall p :: p in answers.split <==> p in SplitPositions(spec.splits)
    ensures multiset(Jobs(answers.inserted)) == multiset(GroupTopics(spec.inserts))
  {
    hide MergeGroups, ValidSplits, DisjointMerges;
    DistinctByIndex(spec.drops);
    MergedPositionsFit(spec.merges, preview, spec);
  }

  /** Below a list of larger edited positions, the original position is still the index. */
  lemma {:induction false} DropOne(preview: Preview, position: int, done: seq<int>)
    requires 1 <= position <= |preview.knowledge| && Fit([position] + done, |preview.knowledge|) && Fit(done, |preview.knowledge|)
    requires forall k :: 0 <= k < |done| ==> position < done[k]
    ensures var now := DropCards(preview, done);
      && position <= |now.knowledge| && now.knowledge[position - 1] == preview.knowledge[position - 1]
      && DropCards(preview, [position] + done)
         == Preview(now.knowledge[..position - 1] + now.knowledge[position..],
                    SortedSet(now.excluded + preview.knowledge[position - 1].topics))
  {
    hide Rebuilt, SortedSet;
    var cards, edits := preview.knowledge, Removal(done);
    assert ([position] + done)[0] == position && ([position] + done)[1..] == done;
    EditAt(cards, edits, position, []);
    AdjustedPosition(cards, edits, [], position);
    assert edits[position := []] == Removal([position] + done);
    ghost var now := Rebuilt(cards, edits);
    assert now[..position - 1] + [] + now[position..] == now[..position - 1] + now[position..];
    var topics := cards[position - 1].topics;
    if done != [] {
      SortedSetSame(preview.excluded + (topics + TopicsAt(cards, done)),
                    SortedSet(preview.excluded + TopicsAt(cards, done)) + topics);
    } else {
      assert topics + TopicsAt(cards, done) == topics;
    }
  }

  lemma {:induction false} TopicsAtMembers(cards: seq<Card>, positions: seq<int>)
    requires Fit(positions, |cards|)
    ensures forall x :: x in TopicsAt(cards, positions) <==>
      exists k :: 0 <= k < |positions| && x in cards[positions[k] - 1].topics
  {
    if positions != [] {
      var rest := positions[1..];
      TopicsAtMembers(cards, rest);
      forall x ensures x in TopicsAt(cards, positions) <==>
        exists k :: 0 <= k < |positions| && x in cards[positions[k] - 1].topics
      {
        if k :| 0 <= k < |rest| && x in cards[rest[k] - 1].topics { assert positions[k + 1] == rest[k]; }
        if k :| 0 <= k < |positions| && x in cards[positions[k] - 1].topics && k > 0 { assert positions[k] == rest[k - 1]; }
      }
    }
  }

  lemma {:induction false} DropsAreASet(preview: Preview, a: seq<int>, b: seq<int>)
    requires Fit(a, |preview.knowledge|) && Fit(b, |preview.knowledge|)
    requires forall p :: p in a <==> p in b
    ensures DropCards(preview, a) == DropCards(preview, b)
  {
    hide Rebuilt, SortedSet, TopicsAt;
    var cards := preview.knowledge;
    assert Removal(a) == Removal(b);
    assert a == [] <==> b == [] by {
      if a != [] { assert a[0] in b; }
      if b != [] { assert b[0] in a; }
    }
    TopicsAtMembers(cards, a);
    TopicsAtMembers(cards, b);
    forall x ensures x in TopicsAt(cards, a) <==> x in TopicsAt(cards, b) {
      if k :| 0 <= k < |a| && x in cards[a[k] - 1].topics { assert a[k] in b; }
      if k :| 0 <= k < |b| && x in cards[b[k] - 1].topics { assert b[k] in a; }
    }
    SortedSetSame(preview.excluded + TopicsAt(cards, a), preview.excluded + TopicsAt(cards, b));
  }

  /** The shifted position addresses the original card, and popping there removes exactly it. */
  lemma {:induction false} PopAdjusted(cards: seq<Card>, drops: seq<int>, position: int, done: seq<int>)
    requires 1 <= position <= |cards| && position !in drops
    requires Fit(drops, |cards|) && Distinct(drops)
    requires forall k :: 0 <= k < |done| ==> position < done[k]
    ensures var now, adjusted := Rebuilt(cards, Removal(drops + done)), position - CountBelow(drops, position);
      && 1 <= adjusted <= |now| && now[adjusted - 1] == cards[position - 1]
      && Rebuilt(cards, Removal(drops + ([position] + done))) == now[..adjusted - 1] + now[adjusted..]
  {
    hide Rebuilt, CountBelow;
    var edits := Removal(drops + done);
    EditAt(cards, edits, position, []);
    AdjustedPosition(cards, edits, drops, position);
    assert edits[position := []] == Removal(drops + ([position] + done));
    var now, i := Rebuilt(cards, edits), ShiftedIndex(cards, edits, position);
    assert now[..i] + [] + now[i + 1..] == now[..i] + now[i + 1..];
  }

  lemma {:induction false} ReplaceAdjusted(cards: seq<Card>, drops: seq<int>, position: int, answers: map<int, seq<Card>>,
                                           done: seq<int>)
    requires 1 <= position <= |cards| && position !in drops && position in answers
    requires Fit(drops, |cards|) && Distinct(drops)
    requires forall k :: 0 <= k < |done| ==> position < done[k]
    ensures var now, adjusted :=
        Rebuilt(cards, Removal(drops) + Restrict(answers, done)), position - CountBelow(drops, position);
      && 1 <= adjusted <= |now| && now[adjusted - 1] == cards[position - 1]
      && Rebuilt(cards, Removal(drops) + Restrict(answers, [position] + done))
         == now[..adjusted - 1] + answers[position] + now[adjusted..]
  {
    hide Rebuilt, CountBelow;
    var edits := Removal(drops) + Restrict(answers, done);
    EditAt(cards, edits, position, answers[position]);
    AdjustedPosition(cards, edits, drops, position);
    assert edits[position := answers[position]] == Removal(drops) + Restrict(answers, [position] + done);
  }

  function Prefixed(prefix: seq<Card>, cards: Option<seq<Card>>): Option<seq<Card>> {
    if cards.Some? then Some(prefix + cards.value) else None
  }

  lemma {:induction false} PrefixedNothing(cards: Option<seq<Card>>)
    ensures Prefixed([], cards) == cards
  {
    if cards.Some? { assert [] + cards.value == cards.value; }
  }

  lemma {:induction false} PrefixedTwice(prefix: seq<Card>, card: Card, cards: Option<seq<Card>>)
    ensures Prefixed(prefix, Prefixed([card], cards)) == Prefixed(prefix + [card], cards)
  {
    if cards.Some? { assert prefix + ([card] + cards.value) == prefix + [card] + cards.value; }
  }

  // ----- Filing the answers of the split jobs -----

  /** The `group`-th part of the split at a position. */
  datatype SplitJob = SplitJob(position: int, group: nat)

  type Filed = map<int, seq<Option<Card>>>

  /** The job is one of those submitted: `sizes` holds the number of groups by position. */
  predicate IsSubmitted(job: SplitJob, sizes: map<int, nat>) { job.position in sizes && job.group < sizes[job.position] }

  ghost predicate Answered(completed: seq<(SplitJob, Card)>, job: SplitJob) {
    exists k :: 0 <= k < |completed| && completed[k].0 == job
  }

  /** Only the positions of completed jobs have slots, as many as their split has groups. */
  ghost predicate HasSlots(filed: Filed, sizes: map<int, nat>, completed: seq<(SplitJob, Card)>) {
    forall p :: p in filed ==>
      p in sizes && |filed[p]| == sizes[p] && exists k :: 0 <= k < |completed| && completed[k].0.position == p
  }

  ghost predicate AnswersStand(filed: Filed, completed: seq<(SplitJob, Card)>) {
    forall k :: 0 <= k < |completed| ==>
      IsIn(filed, completed[k].0) && filed[completed[k].0.position][completed[k].0.group] == Some(completed[k].1)
  }

  ghost predicate OthersEmpty(filed: Filed, completed: seq<(SplitJob, Card)>) {
    forall job :: IsIn(filed, job) && filed[job.position][job.group].Some? ==> Answered(completed, job)
  }

  /** Each answer stands in the slot of its job, and every other slot is empty. */
  ghost predicate IsFiled(filed: Filed, sizes: map<int, nat>, completed: seq<(SplitJob, Card)>) {
    HasSlots(filed, sizes, completed) && AnswersStand(filed, completed) && OthersEmpty(filed, completed)
  }

  predicate IsIn(filed: Filed, job: SplitJob) { job.position in filed && job.group < |filed[job.position]| }

  method FileAnswers(sizes: map<int, nat>, completed: seq<(SplitJob, Card)>) returns (filed: Filed)
    requires forall k :: 0 <= k < |completed| ==> IsSubmitted(completed[k].0, sizes)
    requires forall j, k :: 0 <= j < k < |completed| ==> completed[j].0 != completed[k].0
    ensures IsFiled(filed, sizes, completed)
  {
    filed := map[];
    for i := 0 to |completed|
      invariant IsFiled(filed, sizes, completed[..i])
    {
      hide IsFiled;
      var position, group := completed[i].0.position, completed[i].0.group;
      var slots := if position in filed then filed[position] else seq(sizes[position], _ => None);
      FilesOne(filed, sizes, completed[..i], completed[i].0, completed[i].1);
      filed := filed[position := slots[group := Some(completed[i].1)]];
      assert completed[..i + 1] == completed[..i] + [completed[i]];
    }
    assert completed[..|completed|] == completed;
  }

  lemma {:induction false} FilesOne(filed: Filed, sizes: map<int, nat>, done: seq<(SplitJob, Card)>, job: SplitJob, card: Card)
    requires IsFiled(filed, sizes, done) && IsSubmitted(job, sizes)
    requires forall k :: 0 <= k < |done| ==> done[k].0 != job
    ensures job.position in filed ==> |filed[job.position]| == sizes[job.position]
    ensures var slots := if job.position in filed then filed[job.position] else seq(sizes[job.position], _ => None);
      job.group < |slots| && IsFiled(filed[job.position := slots[job.group := Some(card)]], sizes, done + [(job, card)])
  {
    var all := done + [(job, card)];
    var slots := if job.position in filed then filed[job.position] else seq(sizes[job.position], _ => None);
    var next := filed[job.position := slots[job.group := Some(card)]];
    assert all[|done|] == (job, card);
    assert forall k :: 0 <= k < |done| ==> all[k] == done[k];
    assert HasSlots(next, sizes, all) by { hide AnswersStand, OthersEmpty; }
    assert AnswersStand(next, all) by { hide HasSlots, OthersEmpty; }
    assert OthersEmpty(next, all) by {
      hide HasSlots, AnswersStand;
      assert forall other :: Answered(done, other) ==> Answered(all, other);
    }
  }

  /** Every submitted job has completed. */
  ghost predicate AllAnswered(sizes: map<int, nat>, completed: seq<(SplitJob, Card)>) {
    forall job :: IsSubmitted(job, sizes) ==> Answered(completed, job)
  }

  /** Once all jobs have completed, every slot is filled, and the order of completion does not show. */
  lemma {:induction false} FilingIgnoresOrder(a: Filed, b: Filed, sizes: map<int, nat>,
                                              first: seq<(SplitJob, Card)>, second: seq<(SplitJob, Card)>)
    requires IsFiled(a, sizes, first) && IsFiled(b, sizes, second) && AllAnswered(sizes, first)
    requires multiset(first) == multiset(second)
    requires forall p :: p in sizes ==> sizes[p] > 0
    ensures a == b && a.Keys == sizes.Keys
    ensures forall job :: IsIn(a, job) ==> a[job.position][job.group].Some?
  {
    MultisetMembers(first, second);
    forall p | p in sizes ensures p in a && p in b && a[p] == b[p] && forall g :: 0 <= g < |a[p]| ==> a[p][g].Some? {
      SlotsAgree(a, b, sizes, first, second, p);
    }
    hide AllAnswered;
    assert forall p :: p in a ==> p in sizes;
    assert forall p :: p in b ==> p in sizes;
    hide IsFiled;
    assert a.Keys == sizes.Keys;
  }

  lemma {:induction false} SlotsAgree(a: Filed, b: Filed, sizes: map<int, nat>,
                                      first: seq<(SplitJob, Card)>, second: seq<(SplitJob, Card)>, p: int)
    requires IsFiled(a, sizes, first) && IsFiled(b, sizes, second) && AllAnswered(sizes, first)
    requires p in sizes && sizes[p] > 0 && forall x :: x in first ==> x in second
    ensures p in a && p in b && a[p] == b[p] && forall g :: 0 <= g < |a[p]| ==> a[p][g].Some?
  {
    SlotAgrees(a, b, sizes, first, second, SplitJob(p, 0));
    assert |a[p]| == |b[p]| == sizes[p];
    hide IsFiled, AllAnswered;
    forall g | 0 <= g < |a[p]| ensures a[p][g] == b[p][g] && a[p][g].Some? {
      SlotAgrees(a, b, sizes, first, second, SplitJob(p, g));
    }
  }

  lemma {:induction false} SlotAgrees(a: Filed, b: Filed, sizes: map<int, nat>,
                                      first: seq<(SplitJob, Card)>, second: seq<(SplitJob, Card)>, job: SplitJob)
    requires IsFiled(a, sizes, first) && IsFiled(b, sizes, second) && AllAnswered(sizes, first)
    requires IsSubmitted(job, sizes) && forall x :: x in first ==> x in second
    ensures IsIn(a, job) && IsIn(b, job) && a[job.position][job.group] == b[job.position][job.group] && a[job.position][job.group].Some?
  {
    var k :| 0 <= k < |first| && first[k].0 == job;
    assert first[k] in second;
    var j :| 0 <= j < |second| && second[j] == first[k];
  }
}
