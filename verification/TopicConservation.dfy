/** Every repair of a preview keeps each topic in exactly one card or among the exclusions. */
module TopicConservation {
  import opened Options
  import opened IndexSets
  import opened Ordering
  import opened TopicDraft
  import opened TopicEdits
  import opened TopicRepair

  // ----- Topic repairs -----

  /** Giving topics up excludes them; taking excluded topics in removes them there. */
  lemma {:induction false} ExchangeCounts(excluded: seq<int>, previous: seq<int>, topics: seq<int>)
    requires forall x :: multiset(excluded)[x] + multiset(previous)[x] <= 1
    requires Ascending(topics) && forall x :: x in topics ==> x in previous || x in excluded
    ensures multiset(SortedSet(Without(excluded + Without(previous, topics), topics))) + multiset(topics)
         == multiset(excluded) + multiset(previous)
  {
    hide SortedSet, Without, Ascending;
    var kept := Without(excluded + Without(previous, topics), topics);
    SortedSetCounts(kept);
    AscendingCounts(topics);
    forall x ensures multiset(SortedSet(kept))[x] + multiset(topics)[x] == multiset(excluded)[x] + multiset(previous)[x] {
      assert x in kept <==> (x in excluded || x in previous) && x !in topics;
      assert x in excluded <==> multiset(excluded)[x] > 0;
      assert x in previous <==> multiset(previous)[x] > 0;
    }
  }

  lemma {:induction false} TopicsOfUpdate(cards: seq<Card>, i: nat, card: Card)
    requires i < |cards|
    ensures multiset(Topics(cards[i := card])) + multiset(cards[i].topics) == multiset(Topics(cards)) + multiset(card.topics)
  {
    TopicsOfSplice(cards, i, [card]);
    TopicsOne(card);
    assert cards[i := card] == cards[..i] + [card] + cards[i + 1..];
  }

  /** The coordinates of one card are part of the coordinates of all. */
  lemma {:induction false} CardIsPart(cards: seq<Card>, i: nat)
    requires i < |cards|
    ensures forall x :: multiset(cards[i].topics)[x] <= multiset(Topics(cards))[x]
  {
    hide Topics;
    var rest := cards[..i] + [] + cards[i + 1..];
    TopicsOfSplice(cards, i, []);
    NoTopics();
    forall x ensures multiset(cards[i].topics)[x] <= multiset(Topics(cards))[x] {
      assert (multiset(Topics(rest)) + multiset(cards[i].topics))[x] == (multiset(Topics(cards)) + multiset(Topics([])))[x];
    }
  }

  /** What one part gains and the other loses leaves the whole unchanged. */
  lemma {:induction false} ExchangeBalances(a: multiset<int>, a': multiset<int>, b: multiset<int>, b': multiset<int>,
                                            p: multiset<int>, q: multiset<int>)
    requires a' + p == a + q && b' + q == b + p
    ensures a' + b' == a + b
  {
    forall x ensures (a' + b')[x] == (a + b)[x] {
      assert (a' + p)[x] == (a + q)[x] && (b' + q)[x] == (b + p)[x];
    }
  }

  lemma {:induction false} CancelsOut(a: multiset<int>, a': multiset<int>, p: multiset<int>)
    requires a' + p == a + p
    ensures a' == a
  {
    forall x ensures a'[x] == a[x] { assert (a' + p)[x] == (a + p)[x]; }
  }

  lemma {:induction false} TopicRepairConserves(preview: Preview, repair: Repair)
    requires InRange(repair.position, preview) && Simple(Contents(preview))
    ensures var r := RepairTopics(preview, repair); r.Some? ==> Contents(r.value) == Contents(preview)
  {
    hide SortedSet, Without, Ascending, Topics;
    var i := repair.position - 1;
    var previous := preview.knowledge[i].topics;
    if repair.topics.Some? && TopicsAllowed(preview, previous, repair.topics.value) {
      var topics := repair.topics.value;
      CardIsPart(preview.knowledge, i);
      forall x ensures multiset(preview.excluded)[x] + multiset(previous)[x] <= 1 {
        assert Contents(preview)[x] <= 1;
      }
      ExchangeCounts(preview.excluded, previous, topics);
      var card := preview.knowledge[i].(topics := topics);
      TopicsOfUpdate(preview.knowledge, i, card);
      var r := RepairTopics(preview, repair).value;
      ExchangeBalances(multiset(Topics(preview.knowledge)), multiset(Topics(r.knowledge)),
                       multiset(preview.excluded), multiset(r.excluded), multiset(previous), multiset(topics));
    }
  }

  lemma {:induction false} TopicRepairsConserve(preview: Preview, repairs: seq<Repair>)
    requires RepairsFit(repairs, |preview.knowledge|) && Simple(Contents(preview))
    ensures var r := RepairAllTopics(preview, repairs); r.Some? ==> Contents(r.value) == Contents(preview)
    decreases |repairs|
  {
    hide RepairTopics, Contents;
    if repairs != [] {
      var next := RepairTopics(preview, repairs[0]);
      TopicRepairConserves(preview, repairs[0]);
      if next.Some? { TopicRepairsConserve(next.value, repairs[1..]); }
    }
  }

  lemma {:induction false} AcceptedKeepCoordinates(cards: seq<Card>, completed: seq<(int, Card)>)
    requires PositionsFit(completed, |cards|)
    ensures var r := AcceptRepaired(cards, completed); r.Some? ==> Coordinates(r.value) == Coordinates(cards)
    decreases |completed|
  {
    if completed != [] {
      var position, card := completed[0].0, completed[0].1;
      if card.topics == cards[position - 1].topics {
        AcceptedKeepCoordinates(cards[position - 1 := card], completed[1..]);
        assert Coordinates(cards[position - 1 := card]) == Coordinates(cards);
      }
    }
  }

  // ----- Drops, merges and splits -----

  lemma {:induction false} EditExchanges(cards: seq<Card>, edits: Edits, p: int, r: seq<Card>)
    requires 1 <= p <= |cards| && p !in edits
    ensures multiset(Topics(Rebuilt(cards, edits[p := r]))) + multiset(cards[p - 1].topics)
         == multiset(Topics(Rebuilt(cards, edits))) + multiset(Topics(r))
  {
    hide Rebuilt, Topics;
    EditAt(cards, edits, p, r);
    TopicsOfSplice(Rebuilt(cards, edits), ShiftedIndex(cards, edits, p), r);
  }

  /** What the removed positions held is exactly what the list loses. */
  lemma {:induction false} RemovalExchanges(cards: seq<Card>, positions: seq<int>)
    requires Fit(positions, |cards|) && Distinct(positions)
    ensures multiset(Topics(Rebuilt(cards, Removal(positions)))) + multiset(TopicsAt(cards, positions))
         == multiset(Topics(cards))
  {
    hide Rebuilt, Topics;
    if positions == [] {
      NoEdits(cards);
      assert Removal([]) == map[];
    } else {
      var p, rest := positions[0], positions[1..];
      DistinctTail(positions);
      RemovalExchanges(cards, rest);
      assert Removal(positions) == Removal(rest)[p := []] by { assert positions == [p] + rest; }
      EditExchanges(cards, Removal(rest), p, []);
      NoTopics();
      TopicsAtHead(cards, positions);
      ExchangeBalances(multiset(Topics(Rebuilt(cards, Removal(rest)))), multiset(Topics(Rebuilt(cards, Removal(positions)))),
                       multiset(TopicsAt(cards, rest)), multiset(TopicsAt(cards, positions)),
                       multiset(cards[p - 1].topics), multiset{});
    }
  }

  lemma {:induction false} TopicsAtHead(cards: seq<Card>, positions: seq<int>)
    requires Fit(positions, |cards|) && positions != []
    ensures multiset(TopicsAt(cards, positions)) == multiset(TopicsAt(cards, positions[1..])) + multiset(cards[positions[0] - 1].topics)
  {
  }

  lemma {:induction false} NoTopics()
    ensures Topics([]) == []
  {
    assert Coordinates([]) == [];
  }

  lemma {:induction false} DistinctTail(s: seq<int>)
    requires s != [] && Distinct(s)
    ensures Distinct(s[1..]) && s[0] !in s[1..]
  {
    var head, rest := s[0], s[1..];
    assert s == [head] + rest;
    assert multiset(s) == multiset{head} + multiset(rest);
    assert multiset(s)[head] <= 1;
    forall x ensures multiset(rest)[x] <= 1 { assert multiset(s)[x] <= 1; }
    assert head in rest <==> multiset(rest)[head] > 0;
  }

  lemma {:induction false} DropConserves(preview: Preview, drops: seq<int>)
    requires Fit(drops, |preview.knowledge|) && Distinct(drops) && Simple(Contents(preview))
    ensures Contents(DropCards(preview, drops)) == Contents(preview)
  {
    hide Rebuilt, Topics, SortedSet, TopicsAt;
    RemovalExchanges(preview.knowledge, drops);
    var dropped := TopicsAt(preview.knowledge, drops);
    if drops == [] {
      NoEdits(preview.knowledge);
      assert Removal([]) == map[];
    } else {
      forall x ensures multiset(preview.excluded)[x] + multiset(dropped)[x] <= 1 { assert Contents(preview)[x] <= 1; }
      UnionCounts(preview.excluded, dropped);
    }
  }

  lemma {:induction false} UnionCounts(a: seq<int>, b: seq<int>)
    requires forall x :: multiset(a)[x] + multiset(b)[x] <= 1
    ensures multiset(SortedSet(a + b)) == multiset(a) + multiset(b)
  {
    hide SortedSet;
    SortedSetCounts(a + b);
    forall x ensures multiset(SortedSet(a + b))[x] == multiset(a)[x] + multiset(b)[x] {
      assert x in a + b <==> multiset(a + b)[x] > 0;
      assert multiset(a + b)[x] == multiset(a)[x] + multiset(b)[x];
    }
  }

  lemma {:induction false} TopicsAtConcat(cards: seq<Card>, a: seq<int>, b: seq<int>)
    requires Fit(a, |cards|) && Fit(b, |cards|)
    ensures Fit(a + b, |cards|) && TopicsAt(cards, a + b) == TopicsAt(cards, a) + TopicsAt(cards, b)
  {
    if a == [] {
      assert a + b == b;
    } else {
      assert (a + b)[0] == a[0] && (a + b)[1..] == a[1..] + b;
      TopicsAtConcat(cards, a[1..], b);
    }
  }

  lemma {:induction false} MergeGroupsHead(cards: seq<Card>, merges: seq<Merge>)
    requires merges != [] && MergesFit(merges, |cards|) && Fit(MergedPositions(merges), |cards|)
    ensures var own, rest := merges[0].positions, merges[1..];
      && Fit(own, |cards|) && MergesFit(rest, |cards|) && Fit(MergedPositions(rest), |cards|)
      && TopicsAt(cards, MergedPositions(merges)) == TopicsAt(cards, own) + TopicsAt(cards, MergedPositions(rest))
      && Flatten(MergeGroups(cards, merges)) == SortedSet(TopicsAt(cards, own)) + Flatten(MergeGroups(cards, rest))
  {
    hide SortedSet;
    var own, rest, all := merges[0].positions, merges[1..], MergedPositions(merges);
    assert all[|own|..] == MergedPositions(rest);
    assert forall k :: 0 <= k < |MergedPositions(rest)| ==> all[|own| + k] == MergedPositions(rest)[k];
    assert Fit(own, |cards|);
    TopicsAtConcat(cards, own, MergedPositions(rest));
    assert MergeGroups(cards, merges)[1..] == MergeGroups(cards, rest);
  }

  lemma {:induction false} SimpleParts(a: seq<int>, b: seq<int>)
    requires Simple(multiset(a + b))
    ensures Simple(multiset(a)) && Simple(multiset(b))
  {
    forall x ensures multiset(a)[x] <= 1 && multiset(b)[x] <= 1 {
      assert multiset(a + b)[x] == multiset(a)[x] + multiset(b)[x];
      assert multiset(a + b)[x] <= 1;
    }
  }

  /** The merge groups together hold exactly the topics of the cards they merge. */
  lemma {:induction false} MergeGroupsHoldTopics(cards: seq<Card>, merges: seq<Merge>)
    requires MergesFit(merges, |cards|) && Fit(MergedPositions(merges), |cards|)
    requires Simple(multiset(TopicsAt(cards, MergedPositions(merges))))
    ensures multiset(Flatten(MergeGroups(cards, merges))) == multiset(TopicsAt(cards, MergedPositions(merges)))
    decreases |merges|
  {
    if merges != [] {
      hide SortedSet, TopicsAt, MergedPositions, MergeGroups, Flatten, Simple, Fit, MergesFit;
      var own, rest := merges[0].positions, merges[1..];
      MergeGroupsHead(cards, merges);
      SimpleParts(TopicsAt(cards, own), TopicsAt(cards, MergedPositions(rest)));
      MergeGroupsHoldTopics(cards, rest);
      SingleUnion(TopicsAt(cards, own));
    }
  }

  lemma {:induction false} SingleUnion(a: seq<int>)
    requires Simple(multiset(a))
    ensures multiset(SortedSet(a)) == multiset(a)
  {
    hide SortedSet;
    UnionCounts(a, []);
    assert a + [] == a;
  }

  lemma {:induction false} ExtractedTopics(completed: seq<(seq<int>, Card)>)
    requires Faithful(completed)
    ensures Topics(Extracted(completed)) == Flatten(Jobs(completed))
  {
    assert Coordinates(Extracted(completed)) == Jobs(completed);
  }

  lemma {:induction false} TopicsPermute(a: seq<Card>, b: seq<Card>)
    requires multiset(a) == multiset(b)
    ensures multiset(Topics(a)) == multiset(Topics(b))
    decreases |a|
  {
    hide Topics;
    if a == [] {
      assert |multiset(b)| == 0;
    } else {
      var i := HeadInPermutation(a, b);
      var rest := b[..i] + b[i + 1..];
      TopicsPermute(a[1..], rest);
      TopicsOfSplice(b, i, []);
      NoTopics();
      assert b[..i] + [] + b[i + 1..] == rest;
      assert a == [a[0]] + a[1..];
      TopicsConcat([a[0]], a[1..]);
      TopicsOne(a[0]);
      assert multiset(Topics(a)) == multiset(a[0].topics) + multiset(Topics(a[1..]));
      assert multiset(Topics(rest)) + multiset(a[0].topics) == multiset(Topics(b));
    }
  }

  lemma {:induction false} MergeConserves(cards: seq<Card>, drops: seq<int>, merges: seq<Merge>,
                                          completed: seq<(seq<int>, Card)>)
    requires Simple(multiset(Topics(cards)))
    requires Fit(drops, |cards|) && MergesFit(merges, |cards|) && Fit(MergedPositions(merges), |cards|)
    requires Distinct(drops + MergedPositions(merges))
    requires multiset(Jobs(completed)) == multiset(MergeGroups(cards, merges))
    ensures var r := MergeCards(cards, drops, merges, completed); r.Some? ==>
      multiset(Topics(r.value)) + multiset(TopicsAt(cards, drops)) == multiset(Topics(cards))
  {
    hide Rebuilt, Topics, SortBy, InsertAll, TopicsAt, MergeGroups, Flatten;
    var r := MergeCards(cards, drops, merges, completed);
    if r.Some? {
      var merged, positions := Extracted(completed), MergedPositions(merges);
      SortKeepsTopics(merged);
      InsertionsKeepTopics(Rebuilt(cards, Removal(drops + positions)), SortBy(merged, FirstLe));
      TopicsPermute(SortBy(merged, FirstLe), merged);
      ExtractedTopics(completed);
      FlattenPermutes(Jobs(completed), MergeGroups(cards, merges));
      TopicsAtConcat(cards, drops, positions);
      RemovalExchanges(cards, drops + positions);
      assert forall x :: multiset(TopicsAt(cards, positions))[x] <= multiset(Topics(cards))[x];
      MergeGroupsHoldTopics(cards, merges);
    }
  }

  lemma {:induction false} ReplacementHoldsTopics(original: Card, replacement: seq<Card>)
    requires KeepsCoverage(original, replacement)
    ensures multiset(Topics(replacement)) == multiset(original.topics)
  {
    hide Topics, SortBy;
    assert multiset(SortBy(Topics(replacement), IntLe)) == multiset(Topics(replacement));
  }

  function Less(answers: map<int, seq<Card>>, p: int): map<int, seq<Card>> {
    map q | q in answers && q != p :: answers[q]
  }

  lemma {:induction false} LessRestored(answers: map<int, seq<Card>>, p: int)
    requires p in answers
    ensures Less(answers, p)[p := answers[p]] == answers
  {
  }

  lemma {:induction false} LessIsSmaller(drops: seq<int>, answers: map<int, seq<Card>>, p: int)
    requires p in answers && p !in drops
    ensures |Less(answers, p)| < |answers|
    ensures p !in Removal(drops) + Less(answers, p)
    ensures Removal(drops) + answers == (Removal(drops) + Less(answers, p))[p := answers[p]]
  {
    var rest := Less(answers, p);
    assert rest.Keys == answers.Keys - {p};
    assert |rest| == |rest.Keys| && |answers| == |answers.Keys|;
    hide Less, Removal;
    assert rest[p := answers[p]] == answers by { LessRestored(answers, p); }
    assert Removal(drops) + rest[p := answers[p]] == (Removal(drops) + rest)[p := answers[p]];
  }

  lemma {:induction false} SplitsExchange(cards: seq<Card>, drops: seq<int>, answers: map<int, seq<Card>>)
    requires forall p :: p in answers ==> 1 <= p <= |cards| && p !in drops && KeepsCoverage(cards[p - 1], answers[p])
    ensures multiset(Topics(Rebuilt(cards, Removal(drops) + answers))) == multiset(Topics(Rebuilt(cards, Removal(drops))))
    decreases |answers|
  {
    hide Rebuilt, Topics, KeepsCoverage, Removal;
    if answers == map[] {
      assert Removal(drops) + answers == Removal(drops);
    } else {
      assert answers.Keys != {};
      var p :| p in answers;
      LessIsSmaller(drops, answers, p);
      SplitsExchange(cards, drops, Less(answers, p));
      EditExchanges(cards, Removal(drops) + Less(answers, p), p, answers[p]);
      ReplacementHoldsTopics(cards[p - 1], answers[p]);
      CancelsOut(multiset(Topics(Rebuilt(cards, Removal(drops) + Less(answers, p)))),
                 multiset(Topics(Rebuilt(cards, Removal(drops) + answers))), multiset(cards[p - 1].topics));
    }
  }

  lemma {:induction false} SplitConserves(cards: seq<Card>, drops: seq<int>, answers: map<int, seq<Card>>)
    requires Fit(drops, |cards|) && Distinct(drops)
    requires forall p :: p in answers ==> 1 <= p <= |cards| && p !in drops
    ensures var r := SplitCards(cards, drops, answers); r.Some? ==>
      multiset(Topics(r.value)) + multiset(TopicsAt(cards, drops)) == multiset(Topics(cards))
  {
    hide Rebuilt, Topics, KeepsCoverage, TopicsAt;
    if SplitCards(cards, drops, answers).Some? {
      SplitsExchange(cards, drops, answers);
      RemovalExchanges(cards, drops);
    }
  }

  // ----- Inserts -----

  lemma {:induction false} GroupsAreSimple(excluded: seq<int>, inserts: seq<Group>)
    requires ValidInserts(excluded, inserts)
    ensures forall x :: multiset(Flatten(GroupTopics(inserts)))[x] <= 1
    ensures forall x :: x in Flatten(GroupTopics(inserts)) <==> exists k :: 0 <= k < |inserts| && x in inserts[k].topics
    ensures forall x :: x in Flatten(GroupTopics(inserts)) ==> x in excluded
    decreases |inserts|
  {
    var groups := GroupTopics(inserts);
    if inserts != [] {
      var rest := inserts[1..];
      GroupsAreSimple(excluded, rest);
      assert groups[1..] == GroupTopics(rest);
      var own, others := inserts[0].topics, Flatten(GroupTopics(rest));
      AscendingCounts(own);
      forall x ensures x in others ==> x !in own {
        if x in others {
          var k :| 0 <= k < |rest| && x in rest[k].topics;
          assert DisjointGroups(inserts[0], inserts[k + 1]);
        }
      }
      assert InsertAllowed(excluded, inserts[0]);
      MembersOfGroups(inserts);
      forall x ensures multiset(Flatten(groups))[x] <= 1 {
        assert multiset(own + others)[x] == multiset(own)[x] + multiset(others)[x];
        assert x in others <==> multiset(others)[x] > 0;
      }
    }
  }

  lemma {:induction false} MembersOfGroups(inserts: seq<Group>)
    ensures forall x :: x in Flatten(GroupTopics(inserts)) <==> exists k :: 0 <= k < |inserts| && x in inserts[k].topics
    decreases |inserts|
  {
    if inserts != [] {
      var rest := inserts[1..];
      MembersOfGroups(rest);
      assert GroupTopics(inserts)[1..] == GroupTopics(rest);
      forall x ensures x in Flatten(GroupTopics(inserts)) <==> exists k :: 0 <= k < |inserts| && x in inserts[k].topics {
        if k :| 0 <= k < |rest| && x in rest[k].topics { assert inserts[k + 1] == rest[k]; }
        if k :| 0 <= k < |inserts| && x in inserts[k].topics && k > 0 { assert rest[k - 1] == inserts[k]; }
      }
    }
  }

  lemma {:induction false} InsertsConserve(preview: Preview, inserts: seq<Group>, completed: seq<(seq<int>, Card)>)
    requires multiset(Jobs(completed)) == multiset(GroupTopics(inserts))
    requires Simple(Contents(preview))
    ensures var r := InsertCards(preview, inserts, completed); r.Some? ==> Contents(r.value) == Contents(preview)
  {
    hide Topics, InsertAll, SortedSet, Without, Flatten, ValidInserts;
    var r := InsertCards(preview, inserts, completed);
    if r.Some? && inserts != [] {
      InsertedHaveTopics(preview.excluded, inserts, completed);
      InsertionsKeepTopics(preview.knowledge, Extracted(completed));
      ExtractedTopics(completed);
      FlattenPermutes(Jobs(completed), GroupTopics(inserts));
      GroupsAreSimple(preview.excluded, inserts);
      var taken := Flatten(GroupTopics(inserts));
      SortedSetCounts(Without(preview.excluded, taken));
      forall x ensures multiset(SortedSet(Without(preview.excluded, taken)))[x] + multiset(taken)[x] == multiset(preview.excluded)[x] {
        assert Contents(preview)[x] <= 1;
        assert x in preview.excluded <==> multiset(preview.excluded)[x] > 0;
        assert x in taken <==> multiset(taken)[x] > 0;
      }
    }
  }

  // ----- The whole run -----

  lemma {:induction false} MergesFacts(preview: Preview, spec: Spec)
    requires ValidMerges(preview, spec) && ValidDrops(preview, spec)
    ensures MergesFit(spec.merges, |preview.knowledge|)
    ensures Fit(MergedPositions(spec.merges), |preview.knowledge|)
    ensures Distinct(spec.drops + MergedPositions(spec.merges))
  {
    MergedDistinct(spec.merges);
    MergedPositionsFit(spec.merges, preview, spec);
    var drops, merged := spec.drops, MergedPositions(spec.merges);
    DistinctByIndex(drops);
    forall x ensures multiset(drops + merged)[x] <= 1 {
      assert multiset(drops + merged)[x] == multiset(drops)[x] + multiset(merged)[x];
      assert x in merged <==> multiset(merged)[x] > 0;
      assert x in drops <==> multiset(drops)[x] > 0;
    }
  }

  lemma {:induction false} MergedMembers(merges: seq<Merge>)
    ensures forall p :: p in MergedPositions(merges) <==> exists i :: 0 <= i < |merges| && p in merges[i].positions
    decreases |merges|
  {
    if merges != [] {
      var rest := merges[1..];
      MergedMembers(rest);
      forall p ensures p in MergedPositions(merges) <==> exists i :: 0 <= i < |merges| && p in merges[i].positions {
        if i :| 0 <= i < |rest| && p in rest[i].positions { assert merges[i + 1] == rest[i]; }
        if i :| 0 <= i < |merges| && p in merges[i].positions && i > 0 { assert rest[i - 1] == merges[i]; }
      }
    }
  }

  lemma {:induction false} MergedDistinct(merges: seq<Merge>)
    requires forall i :: 0 <= i < |merges| ==> Ascending(merges[i].positions)
    requires forall i, j :: 0 <= i < j < |merges| ==> DisjointMerges(merges[i], merges[j])
    ensures Distinct(MergedPositions(merges))
    decreases |merges|
  {
    hide Ascending;
    if merges != [] {
      var own, rest := merges[0].positions, merges[1..];
      MergedDistinct(rest);
      AscendingCounts(own);
      MergedMembers(rest);
      var others := MergedPositions(rest);
      forall x ensures multiset(own + others)[x] <= 1 {
        assert multiset(own + others)[x] == multiset(own)[x] + multiset(others)[x];
        assert x in others <==> multiset(others)[x] > 0;
        assert multiset(others)[x] <= 1;
        if x in others {
          var i :| 0 <= i < |rest| && x in rest[i].positions;
          assert DisjointMerges(merges[0], merges[i + 1]);
        }
      }
    }
  }

  lemma {:induction false} RestructureConserves(cards: seq<Card>, preview: Preview, spec: Spec, answers: Answers)
    requires ValidSpec(preview, spec) && Complete(preview, spec, answers)
    requires |cards| == |preview.knowledge| && (spec.merges != [] ==> cards == preview.knowledge)
    requires Simple(multiset(Topics(cards)))
    requires Fit(spec.drops, |cards|) && forall p :: p in answers.split ==> 1 <= p <= |cards| && p !in spec.drops
    ensures var r := Restructured(cards, spec, answers); r.Some? ==>
      multiset(Topics(r.value)) + multiset(TopicsAt(cards, spec.drops)) == multiset(Topics(cards))
  {
    hide Topics, TopicsAt, MergeGroups, ValidRepairs, ValidSplits, ValidMerge, MergeCards, SplitCards, Simple;
    DistinctByIndex(spec.drops);
    if spec.merges != [] {
      MergesFacts(preview, spec);
      MergeConserves(cards, spec.drops, spec.merges, answers.merged);
    } else {
      SplitConserves(cards, spec.drops, answers.split);
    }
  }

  /** A run that ends without an error neither loses nor repeats a topic. */
  lemma {:induction false} RepairConserves(preview: Preview, spec: Spec, answers: Answers)
    requires ValidSpec(preview, spec) && Complete(preview, spec, answers)
    requires Simple(Contents(preview))
    ensures var r := Applied(preview, spec, answers); r.Some? ==> Contents(r.value) == Contents(preview)
  {
    hide Topics, TopicsAt, RepairAllTopics, AcceptRepaired, InsertCards, Restructured, SortedSet, Rebuilt;
    CompleteFits(preview, spec, answers);
    var repaired := RepairAllTopics(preview, spec.repairs);
    TopicRepairsConserve(preview, spec.repairs);
    if repaired.Some? {
      var accepted := AcceptRepaired(repaired.value.knowledge, answers.repaired);
      AcceptedKeepCoordinates(repaired.value.knowledge, answers.repaired);
      if accepted.Some? {
        var draft := Preview(accepted.value, repaired.value.excluded);
        SameCoordinates(accepted.value, repaired.value.knowledge);
        MergesSkipRepairs(preview, spec, answers);
        AfterRepairsConserves(draft, preview, spec, answers);
      }
    }
  }

  lemma {:induction false} SameCoordinates(a: seq<Card>, b: seq<Card>)
    requires Coordinates(a) == Coordinates(b)
    ensures Topics(a) == Topics(b)
  {
  }

  lemma {:induction false} MergesSkipRepairs(preview: Preview, spec: Spec, answers: Answers)
    requires ValidSpec(preview, spec) && Complete(preview, spec, answers)
    ensures PositionsFit(answers.repaired, |preview.knowledge|) && RepairsFit(spec.repairs, |preview.knowledge|)
    ensures spec.merges != [] ==> RepairAllTopics(preview, spec.repairs) == Some(preview)
    ensures spec.merges != [] ==> AcceptRepaired(preview.knowledge, answers.repaired) == Some(preview.knowledge)
  {
    CompleteFits(preview, spec, answers);
  }

  lemma {:induction false} AfterRepairsConserves(draft: Preview, preview: Preview, spec: Spec, answers: Answers)
    requires ValidSpec(preview, spec) && Complete(preview, spec, answers)
    requires |draft.knowledge| == |preview.knowledge| && (spec.merges != [] ==> draft.knowledge == preview.knowledge)
    requires Simple(Contents(draft))
    requires Fit(spec.drops, |draft.knowledge|)
    requires forall p :: p in answers.split ==> 1 <= p <= |draft.knowledge| && p !in spec.drops
    ensures var r := Restructured(draft.knowledge, spec, answers); r.Some? ==>
      var last := InsertCards(Preview(r.value, DropCards(draft, spec.drops).excluded), spec.inserts, answers.inserted);
      last.Some? ==> Contents(last.value) == Contents(draft)
  {
    hide Topics, TopicsAt, InsertCards, Restructured, SortedSet, Rebuilt, ValidSplits, ValidRepairs, ValidMerges, MergeGroups;
    DistinctByIndex(spec.drops);
    DropConserves(draft, spec.drops);
    RemovalExchanges(draft.knowledge, spec.drops);
    forall x ensures multiset(Topics(draft.knowledge))[x] <= 1 { assert Contents(draft)[x] <= 1; }
    RestructureConserves(draft.knowledge, preview, spec, answers);
    var r := Restructured(draft.knowledge, spec, answers);
    if r.Some? {
      var next := Preview(r.value, DropCards(draft, spec.drops).excluded);
      assert Contents(next) == Contents(draft);
      InsertsConserve(next, spec.inserts, answers.inserted);
    }
  }

  /** A repair of a draft that partitions `0 .. n-1` partitions `0 .. n-1`. */
  lemma {:induction false} RepairKeepsPartition(preview: Preview, spec: Spec, answers: Answers, n: nat)
    requires ValidSpec(preview, spec) && Complete(preview, spec, answers)
    requires IsPartition(preview, n) && Applied(preview, spec, answers).Some?
    ensures IsPartition(Applied(preview, spec, answers).value, n)
  {
    hide Contents, Applied, ValidSpec, Complete;
    RepairConserves(preview, spec, answers);
  }

  // ----- The order in which the answers complete -----

  ghost predicate PositionsDiffer(completed: seq<(int, Card)>) {
    forall x, y :: x in completed && y in completed && x != y ==> x.0 != y.0
  }

  lemma {:induction false} AcceptancesCommute(cards: seq<Card>, x: (int, Card), y: (int, Card), rest: seq<(int, Card)>)
    requires 1 <= x.0 <= |cards| && 1 <= y.0 <= |cards| && (x != y ==> x.0 != y.0)
    requires PositionsFit(rest, |cards|)
    ensures PositionsFit([x, y] + rest, |cards|) && PositionsFit([y, x] + rest, |cards|)
    ensures AcceptRepaired(cards, [x, y] + rest) == AcceptRepaired(cards, [y, x] + rest)
  {
    if x != y {
      AcceptTwo(cards, x, y, rest);
      AcceptTwo(cards, y, x, rest);
      assert cards[x.0 - 1 := x.1][y.0 - 1 := y.1] == cards[y.0 - 1 := y.1][x.0 - 1 := x.1];
    }
  }

  lemma {:induction false} AcceptHead(cards: seq<Card>, x: (int, Card), rest: seq<(int, Card)>)
    requires 1 <= x.0 <= |cards| && PositionsFit(rest, |cards|)
    ensures PositionsFit([x] + rest, |cards|)
    ensures AcceptRepaired(cards, [x] + rest)
         == if x.1.topics == cards[x.0 - 1].topics then AcceptRepaired(cards[x.0 - 1 := x.1], rest) else None
  {
    assert ([x] + rest)[0] == x && ([x] + rest)[1..] == rest;
  }

  lemma {:induction false} AcceptTwo(cards: seq<Card>, x: (int, Card), y: (int, Card), rest: seq<(int, Card)>)
    requires 1 <= x.0 <= |cards| && 1 <= y.0 <= |cards| && x.0 != y.0
    requires PositionsFit(rest, |cards|)
    ensures PositionsFit([x, y] + rest, |cards|)
    ensures AcceptRepaired(cards, [x, y] + rest)
         == if x.1.topics == cards[x.0 - 1].topics && y.1.topics == cards[y.0 - 1].topics
            then AcceptRepaired(cards[x.0 - 1 := x.1][y.0 - 1 := y.1], rest) else None
  {
    hide AcceptRepaired;
    assert [x, y] + rest == [x] + ([y] + rest);
    AcceptHead(cards, y, rest);
    AcceptHead(cards, x, [y] + rest);
    AcceptHead(cards[x.0 - 1 := x.1], y, rest);
  }

  lemma {:induction false} PositionsDifferHead(completed: seq<(int, Card)>, i: nat)
    requires PositionsDiffer(completed) && 0 < i < |completed|
    ensures PositionsDiffer(completed[1..])
    ensures completed[0] != completed[i] ==> completed[0].0 != completed[i].0
  {
    assert completed[0] in completed && completed[i] in completed;
  }

  lemma {:induction false} AcceptanceMovesFirst(cards: seq<Card>, completed: seq<(int, Card)>, i: nat)
    requires PositionsFit(completed, |cards|) && PositionsDiffer(completed) && i < |completed|
    ensures var moved := [completed[i]] + (completed[..i] + completed[i + 1..]);
      PositionsFit(moved, |cards|) && AcceptRepaired(cards, completed) == AcceptRepaired(cards, moved)
    decreases |completed|
  {
    hide AcceptRepaired, PositionsDiffer;
    var moved := [completed[i]] + (completed[..i] + completed[i + 1..]);
    if i == 0 {
      assert moved == completed;
    } else {
      var x, y, rest := completed[0], completed[i], completed[1..];
      var others := rest[..i - 1] + rest[i..];
      MovedParts(completed, i);
      PositionsDifferHead(completed, i);
      AcceptancesCommute(cards, x, y, others);
      AcceptHead(cards, x, rest);
      AcceptHead(cards, x, [y] + others);
      if x.1.topics == cards[x.0 - 1].topics { AcceptanceMovesFirst(cards[x.0 - 1 := x.1], rest, i - 1); }
    }
  }

  lemma {:induction false} AcceptanceOrderIrrelevant(cards: seq<Card>, a: seq<(int, Card)>, b: seq<(int, Card)>)
    requires PositionsFit(a, |cards|) && PositionsFit(b, |cards|)
    requires multiset(a) == multiset(b) && PositionsDiffer(b)
    ensures AcceptRepaired(cards, a) == AcceptRepaired(cards, b)
    decreases |a|
  {
    if a == [] {
      assert |multiset(b)| == 0;
    } else {
      var i := HeadInPermutation(a, b);
      var rest := b[..i] + b[i + 1..];
      AcceptanceMovesFirst(cards, b, i);
      assert ([b[i]] + rest)[0] == a[0] && ([b[i]] + rest)[1..] == rest;
      var x := a[0];
      if x.1.topics == cards[x.0 - 1].topics { AcceptanceOrderIrrelevant(cards[x.0 - 1 := x.1], a[1..], rest); }
    }
  }

  /** Cards with disjoint coordinates have different first topics. */
  lemma {:induction false} SimpleFirstsDiffer(cards: seq<Card>)
    requires HasTopics(cards) && Simple(multiset(Topics(cards)))
    ensures FirstsDiffer(cards)
  {
    forall c, d | c in cards && d in cards && c != d ensures c.topics != [] && d.topics != [] && c.topics[0] != d.topics[0] {
      var i :| 0 <= i < |cards| && cards[i] == c;
      var j :| 0 <= j < |cards| && cards[j] == d;
      FirstsAt(cards, i, j);
    }
  }

  lemma {:induction false} FirstsAt(cards: seq<Card>, i: nat, j: nat)
    requires HasTopics(cards) && Simple(multiset(Topics(cards)))
    requires i < |cards| && j < |cards| && i != j
    ensures cards[i].topics[0] != cards[j].topics[0]
  {
    hide Topics;
    var rest := cards[..i] + [] + cards[i + 1..];
    TopicsOfSplice(cards, i, []);
    NoTopics();
    var j' := if j < i then j else j - 1;
    assert rest[j'] == cards[j];
    CardIsPart(rest, j');
    var x := cards[i].topics[0];
    assert multiset(Topics(cards))[x] <= 1;
    assert (multiset(Topics(rest)) + multiset(cards[i].topics))[x] == (multiset(Topics(cards)) + multiset(Topics([])))[x];
    assert x in cards[i].topics && cards[j].topics[0] in cards[j].topics;
  }

  lemma {:induction false} SameExtracted(a: seq<(seq<int>, Card)>, b: seq<(seq<int>, Card)>)
    requires multiset(a) == multiset(b)
    ensures multiset(Extracted(a)) == multiset(Extracted(b)) && multiset(Jobs(a)) == multiset(Jobs(b))
    ensures Faithful(a) <==> Faithful(b)
  {
    SameCards(a, b);
    SameJobs(a, b);
    SameFaithful(a, b);
  }

  lemma {:induction false} SameCards(a: seq<(seq<int>, Card)>, b: seq<(seq<int>, Card)>)
    requires multiset(a) == multiset(b)
    ensures multiset(Extracted(a)) == multiset(Extracted(b))
    decreases |a|
  {
    if a == [] {
      assert |multiset(b)| == 0;
    } else {
      var i := HeadInPermutation(a, b);
      var cards := Extracted(b);
      SameCards(a[1..], b[..i] + b[i + 1..]);
      assert Extracted(a) == [a[0].1] + Extracted(a[1..]);
      assert cards == cards[..i] + [cards[i]] + cards[i + 1..];
      assert Extracted(b[..i] + b[i + 1..]) == cards[..i] + cards[i + 1..];
    }
  }

  lemma {:induction false} SameJobs(a: seq<(seq<int>, Card)>, b: seq<(seq<int>, Card)>)
    requires multiset(a) == multiset(b)
    ensures multiset(Jobs(a)) == multiset(Jobs(b))
    decreases |a|
  {
    if a == [] {
      assert |multiset(b)| == 0;
    } else {
      var i := HeadInPermutation(a, b);
      var jobs := Jobs(b);
      SameJobs(a[1..], b[..i] + b[i + 1..]);
      assert Jobs(a) == [a[0].0] + Jobs(a[1..]);
      assert jobs == jobs[..i] + [jobs[i]] + jobs[i + 1..];
      assert Jobs(b[..i] + b[i + 1..]) == jobs[..i] + jobs[i + 1..];
    }
  }

  lemma {:induction false} SameFaithful(a: seq<(seq<int>, Card)>, b: seq<(seq<int>, Card)>)
    requires multiset(a) == multiset(b)
    ensures Faithful(a) <==> Faithful(b)
  {
    MultisetMembers(a, b);
    if Faithful(a) {
      forall k | 0 <= k < |b| ensures b[k].1.topics == b[k].0 { assert b[k] in a; }
    }
    if Faithful(b) {
      forall k | 0 <= k < |a| ensures a[k].1.topics == a[k].0 { assert a[k] in b; }
    }
  }

  lemma {:induction false} SameHasTopics(a: seq<Card>, b: seq<Card>)
    requires multiset(a) == multiset(b)
    ensures HasTopics(a) <==> HasTopics(b)
  {
    MultisetMembers(a, b);
    if HasTopics(a) {
      forall k | 0 <= k < |b| ensures b[k].topics != [] { assert b[k] in a; }
    }
    if HasTopics(b) {
      forall k | 0 <= k < |a| ensures a[k].topics != [] { assert a[k] in b; }
    }
  }

  lemma {:induction false} MergeOrderIrrelevant(cards: seq<Card>, drops: seq<int>, merges: seq<Merge>,
                                                a: seq<(seq<int>, Card)>, b: seq<(seq<int>, Card)>)
    requires Simple(multiset(Topics(cards)))
    requires Fit(drops, |cards|) && MergesFit(merges, |cards|) && Fit(MergedPositions(merges), |cards|)
    requires Distinct(drops + MergedPositions(merges))
    requires multiset(Jobs(a)) == multiset(MergeGroups(cards, merges)) && multiset(a) == multiset(b)
    ensures MergeCards(cards, drops, merges, a) == MergeCards(cards, drops, merges, b)
  {
    hide Topics, SortBy, InsertAll, Rebuilt, MergeGroups, TopicsAt, Flatten, Faithful;
    SameExtracted(a, b);
    SameHasTopics(Extracted(a), Extracted(b));
    if Faithful(a) && HasTopics(Extracted(a)) {
      var positions := MergedPositions(merges);
      ExtractedTopics(a);
      FlattenPermutes(Jobs(a), MergeGroups(cards, merges));
      TopicsAtConcat(cards, drops, positions);
      RemovalExchanges(cards, drops + positions);
      assert forall x :: multiset(TopicsAt(cards, positions))[x] <= multiset(Topics(cards))[x];
      MergeGroupsHoldTopics(cards, merges);
      SimpleFirstsDiffer(Extracted(a));
      SortIsUnique(Extracted(a), Extracted(b));
      SortKeepsTopics(Extracted(a));
    }
  }

  lemma {:induction false} SortIsUnique(a: seq<Card>, b: seq<Card>)
    requires FirstsDiffer(a) && multiset(a) == multiset(b)
    ensures SortBy(a, FirstLe) == SortBy(b, FirstLe)
  {
    hide SortBy;
    SortBySorted(a, FirstLe);
    SortBySorted(b, FirstLe);
    MultisetMembers(SortBy(a, FirstLe), a);
    SortedUnique(SortBy(a, FirstLe), SortBy(b, FirstLe), FirstLe);
  }

  lemma {:induction false} InsertOrderIrrelevant(preview: Preview, inserts: seq<Group>,
                                                 a: seq<(seq<int>, Card)>, b: seq<(seq<int>, Card)>)
    requires multiset(Jobs(a)) == multiset(GroupTopics(inserts)) && multiset(a) == multiset(b)
    ensures multiset(Jobs(b)) == multiset(GroupTopics(inserts))
    ensures InsertCards(preview, inserts, a) == InsertCards(preview, inserts, b)
  {
    hide Topics, InsertAll, SortedSet, Without, Flatten, ValidInserts, Faithful, FirstsDiffer;
    SameExtracted(a, b);
    if ValidInserts(preview.excluded, inserts) && Faithful(a) {
      InsertedHaveTopics(preview.excluded, inserts, a);
      ExtractedTopics(a);
      FlattenPermutes(Jobs(a), GroupTopics(inserts));
      GroupsAreSimple(preview.excluded, inserts);
      SimpleFirstsDiffer(Extracted(a));
      InsertionOrderIrrelevant(preview.knowledge, Extracted(a), Extracted(b));
    }
  }

  lemma {:induction false} InsertsStayInOrder(preview: Preview, inserts: seq<Group>, completed: seq<(seq<int>, Card)>)
    requires multiset(Jobs(completed)) == multiset(GroupTopics(inserts))
    requires InTopicOrder(preview.knowledge)
    ensures var r := InsertCards(preview, inserts, completed);
      && (r.Some? <==> ValidInserts(preview.excluded, inserts) && Faithful(completed))
      && (r.Some? ==> InTopicOrder(r.value.knowledge))
  {
    hide InTopicOrder, SortedSet, Without, Flatten, ValidInserts, Faithful;
    if ValidInserts(preview.excluded, inserts) && Faithful(completed) {
      InsertedHaveTopics(preview.excluded, inserts, completed);
      InsertionsKeepOrder(preview.knowledge, Extracted(completed));
    }
  }

  /** The number of parts by the position of the split. */
  function SplitSizes(splits: seq<Split>): map<int, nat> {
    if splits == [] then map[] else SplitSizes(splits[..|splits| - 1])[splits[|splits| - 1].position := |splits[|splits| - 1].groups|]
  }

  /** The cards of the slots that the completed split jobs have filled. */
  ghost predicate IsFilledFrom(split: map<int, seq<Card>>, filed: Filed) {
    && split.Keys == filed.Keys
    && forall p :: p in split ==>
         |split[p]| == |filed[p]| && forall g :: 0 <= g < |filed[p]| ==> filed[p][g] == Some(split[p][g])
  }

  /** The split cards come from filing the answers of all split jobs, in the order in which they complete. */
  ghost predicate SplitsFiled(spec: Spec, split: map<int, seq<Card>>, completed: seq<(SplitJob, Card)>) {
    && AllAnswered(SplitSizes(spec.splits), completed)
    && exists filed: Filed :: IsFiled(filed, SplitSizes(spec.splits), completed) && IsFilledFrom(split, filed)
  }

  lemma {:induction false} SizesArePositive(splits: seq<Split>)
    requires forall k :: 0 <= k < |splits| ==> |splits[k].groups| > 0
    ensures forall p :: p in SplitSizes(splits) ==> SplitSizes(splits)[p] > 0
  {
    if splits != [] { SizesArePositive(splits[..|splits| - 1]); }
  }

  /** Split jobs that complete in another order fill the same cards. */
  lemma {:induction false} SplitOrderIrrelevant(preview: Preview, spec: Spec, a: map<int, seq<Card>>, b: map<int, seq<Card>>,
                                                first: seq<(SplitJob, Card)>, second: seq<(SplitJob, Card)>)
    requires ValidSpec(preview, spec) && SplitsFiled(spec, a, first) && SplitsFiled(spec, b, second)
    requires multiset(first) == multiset(second)
    ensures a == b
  {
    hide AllAnswered, SplitSizes;
    assert forall k :: 0 <= k < |spec.splits| ==> |spec.splits[k].groups| > 0 by { SplitsHaveGroups(preview, spec); }
    hide ValidSpec, IsFiled;
    SizesArePositive(spec.splits);
    var sizes := SplitSizes(spec.splits);
    var x :| IsFiled(x, sizes, first) && IsFilledFrom(a, x);
    var y :| IsFiled(y, sizes, second) && IsFilledFrom(b, y);
    FilingIgnoresOrder(x, y, sizes, first, second);
    SameFilling(a, b, x);
  }

  lemma {:induction false} SplitsHaveGroups(preview: Preview, spec: Spec)
    requires ValidSpec(preview, spec)
    ensures forall k :: 0 <= k < |spec.splits| ==> |spec.splits[k].groups| > 0
  {
  }

  lemma {:induction false} SameFilling(a: map<int, seq<Card>>, b: map<int, seq<Card>>, filed: Filed)
    requires IsFilledFrom(a, filed) && IsFilledFrom(b, filed)
    ensures a == b
  {
    forall p | p in a ensures p in b && a[p] == b[p] {
      assert p in filed.Keys && p in b.Keys;
      forall g | 0 <= g < |a[p]| ensures a[p][g] == b[p][g] { assert filed[p][g] == Some(a[p][g]) == Some(b[p][g]); }
    }
    assert a.Keys == b.Keys;
  }

  ghost predicate SameUpToOrder(a: Answers, b: Answers) {
    && multiset(a.repaired) == multiset(b.repaired) && multiset(a.merged) == multiset(b.merged)
    && a.split == b.split && multiset(a.inserted) == multiset(b.inserted)
  }

  lemma {:induction false} RepairedPositionsDiffer(preview: Preview, spec: Spec, answers: Answers)
    requires ValidSpec(preview, spec) && Complete(preview, spec, answers)
    ensures PositionsDiffer(answers.repaired)
  {
    hide MergeGroups, ValidMerges, ValidSplits, ValidDrops;
    DistinctByIndex(RepairPositions(spec.repairs));
    var positions := RepairedPositions(answers.repaired);
    forall x, y | x in answers.repaired && y in answers.repaired && x != y ensures x.0 != y.0 {
      var i :| 0 <= i < |answers.repaired| && answers.repaired[i] == x;
      var j :| 0 <= j < |answers.repaired| && answers.repaired[j] == y;
      DistinctAt(positions, i, j);
    }
  }

  lemma {:induction false} DistinctAt(s: seq<int>, i: nat, j: nat)
    requires Distinct(s) && i < |s| && j < |s| && i != j
    ensures s[i] != s[j]
  {
    var rest := s[..i] + s[i + 1..];
    assert s == s[..i] + [s[i]] + s[i + 1..];
    var x := s[i];
    assert multiset(s) == multiset(rest) + multiset{x};
    assert rest[if j < i then j else j - 1] == s[j];
    assert s[j] in multiset(rest);
    assert multiset(s)[x] <= 1;
  }

  /** The result, and whether there is one, does not depend on the order in which the answers complete. */
  lemma {:induction false} CompletionOrderIrrelevant(preview: Preview, spec: Spec, a: Answers, b: Answers,
                                                     first: seq<(SplitJob, Card)>, second: seq<(SplitJob, Card)>)
    requires ValidSpec(preview, spec) && Complete(preview, spec, a) && Complete(preview, spec, b) && Simple(Contents(preview))
    requires SplitsFiled(spec, a.split, first) && SplitsFiled(spec, b.split, second) && multiset(first) == multiset(second)
    requires multiset(a.repaired) == multiset(b.repaired) && multiset(a.merged) == multiset(b.merged)
    requires multiset(a.inserted) == multiset(b.inserted)
    ensures Applied(preview, spec, a) == Applied(preview, spec, b)
  {
    SplitOrderIrrelevant(preview, spec, a.split, b.split, first, second);
    SameAnswersSameResult(preview, spec, a, b);
  }

  lemma {:induction false} SameAnswersSameResult(preview: Preview, spec: Spec, a: Answers, b: Answers)
    requires ValidSpec(preview, spec) && Complete(preview, spec, a) && Complete(preview, spec, b)
    requires Simple(Contents(preview)) && SameUpToOrder(a, b)
    ensures Applied(preview, spec, a) == Applied(preview, spec, b)
  {
    hide Topics, TopicsAt, RepairAllTopics, AcceptRepaired, InsertCards, MergeCards, SplitCards, SortedSet, Rebuilt, MergeGroups,
      ValidRepairs, ValidDrops, ValidSplits, ValidMerges, Jobs, GroupTopics, DropCards, Contents, PositionsDiffer;
    CompleteFits(preview, spec, a);
    CompleteFits(preview, spec, b);
    RepairedPositionsDiffer(preview, spec, b);
    var repaired := RepairAllTopics(preview, spec.repairs);
    if repaired.Some? {
      AcceptanceOrderIrrelevant(repaired.value.knowledge, a.repaired, b.repaired);
      var accepted := AcceptRepaired(repaired.value.knowledge, a.repaired);
      if accepted.Some? {
        MergesSkipRepairs(preview, spec, a);
        RestructureOrderIrrelevant(accepted.value, preview, spec, a, b);
        var knowledge := Restructured(accepted.value, spec, a);
        if knowledge.Some? {
          var excluded := DropCards(Preview(accepted.value, repaired.value.excluded), spec.drops).excluded;
          InsertOrderIrrelevant(Preview(knowledge.value, excluded), spec.inserts, a.inserted, b.inserted);
        }
      }
    }
  }

  lemma {:induction false} RestructureOrderIrrelevant(cards: seq<Card>, preview: Preview, spec: Spec, a: Answers, b: Answers)
    requires ValidSpec(preview, spec) && Complete(preview, spec, a) && Simple(Contents(preview)) && SameUpToOrder(a, b)
    requires |cards| == |preview.knowledge| && (spec.merges != [] ==> cards == preview.knowledge)
    requires forall p :: p in a.split ==> 1 <= p <= |cards|
    ensures Restructured(cards, spec, a) == Restructured(cards, spec, b)
  {
    hide Topics, MergeCards, SplitCards, MergeGroups, ValidRepairs, ValidSplits, Jobs;
    if spec.merges != [] {
      MergesFacts(preview, spec);
      forall x ensures multiset(Topics(cards))[x] <= 1 { assert Contents(preview)[x] <= 1; }
      assert Fit(spec.drops, |cards|);
      MergeOrderIrrelevant(cards, spec.drops, spec.merges, a.merged, b.merged);
    }
  }
}
