/** Pruning of ambiguity items to the narrowest ones (domain/ambiguity_resolution.py). */
module Ambiguity {
  import opened IndexSets
  import opened Options
  import opened Ordering

  /** `kind` and `indices` are absent when the field is not a string or not a list of integers. */
  datatype Item = Item(
    status: string, kind: Option<string>, indices: Option<seq<int>>,
    rawText: string, resolution: string, note: string)

  const UNRESOLVED := "UNRESOLVED"

  const NO_INDEX := 1_000_000_000

  predicate IsUnresolved(item: Item) { item.status == UNRESOLVED }

  predicate IsResolved(item: Item) {
    || item.status == "RESOLVED_BY_AUDIO"
    || item.status == "RESOLVED_BY_VISUAL"
    || item.status == "RESOLVED_BY_CROSS_MODAL"
    || item.status == "RESOLVED_BY_VIDEO_CONTEXT"
  }

  predicate Valid(item: Item, kinds: Option<set<string>>) {
    && IsUnresolved(item)
    && item.kind.Some?
    && (kinds.Some? ==> item.kind.value in kinds.value)
    && item.indices.Some? && item.indices.value != []
    && forall k :: 0 <= k < |item.indices.value| ==> item.indices.value[k] >= 0
  }

  // ----- Items -----

  function Indices(item: Item): seq<int> { if item.indices.Some? then item.indices.value else [] }

  function Coordinates(item: Item): set<int> { SetOf(Indices(item)) }

  function Normalize(item: Item): Item { item.(indices := Some(SortedSet(Indices(item)))) }

  function First(item: Item): int { if Indices(item) == [] then 0 else Indices(item)[0] }

  function KindText(item: Item): string { if item.kind.Some? then item.kind.value else "" }

  ghost predicate Normalized(item: Item, kinds: Option<set<string>>) {
    Valid(item, kinds) && Ascending(Indices(item))
  }

  predicate CandidateLe(a: Item, b: Item) {
    if |Indices(a)| != |Indices(b)| then |Indices(a)| < |Indices(b)|
    else if First(a) != First(b) then First(a) < First(b)
    else if KindText(a) != KindText(b) then StringLe(KindText(a), KindText(b))
    else StringLe(a.rawText, b.rawText)
  }

  predicate FinalLe(a: Item, b: Item) {
    if First(a) != First(b) then First(a) < First(b) else StringLe(KindText(a), KindText(b))
  }

  predicate FinalThenCandidateLe(a: Item, b: Item) {
    FinalLe(a, b) && (FinalLe(b, a) ==> CandidateLe(a, b))
  }

  lemma {:induction false} ItemOrders()
    ensures TotalPreorder(CandidateLe) && TotalPreorder(FinalLe) && TotalPreorder(FinalThenCandidateLe)
    ensures forall a, b :: FinalThenCandidateLe(a, b) <==> LexLe(FinalLe, CandidateLe, a, b)
  {
    forall x: string, y: string ensures StringLe(x, y) && StringLe(y, x) ==> x == y { StringLeTotal(x, y); }
    StringLeOrder();
  }

  /** `narrow` makes `wide` redundant: the same kind and no coordinate of its own. */
  predicate Covers(narrow: Item, wide: Item) {
    narrow.kind == wide.kind && Coordinates(narrow) <= Coordinates(wide)
  }

  predicate Incomparable(a: Item, b: Item) { !Covers(a, b) && !Covers(b, a) }

  function Candidates(items: seq<Item>, kinds: Option<set<string>>): seq<Item> {
    if items == [] then []
    else
      var rest := Candidates(items[1..], kinds);
      if Valid(items[0], kinds) then [Normalize(items[0])] + rest else rest
  }

  function Prune(candidates: seq<Item>, selected: seq<Item>): seq<Item>
    decreases |candidates|
  {
    if candidates == [] then selected
    else if exists k :: 0 <= k < |selected| && Covers(selected[k], candidates[0])
    then Prune(candidates[1..], selected)
    else Prune(candidates[1..], selected + [candidates[0]])
  }

  function Selected(items: seq<Item>, kinds: Option<set<string>>): seq<Item> {
    Prune(SortBy(Candidates(items, kinds), CandidateLe), [])
  }

  function Granular(items: seq<Item>, kinds: Option<set<string>>): seq<Item> {
    SortBy(Selected(items, kinds), FinalLe)
  }

  // ----- The source's loops -----

  type Exact = (Option<string>, seq<int>, string)

  method GranularUnresolvedItems(items: seq<Item>, kinds: Option<set<string>>) returns (result: seq<Item>)
    ensures result == Granular(items, kinds)
  {
    var candidates := CollectCandidates(items, kinds);
    candidates := SortBy(candidates, CandidateLe);
    var selected := SelectNarrowest(candidates);
    result := SortBy(selected, FinalLe);
  }

  method CollectCandidates(items: seq<Item>, kinds: Option<set<string>>) returns (candidates: seq<Item>)
    ensures candidates == Candidates(items, kinds)
  {
    candidates := [];
    for i := 0 to |items|
      invariant candidates + Candidates(items[i..], kinds) == Candidates(items, kinds)
    {
      if Valid(items[i], kinds) { candidates := candidates + [Normalize(items[i])]; }
    }
  }

  /** The set of exact duplicates only saves comparisons: what it skips is covered anyway. */
  method SelectNarrowest(candidates: seq<Item>) returns (selected: seq<Item>)
    ensures selected == Prune(candidates, [])
  {
    selected := [];
    var seen: set<Exact> := {};
    for i := 0 to |candidates|
      invariant Prune(candidates[i..], selected) == Prune(candidates, [])
      invariant forall e :: e in seen ==>
        exists k :: 0 <= k < |selected| && e == (selected[k].kind, Indices(selected[k]), selected[k].rawText)
    {
      var item := candidates[i];
      var exact: Exact := (item.kind, Indices(item), item.rawText);
      var covered := exists k :: 0 <= k < |selected| && Covers(selected[k], item);
      if exact !in seen && !covered {
        ghost var before := selected;
        selected := selected + [item];
        assert selected[|selected| - 1] == item;
        forall e | e in seen + {exact}
          ensures exists k :: 0 <= k < |selected| && e == (selected[k].kind, Indices(selected[k]), selected[k].rawText)
        {
          if e in seen {
            var k :| 0 <= k < |before| && e == (before[k].kind, Indices(before[k]), before[k].rawText);
            assert selected[k] == before[k];
          }
        }
        seen := seen + {exact};
      } else if exact in seen {
        var k :| 0 <= k < |selected| && exact == (selected[k].kind, Indices(selected[k]), selected[k].rawText);
        assert Covers(selected[k], item);
      }
    }
  }

  // ----- What is selected -----

  lemma {:induction false} CandidatesNormalized(items: seq<Item>, kinds: Option<set<string>>)
    ensures forall x :: x in Candidates(items, kinds) <==> exists source :: source in items && Valid(source, kinds) && x == Normalize(source)
    ensures forall x :: x in Candidates(items, kinds) ==> Normalized(x, kinds)
  {
    if items != [] {
      CandidatesNormalized(items[1..], kinds);
      assert items == [items[0]] + items[1..];
      NormalizeValid(items[0], kinds);
    }
  }

  lemma {:induction false} NormalizeValid(item: Item, kinds: Option<set<string>>)
    ensures Coordinates(Normalize(item)) == Coordinates(item)
    ensures Valid(item, kinds) ==> Normalized(Normalize(item), kinds)
  {
    var s := Indices(item);
    SortedSetAscending(s);
    if Valid(item, kinds) {
      assert s[0] in SortedSet(s);
      forall k | 0 <= k < |SortedSet(s)| ensures SortedSet(s)[k] >= 0 { assert SortedSet(s)[k] in s; }
    }
  }

  /** The first candidate is at least as narrow as all that follow. */
  ghost predicate NarrowestFirst(candidates: seq<Item>) {
    forall i, j :: 0 <= i < j < |candidates| ==> |Indices(candidates[i])| <= |Indices(candidates[j])|
  }

  lemma {:induction false} NewIsIncomparable(selected: seq<Item>, item: Item, kinds: Option<set<string>>)
    requires Normalized(item, kinds) && forall x :: x in selected ==> Normalized(x, kinds)
    requires forall x :: x in selected ==> |Indices(x)| <= |Indices(item)| && !Covers(x, item)
    ensures forall x :: x in selected ==> Incomparable(x, item)
  {
    forall x | x in selected ensures !Covers(item, x) {
      AscendingSize(Indices(x));
      AscendingSize(Indices(item));
      if Covers(item, x) { NoSmallerSuperset(Coordinates(item), Coordinates(x)); }
    }
  }

  lemma {:induction false} PruneSelects(candidates: seq<Item>, selected: seq<Item>, kinds: Option<set<string>>)
    requires forall x :: x in selected + candidates ==> Normalized(x, kinds)
    requires NarrowestFirst(selected + candidates)
    requires Pairwise(selected, Incomparable)
    ensures var r := Prune(candidates, selected);
      && Pairwise(r, Incomparable)
      && selected <= r
      && (forall x :: x in r ==> x in selected + candidates)
      && (forall c :: c in candidates ==> exists x :: x in r && Covers(x, c))
    decreases |candidates|
  {
    hide Normalized, Coordinates, Incomparable;
    if candidates != [] {
      var item, rest := candidates[0], candidates[1..];
      assert candidates == [item] + rest;
      if exists k :: 0 <= k < |selected| && Covers(selected[k], item) {
        var k :| 0 <= k < |selected| && Covers(selected[k], item);
        NarrowestWithout(selected, item, rest);
        PruneSelects(rest, selected, kinds);
        assert Prune(rest, selected)[k] == selected[k];
      } else {
        assert selected + [item] + rest == selected + candidates;
        forall x | x in selected ensures |Indices(x)| <= |Indices(item)| && !Covers(x, item) {
          var k :| 0 <= k < |selected| && selected[k] == x;
          assert (selected + candidates)[k] == x && (selected + candidates)[|selected|] == item;
        }
        assert item in selected + candidates;
        NewIsIncomparable(selected, item, kinds);
        PairwiseConcat(selected, [item], Incomparable);
        PruneSelects(rest, selected + [item], kinds);
        var r := Prune(rest, selected + [item]);
        assert r[|selected|] == item && item in r && Covers(item, item);
      }
    }
  }

  lemma {:induction false} NarrowestWithout(selected: seq<Item>, item: Item, rest: seq<Item>)
    requires NarrowestFirst(selected + ([item] + rest))
    ensures NarrowestFirst(selected + rest)
  {
    var all, fewer := selected + ([item] + rest), selected + rest;
    forall i, j | 0 <= i < j < |fewer| ensures |Indices(fewer[i])| <= |Indices(fewer[j])| {
      var i', j' := if i < |selected| then i else i + 1, if j < |selected| then j else j + 1;
      assert all[i'] == fewer[i] && all[j'] == fewer[j];
    }
  }

  ghost predicate IsMinimal(items: seq<Item>, kinds: Option<set<string>>, kind: Option<string>, coordinates: set<int>) {
    && (exists c :: c in items && Valid(c, kinds) && c.kind == kind && Coordinates(c) == coordinates)
    && (forall c :: c in items && Valid(c, kinds) && c.kind == kind ==> !(Coordinates(c) < coordinates))
  }

  lemma {:induction false} CandidateOrderNarrows(candidates: seq<Item>)
    ensures NarrowestFirst(SortBy(candidates, CandidateLe))
  {
    ItemOrders();
    SortBySorted(candidates, CandidateLe);
    var sorted := SortBy(candidates, CandidateLe);
    forall i, j | 0 <= i < j < |sorted| ensures |Indices(sorted[i])| <= |Indices(sorted[j])| {
      assert CandidateLe(sorted[i], sorted[j]);
    }
  }

  /** The selection in terms of candidates: normalized, incomparable, and covering every candidate. */
  lemma {:induction false} SelectedFacts(items: seq<Item>, kinds: Option<set<string>>)
    ensures var r := Selected(items, kinds);
      && Pairwise(r, Incomparable)
      && (forall x :: x in r ==> x in Candidates(items, kinds))
      && (forall c :: c in Candidates(items, kinds) ==> exists x :: x in r && Covers(x, c))
  {
    var candidates := Candidates(items, kinds);
    var sorted := SortBy(candidates, CandidateLe);
    CandidatesNormalized(items, kinds);
    MultisetMembers(sorted, candidates);
    CandidateOrderNarrows(candidates);
    assert [] + sorted == sorted;
    PruneSelects(sorted, [], kinds);
  }

  lemma {:induction false} GranularFacts(items: seq<Item>, kinds: Option<set<string>>)
    ensures var r := Granular(items, kinds);
      && Pairwise(r, Incomparable)
      && (forall x :: x in r ==> Normalized(x, kinds))
      && (forall x :: x in r ==> x in Candidates(items, kinds))
      && (forall c :: c in Candidates(items, kinds) ==> exists x :: x in r && Covers(x, c))
  {
    SelectedFacts(items, kinds);
    CandidatesNormalized(items, kinds);
    PairwiseSort(Selected(items, kinds), FinalLe, Incomparable);
    MultisetMembers(Granular(items, kinds), Selected(items, kinds));
  }

  lemma {:induction false} CoveredMemberIsSame(r: seq<Item>, x: Item, y: Item)
    requires Pairwise(r, Incomparable) && x in r && y in r && Covers(x, y)
    ensures x == y
  {
    var i, j :| 0 <= i < |r| && 0 <= j < |r| && r[i] == x && r[j] == y;
    if i < j { PairwiseAt(r, Incomparable, i, j); }
    if j < i { PairwiseAt(r, Incomparable, j, i); }
  }

  ghost predicate ComesFrom(x: Item, items: seq<Item>, kinds: Option<set<string>>) {
    exists source :: source in items && Valid(source, kinds) && x == Normalize(source)
  }

  ghost predicate IsCovered(source: Item, r: seq<Item>) {
    exists x :: x in r && Covers(x, source)
  }

  /** No two selected items compare, each comes from a valid one, and each valid one is covered. */
  lemma {:induction false} SelectionIsMinimalCover(items: seq<Item>, kinds: Option<set<string>>)
    ensures var r := Granular(items, kinds);
      && Pairwise(r, Incomparable)
      && (forall x :: x in r ==> ComesFrom(x, items, kinds))
      && (forall source :: source in items && Valid(source, kinds) ==> IsCovered(source, r))
  {
    hide Granular, Pairwise, Covers;
    GranularFacts(items, kinds);
    CandidatesNormalized(items, kinds);
    var r := Granular(items, kinds);
    forall source | source in items && Valid(source, kinds) ensures IsCovered(source, r) {
      assert Normalize(source) in Candidates(items, kinds);
      var x :| x in r && Covers(x, Normalize(source));
      CoversNormalized(x, source, kinds);
    }
  }

  lemma {:induction false} CoversNormalized(x: Item, source: Item, kinds: Option<set<string>>)
    ensures Covers(x, Normalize(source)) <==> Covers(x, source)
    ensures Covers(Normalize(source), x) <==> Covers(source, x)
  {
    NormalizeValid(source, kinds);
  }

  ghost predicate Represented(r: seq<Item>, kind: Option<string>, coordinates: set<int>) {
    exists x :: x in r && x.kind == kind && Coordinates(x) == coordinates
  }

  lemma {:induction false} SelectedIsNotWider(r: seq<Item>, x: Item, c: Item)
    requires Pairwise(r, Incomparable) && x in r && IsCovered(c, r) && c.kind == x.kind
    ensures !(Coordinates(c) < Coordinates(x))
  {
    hide Pairwise, Coordinates;
    var y :| y in r && Covers(y, c);
    if Coordinates(c) < Coordinates(x) { CoveredMemberIsSame(r, y, x); }
  }

  lemma {:induction false} SelectedIsMinimal(items: seq<Item>, kinds: Option<set<string>>, x: Item)
    requires x in Granular(items, kinds)
    ensures IsMinimal(items, kinds, x.kind, Coordinates(x))
  {
    hide Granular, Pairwise, Valid, Covers, IsCovered, Coordinates;
    SelectionIsMinimalCover(items, kinds);
    var r := Granular(items, kinds);
    assert ComesFrom(x, items, kinds);
    var source :| source in items && Valid(source, kinds) && x == Normalize(source);
    NormalizeValid(source, kinds);
    forall c | c in items && Valid(c, kinds) && c.kind == x.kind ensures !(Coordinates(c) < Coordinates(x)) {
      SelectedIsNotWider(r, x, c);
    }
  }

  lemma {:induction false} Covering(c: Item, r: seq<Item>) returns (x: Item)
    requires IsCovered(c, r)
    ensures x in r && Covers(x, c)
  {
    x :| x in r && Covers(x, c);
  }

  lemma {:induction false} MinimalIsSelected(items: seq<Item>, kinds: Option<set<string>>, kind: Option<string>,
                                             coordinates: set<int>)
    requires IsMinimal(items, kinds, kind, coordinates)
    ensures Represented(Granular(items, kinds), kind, coordinates)
  {
    hide Granular, Pairwise, Valid, Coordinates, IsCovered;
    SelectionIsMinimalCover(items, kinds);
    var r := Granular(items, kinds);
    var c :| c in items && Valid(c, kinds) && c.kind == kind && Coordinates(c) == coordinates;
    var x := Covering(c, r);
    assert ComesFrom(x, items, kinds);
    var source :| source in items && Valid(source, kinds) && x == Normalize(source);
    NormalizeValid(source, kinds);
    assert !(Coordinates(source) < coordinates);
  }

  /** A kind and a coordinate set are selected exactly when they are minimal among the valid items. */
  lemma {:induction false} SelectedPairsAreMinimal(items: seq<Item>, kinds: Option<set<string>>, kind: Option<string>,
                                                   coordinates: set<int>)
    ensures Represented(Granular(items, kinds), kind, coordinates) <==> IsMinimal(items, kinds, kind, coordinates)
  {
    hide Granular;
    if Represented(Granular(items, kinds), kind, coordinates) {
      var x :| x in Granular(items, kinds) && x.kind == kind && Coordinates(x) == coordinates;
      SelectedIsMinimal(items, kinds, x);
    }
    if IsMinimal(items, kinds, kind, coordinates) { MinimalIsSelected(items, kinds, kind, coordinates); }
  }

  /** The selected kinds and coordinate sets do not depend on the order or multiplicity of the input. */
  lemma {:induction false} SelectionIgnoresOrder(items: seq<Item>, others: seq<Item>, kinds: Option<set<string>>,
                                                 kind: Option<string>, coordinates: set<int>)
    requires forall x :: x in items <==> x in others
    ensures Represented(Granular(items, kinds), kind, coordinates)
       <==> Represented(Granular(others, kinds), kind, coordinates)
  {
    hide Granular;
    SelectedPairsAreMinimal(items, kinds, kind, coordinates);
    SelectedPairsAreMinimal(others, kinds, kind, coordinates);
  }

  // ----- Idempotence -----

  lemma {:induction false} CandidatesOfNormalized(items: seq<Item>, kinds: Option<set<string>>)
    requires forall x :: x in items ==> Normalized(x, kinds)
    ensures Candidates(items, kinds) == items
  {
    if items != [] {
      CandidatesOfNormalized(items[1..], kinds);
      assert items == [items[0]] + items[1..] && items[0] in items;
      SortedSetFixpoint(Indices(items[0]));
    }
  }

  lemma {:induction false} PruneKeepsIncomparable(candidates: seq<Item>, selected: seq<Item>)
    requires Pairwise(candidates, Incomparable)
    requires forall x, y :: x in selected && y in candidates ==> Incomparable(x, y)
    ensures Prune(candidates, selected) == selected + candidates
    decreases |candidates|
  {
    if candidates != [] {
      var item, rest := candidates[0], candidates[1..];
      assert candidates == [item] + rest && item in candidates;
      forall k | 0 <= k < |selected| ensures !Covers(selected[k], item) { assert selected[k] in selected; }
      PruneKeepsIncomparable(rest, selected + [item]);
      assert selected + [item] + rest == selected + candidates;
    }
  }

  /** A subsequence of a sorted sequence of candidates is selected in sorted order. */
  lemma {:induction false} PruneSorted(candidates: seq<Item>, selected: seq<Item>, le: (Item, Item) -> bool)
    requires SortedBy(selected + candidates, le)
    ensures SortedBy(Prune(candidates, selected), le)
    decreases |candidates|
  {
    if candidates == [] {
      assert selected + candidates == selected;
    } else {
      var item, rest := candidates[0], candidates[1..];
      assert candidates == [item] + rest;
      if exists k :: 0 <= k < |selected| && Covers(selected[k], item) {
        SortedWithout(selected, item, rest, le);
        PruneSorted(rest, selected, le);
      } else {
        assert selected + [item] + rest == selected + candidates;
        PruneSorted(rest, selected + [item], le);
      }
    }
  }

  lemma {:induction false} SortedWithout(selected: seq<Item>, item: Item, rest: seq<Item>, le: (Item, Item) -> bool)
    requires SortedBy(selected + ([item] + rest), le)
    ensures SortedBy(selected + rest, le)
  {
    var all, fewer := selected + ([item] + rest), selected + rest;
    forall i, j | 0 <= i < j < |fewer| ensures le(fewer[i], fewer[j]) {
      var i', j' := if i < |selected| then i else i + 1, if j < |selected| then j else j + 1;
      assert all[i'] == fewer[i] && all[j'] == fewer[j];
    }
  }

  /** The result is in the order of all five keys: coordinates and kind first, then the candidate key. */
  lemma {:induction false} GranularIsSortedTwice(items: seq<Item>, kinds: Option<set<string>>)
    ensures SortedBy(Granular(items, kinds), FinalThenCandidateLe)
  {
    hide SortBy, Prune;
    ItemOrders();
    var candidates := Candidates(items, kinds);
    var sorted := SortBy(candidates, CandidateLe);
    SortBySorted(candidates, CandidateLe);
    assert [] + sorted == sorted;
    PruneSorted(sorted, [], CandidateLe);
    var selected := Selected(items, kinds);
    SortByFixpoint(selected, CandidateLe);
    SortTwice(selected, CandidateLe, FinalLe, FinalThenCandidateLe);
    SortBySorted(selected, FinalThenCandidateLe);
  }

  /** A second pass over an already sorted selection changes nothing. */
  lemma {:induction false} GranularFixpoint(items: seq<Item>, kinds: Option<set<string>>)
    requires forall x :: x in items ==> Normalized(x, kinds)
    requires Pairwise(items, Incomparable) && SortedBy(items, FinalThenCandidateLe)
    ensures Granular(items, kinds) == items
  {
    hide SortBy;
    ItemOrders();
    CandidatesOfNormalized(items, kinds);
    var sorted := SortBy(items, CandidateLe);
    PairwiseSort(items, CandidateLe, Incomparable);
    PruneKeepsIncomparable(sorted, []);
    assert [] + sorted == sorted;
    SortTwice(items, CandidateLe, FinalLe, FinalThenCandidateLe);
    SortByFixpoint(items, FinalThenCandidateLe);
  }

  lemma {:induction false} GranularIdempotent(items: seq<Item>, kinds: Option<set<string>>)
    ensures Granular(Granular(items, kinds), kinds) == Granular(items, kinds)
  {
    GranularFacts(items, kinds);
    GranularIsSortedTwice(items, kinds);
    GranularFixpoint(Granular(items, kinds), kinds);
  }

  // ----- The review list (scripts/reconcile_local_knowledge_preview.py) -----

  type ReviewKey = (Option<string>, seq<int>, string, string, string)

  function KeyOf(item: Item): ReviewKey {
    (item.kind, SortedSet(Indices(item)), item.rawText, item.status, item.resolution)
  }

  /** The first resolved item of each key, in the order of the input. */
  function Resolved(items: seq<Item>, seen: set<ReviewKey>): seq<Item>
    decreases |items|
  {
    if items == [] then []
    else if !IsResolved(items[0]) || KeyOf(items[0]) in seen then Resolved(items[1..], seen)
    else [items[0]] + Resolved(items[1..], seen + {KeyOf(items[0])})
  }

  function MinIndex(item: Item): int {
    if Indices(item) == [] then NO_INDEX else Least(Indices(item))
  }

  function Least(s: seq<int>): (m: int)
    requires s != []
    ensures m in s && forall x :: x in s ==> m <= x
  {
    assert s == [s[0]] + s[1..];
    if |s| == 1 then s[0]
    else
      var m := Least(s[1..]);
      if s[0] <= m then s[0] else m
  }

  predicate ReviewLe(a: Item, b: Item) {
    if MinIndex(a) != MinIndex(b) then MinIndex(a) < MinIndex(b)
    else if IsUnresolved(a) != IsUnresolved(b) then IsUnresolved(a)
    else StringLe(KindText(a), KindText(b))
  }

  function Deduplicated(items: seq<Item>): seq<Item> {
    SortBy(Granular(items, None) + Resolved(items, {}), ReviewLe)
  }

  method DeduplicatedItems(items: seq<Item>) returns (result: seq<Item>)
    ensures result == Deduplicated(items)
  {
    hide Granular, SortBy, KeyOf;
    var pending := GranularUnresolvedItems(items, None);
    var resolved: seq<Item>, seen: set<ReviewKey> := [], {};
    for i := 0 to |items|
      invariant resolved + Resolved(items[i..], seen) == Resolved(items, {})
    {
      if IsResolved(items[i]) {
        var key := KeyOf(items[i]);
        if key !in seen {
          resolved := resolved + [items[i]];
          seen := seen + {key};
        }
      }
    }
    assert items[|items|..] == [] && resolved + [] == resolved;
    result := SortBy(pending + resolved, ReviewLe);
  }

  lemma {:induction false} ReviewOrder()
    ensures TotalPreorder(ReviewLe)
  {
    forall x: string, y: string ensures StringLe(x, y) && StringLe(y, x) ==> x == y { StringLeTotal(x, y); }
    StringLeOrder();
  }

  predicate DifferentKeys(a: Item, b: Item) { KeyOf(a) != KeyOf(b) }

  lemma {:induction false} ResolvedFacts(items: seq<Item>, seen: set<ReviewKey>)
    ensures forall x :: x in Resolved(items, seen) ==> x in items && IsResolved(x) && KeyOf(x) !in seen
    ensures Pairwise(Resolved(items, seen), DifferentKeys)
    decreases |items|
  {
    if items != [] {
      ResolvedFacts(items[1..], seen);
      ResolvedFacts(items[1..], seen + {KeyOf(items[0])});
      assert items == [items[0]] + items[1..];
    }
  }

  lemma {:induction false} ResolvedFixpoint(items: seq<Item>, seen: set<ReviewKey>)
    requires Pairwise(items, DifferentKeys)
    requires forall x :: x in items ==> IsResolved(x) && KeyOf(x) !in seen
    ensures Resolved(items, seen) == items
    decreases |items|
  {
    if items != [] {
      assert items == [items[0]] + items[1..] && items[0] in items;
      ResolvedFixpoint(items[1..], seen + {KeyOf(items[0])});
    }
  }

  lemma {:induction false} ResolvedIgnoresOthers(items: seq<Item>, seen: set<ReviewKey>)
    ensures Resolved(Filter(items, IsResolved), seen) == Resolved(items, seen)
    decreases |items|
  {
    if items != [] {
      ResolvedIgnoresOthers(items[1..], seen);
      ResolvedIgnoresOthers(items[1..], seen + {KeyOf(items[0])});
    }
  }

  lemma {:induction false} CandidatesIgnoreOthers(items: seq<Item>, kinds: Option<set<string>>)
    ensures Candidates(Filter(items, IsUnresolved), kinds) == Candidates(items, kinds)
  {
    if items != [] { CandidatesIgnoreOthers(items[1..], kinds); }
  }

  lemma {:induction false} NormalizedMinIndex(item: Item, kinds: Option<set<string>>)
    requires Normalized(item, kinds)
    ensures MinIndex(item) == First(item)
  {
    var s := Indices(item);
    assert s[0] in s;
    var k :| 0 <= k < |s| && s[k] == Least(s);
  }

  /** Pending items, being in the order of coordinates and kind, are in the review order too. */
  lemma {:induction false} PendingInReviewOrder(pending: seq<Item>)
    requires SortedBy(pending, FinalLe) && forall x :: x in pending ==> Normalized(x, None)
    ensures SortBy(pending, ReviewLe) == pending
  {
    forall i, j | 0 <= i < j < |pending| ensures ReviewLe(pending[i], pending[j]) {
      assert pending[i] in pending && pending[j] in pending;
      NormalizedMinIndex(pending[i], None);
      NormalizedMinIndex(pending[j], None);
      assert FinalLe(pending[i], pending[j]);
    }
    SortByFixpoint(pending, ReviewLe);
  }

  lemma {:induction false} PendingIsSorted(items: seq<Item>)
    ensures SortedBy(Granular(items, None), FinalLe)
  {
    hide SortBy;
    ItemOrders();
    SortBySorted(Selected(items, None), FinalLe);
  }

  /** Sorting a mixture keeps the order inside either part. */
  lemma {:induction false} SortKeepsParts(pending: seq<Item>, resolved: seq<Item>)
    requires forall x :: x in pending ==> IsUnresolved(x) && !IsResolved(x)
    requires forall x :: x in resolved ==> IsResolved(x) && !IsUnresolved(x)
    ensures var r := SortBy(pending + resolved, ReviewLe);
      && Filter(r, IsUnresolved) == SortBy(pending, ReviewLe)
      && Filter(r, IsResolved) == SortBy(resolved, ReviewLe)
  {
    hide SortBy, Filter, ReviewLe, IsResolved, IsUnresolved;
    ReviewOrder();
    FilterSort(pending + resolved, ReviewLe, IsUnresolved);
    FilterSort(pending + resolved, ReviewLe, IsResolved);
    FilterConcat(pending, resolved, IsUnresolved);
    FilterConcat(pending, resolved, IsResolved);
    FilterAll(pending, IsUnresolved);
    FilterNone(pending, IsResolved);
    FilterNone(resolved, IsUnresolved);
    FilterAll(resolved, IsResolved);
    assert pending + [] == pending && [] + resolved == resolved;
  }

  /** Pending and resolved items can be told apart again in the review list. */
  lemma {:induction false} ReviewListParts(items: seq<Item>)
    ensures var r := Deduplicated(items);
      && Filter(r, IsUnresolved) == Granular(items, None)
      && Filter(r, IsResolved) == SortBy(Resolved(items, {}), ReviewLe)
  {
    hide SortBy, Granular, Resolved, Pairwise, Filter, ReviewLe, FinalLe, Candidates, KeyOf;
    GranularFacts(items, None);
    ResolvedFacts(items, {});
    SortKeepsParts(Granular(items, None), Resolved(items, {}));
    PendingIsSorted(items);
    PendingInReviewOrder(Granular(items, None));
  }

  /** Deduplicating a review list again changes nothing. */
  lemma {:induction false} DeduplicatedIdempotent(items: seq<Item>)
    ensures Deduplicated(Deduplicated(items)) == Deduplicated(items)
  {
    hide SortBy, Candidates, Prune, Resolved, Pairwise, ReviewLe;
    var r := Deduplicated(items);
    var pending, resolved := Granular(items, None), Resolved(items, {});
    ReviewListParts(items);
    CandidatesIgnoreOthers(r, None);
    assert Granular(r, None) == Granular(pending, None);
    GranularIdempotent(items, None);
    ResolvedAgain(items);
    ReviewReunites(items);
  }

  lemma {:induction false} ResolvedAgain(items: seq<Item>)
    ensures Resolved(Deduplicated(items), {}) == Filter(Deduplicated(items), IsResolved)
  {
    hide SortBy, Granular;
    var r, resolved := Deduplicated(items), Resolved(items, {});
    ReviewListParts(items);
    ResolvedFacts(items, {});
    PairwiseSort(resolved, ReviewLe, DifferentKeys);
    MultisetMembers(SortBy(resolved, ReviewLe), resolved);
    ResolvedFixpoint(Filter(r, IsResolved), {});
    ResolvedIgnoresOthers(r, {});
  }

  lemma {:induction false} ReviewReunites(items: seq<Item>)
    ensures var r := Deduplicated(items);
      SortBy(Filter(r, IsUnresolved) + Filter(r, IsResolved), ReviewLe) == r
  {
    hide SortBy, Granular, Resolved, Pairwise;
    var r := Deduplicated(items);
    var all := Granular(items, None) + Resolved(items, {});
    ReviewOrder();
    SortBySorted(all, ReviewLe);
    GranularFacts(items, None);
    ResolvedFacts(items, {});
    MultisetMembers(r, all);
    SortReunites(r, ReviewLe, IsUnresolved, IsResolved);
  }

  // ----- The two lists in terms of the recorded fields -----

  /** The status, kind and indices that make an item eligible for the selection. */
  ghost predicate IsPending(item: Item, kinds: Option<set<string>>) {
    && item.status == "UNRESOLVED" && item.kind.Some? && item.indices.Some?
    && (exists x :: x in item.indices.value) && (forall x :: x in item.indices.value ==> 0 <= x)
    && (kinds == None || item.kind.value in kinds.value)
  }

  lemma {:induction false} ValidMeansPending(item: Item, kinds: Option<set<string>>)
    ensures Valid(item, kinds) <==> IsPending(item, kinds)
  {
    if item.indices.Some? {
      assert forall k :: 0 <= k < |item.indices.value| ==> item.indices.value[k] in item.indices.value;
      if item.indices.value != [] { assert item.indices.value[0] in item.indices.value; }
    }
  }

  /** The selected item is a pending one, with its indices as an ascending set. */
  ghost predicate IsOneOf(x: Item, items: seq<Item>, kinds: Option<set<string>>) {
    exists c :: c in items && IsPending(c, kinds) && x.kind == c.kind && Coordinates(x) == Coordinates(c)
      && x.rawText == c.rawText && x.status == "UNRESOLVED" && Ascending(Indices(x))
  }

  /** Some selected item of the kind has no other indices. */
  ghost predicate IsSelectedWithin(r: seq<Item>, c: Item) {
    exists x :: x in r && x.kind == c.kind && Coordinates(x) <= Coordinates(c)
  }

  /** Every pending item has a selected one of its kind, at no other indices, and every selected one is there as pending. */
  lemma {:induction false} PendingAreSelected(items: seq<Item>, kinds: Option<set<string>>)
    ensures var r := Granular(items, kinds);
      && (forall c :: c in items && IsPending(c, kinds) ==> IsSelectedWithin(r, c))
      && (forall x :: x in r ==> IsOneOf(x, items, kinds))
  {
    hide Granular, Pairwise, IsPending, Valid, IsOneOf, IsSelectedWithin, ComesFrom, IsCovered;
    var r := Granular(items, kinds);
    SelectionIsMinimalCover(items, kinds);
    forall c | c in items && IsPending(c, kinds) ensures IsSelectedWithin(r, c) {
      ValidMeansPending(c, kinds);
      CoveredIsWithin(r, c);
    }
    forall x | x in r ensures IsOneOf(x, items, kinds) { FromValidIsOneOf(x, items, kinds); }
  }

  lemma {:induction false} CoveredIsWithin(r: seq<Item>, c: Item)
    requires IsCovered(c, r)
    ensures IsSelectedWithin(r, c)
  {
  }

  lemma {:induction false} FromValidIsOneOf(x: Item, items: seq<Item>, kinds: Option<set<string>>)
    requires ComesFrom(x, items, kinds)
    ensures IsOneOf(x, items, kinds)
  {
    var c :| c in items && Valid(c, kinds) && x == Normalize(c);
    NormalizeValid(c, kinds);
    ValidMeansPending(c, kinds);
    SortedSetAscending(Indices(c));
  }

  lemma {:induction false} SelectedIsNotCovered(candidates: seq<Item>, selected: seq<Item>, x: Item)
    requires x in Prune(candidates, selected) && x !in selected
    ensures forall y :: y in selected ==> !Covers(y, x)
    decreases |candidates|
  {
    hide Covers;
    if candidates != [] {
      if exists k :: 0 <= k < |selected| && Covers(selected[k], candidates[0]) {
        SelectedIsNotCovered(candidates[1..], selected, x);
      } else if candidates[0] != x {
        SelectedIsNotCovered(candidates[1..], selected + [candidates[0]], x);
        assert forall y :: y in selected ==> y in selected + [candidates[0]];
      }
    }
  }

  lemma {:induction false} SelectedComesFirst(candidates: seq<Item>, selected: seq<Item>, x: Item, c: Item)
    requires SortedBy(candidates, CandidateLe) && x in Prune(candidates, selected) && x !in selected
    requires c in candidates && Covers(c, x)
    ensures CandidateLe(x, c)
    decreases |candidates|
  {
    hide CandidateLe;
    var item, rest := candidates[0], candidates[1..];
    assert candidates == [item] + rest;
    ItemOrders();
    if item == x {
      var j :| 0 <= j < |candidates| && candidates[j] == c;
    } else if exists k :: 0 <= k < |selected| && Covers(selected[k], item) {
      SelectedIsNotCovered(candidates, selected, x);
      var k :| 0 <= k < |selected| && Covers(selected[k], item);
      assert Covers(item, x) ==> Covers(selected[k], x);
      SelectedComesFirst(rest, selected, x, c);
    } else {
      SelectedIsNotCovered(rest, selected + [item], x);
      assert item in selected + [item];
      SelectedComesFirst(rest, selected + [item], x, c);
    }
  }

  lemma {:induction false} SameRankThenText(x: Item, d: Item)
    requires CandidateLe(x, d) && Indices(x) == Indices(d) && x.kind == d.kind
    ensures StringLe(x.rawText, d.rawText)
  {
  }

  lemma {:induction false} SelectedBefore(items: seq<Item>, kinds: Option<set<string>>, x: Item, d: Item)
    requires x in Granular(items, kinds) && d in Candidates(items, kinds) && Covers(d, x)
    ensures CandidateLe(x, d)
  {
    hide SortBy, Prune, Candidates, CandidateLe, FinalLe, Covers;
    var candidates := Candidates(items, kinds);
    var sorted := SortBy(candidates, CandidateLe);
    ItemOrders();
    SortBySorted(candidates, CandidateLe);
    MultisetMembers(sorted, candidates);
    MultisetMembers(Granular(items, kinds), Selected(items, kinds));
    SelectedComesFirst(sorted, [], x, d);
  }

  /** Of the items with one kind and one set of indices the selected one has the least text. */
  lemma {:induction false} SelectedHasLeastText(items: seq<Item>, kinds: Option<set<string>>, x: Item, c: Item)
    requires x in Granular(items, kinds) && c in items && IsPending(c, kinds)
    requires x.kind == c.kind && Coordinates(x) == Coordinates(c)
    ensures StringLe(x.rawText, c.rawText)
  {
    hide Granular, Candidates, Valid, IsPending, CandidateLe, Pairwise, Incomparable;
    var d := Normalize(c);
    CandidatesNormalized(items, kinds);
    ValidMeansPending(c, kinds);
    NormalizeValid(c, kinds);
    SelectedBefore(items, kinds, x, d);
    GranularFacts(items, kinds);
    AscendingUnique(Indices(x), Indices(d));
    SameRankThenText(x, d);
  }

  /** The statuses of a finished review. */
  predicate HasResolution(item: Item) {
    item.status in {"RESOLVED_BY_AUDIO", "RESOLVED_BY_VISUAL", "RESOLVED_BY_CROSS_MODAL", "RESOLVED_BY_VIDEO_CONTEXT"}
  }

  /** Two reviews say the same: about the same kind, indices and text, with the same status and resolution. */
  predicate SaysTheSame(a: Item, b: Item) {
    && a.kind == b.kind && Coordinates(a) == Coordinates(b) && a.rawText == b.rawText
    && a.status == b.status && a.resolution == b.resolution
  }

  lemma {:induction false} SameKeyMeansSame(a: Item, b: Item)
    ensures KeyOf(a) == KeyOf(b) <==> SaysTheSame(a, b)
  {
    var s, t := Indices(a), Indices(b);
    if SetOf(s) == SetOf(t) {
      forall x ensures x in s <==> x in t { assert x in SetOf(s) <==> x in SetOf(t); }
      SortedSetSame(s, t);
    }
    if SortedSet(s) == SortedSet(t) {
      assert forall x :: x in SortedSet(s) <==> x in SetOf(s);
      assert forall x :: x in SortedSet(t) <==> x in SetOf(t);
    }
  }

  lemma {:induction false} ResolvedHasEveryKey(items: seq<Item>, seen: set<ReviewKey>, c: Item)
    requires c in items && IsResolved(c) && KeyOf(c) !in seen
    ensures exists x :: x in Resolved(items, seen) && KeyOf(x) == KeyOf(c)
    decreases |items|
  {
    hide KeyOf, IsResolved;
    assert items == [items[0]] + items[1..];
    if IsResolved(items[0]) && KeyOf(items[0]) !in seen {
      var r := Resolved(items, seen);
      assert r[0] == items[0] && r[0] in r;
      if KeyOf(items[0]) != KeyOf(c) {
        ResolvedHasEveryKey(items[1..], seen + {KeyOf(items[0])}, c);
      }
    } else {
      ResolvedHasEveryKey(items[1..], seen, c);
    }
  }

  lemma {:induction false} ListMembers(items: seq<Item>)
    ensures forall x :: x in Deduplicated(items) <==> x in Granular(items, None) || x in Resolved(items, {})
    ensures forall x :: x in Granular(items, None) ==> x.status == "UNRESOLVED"
    ensures forall x :: x in Resolved(items, {}) ==> x in items && HasResolution(x)
  {
    hide SortBy, Granular, Resolved, Pairwise, KeyOf, Candidates;
    MultisetMembers(Deduplicated(items), Granular(items, None) + Resolved(items, {}));
    GranularFacts(items, None);
    ResolvedFacts(items, {});
  }

  /** What is finished is in the review list, each review once; nothing else but the pending selection is. */
  lemma {:induction false} ResolvedAreListedOnce(items: seq<Item>)
    ensures var r := Deduplicated(items);
      && (forall c :: c in items && HasResolution(c) ==> exists x :: x in r && SaysTheSame(x, c))
      && (forall x :: x in r && HasResolution(x) ==> x in items)
      && (forall x :: x in r && !HasResolution(x) ==> x in Granular(items, None))
      && (forall x, y :: x in r && y in r && HasResolution(x) && x != y ==> !SaysTheSame(x, y))
  {
    hide Deduplicated, Granular, Resolved, SaysTheSame;
    var r := Deduplicated(items);
    ListMembers(items);
    forall c | c in items && HasResolution(c) ensures exists x :: x in r && SaysTheSame(x, c) {
      var x := ListedReview(items, c);
    }
    forall x, y | x in r && y in r && HasResolution(x) && x != y ensures !SaysTheSame(x, y) {
      if y in Resolved(items, {}) { ListedReviewsDiffer(items, x, y); } else { StatusesDiffer(x, y); }
    }
  }

  lemma {:induction false} ListedReview(items: seq<Item>, c: Item) returns (x: Item)
    requires c in items && HasResolution(c)
    ensures x in Resolved(items, {}) && SaysTheSame(x, c)
  {
    hide Resolved, KeyOf, SaysTheSame;
    ResolvedHasEveryKey(items, {}, c);
    x :| x in Resolved(items, {}) && KeyOf(x) == KeyOf(c);
    SameKeyMeansSame(x, c);
  }

  lemma {:induction false} ListedReviewsDiffer(items: seq<Item>, x: Item, y: Item)
    requires x in Resolved(items, {}) && y in Resolved(items, {}) && x != y
    ensures !SaysTheSame(x, y)
  {
    hide Resolved, KeyOf, SaysTheSame, Pairwise;
    ResolvedFacts(items, {});
    KeysDiffer(Resolved(items, {}), x, y);
    SameKeyMeansSame(x, y);
  }

  lemma {:induction false} StatusesDiffer(x: Item, y: Item)
    requires x.status != y.status
    ensures !SaysTheSame(x, y)
  {
  }

  lemma {:induction false} KeysDiffer(resolved: seq<Item>, x: Item, y: Item)
    requires Pairwise(resolved, DifferentKeys) && x in resolved && y in resolved && x != y
    ensures KeyOf(x) != KeyOf(y)
  {
    hide KeyOf;
    var i, j :| 0 <= i < |resolved| && 0 <= j < |resolved| && resolved[i] == x && resolved[j] == y;
    if i < j { PairwiseAt(resolved, DifferentKeys, i, j); } else { PairwiseAt(resolved, DifferentKeys, j, i); }
  }

  /** The least index of the item, or a number beyond all of them when it has none. */
  ghost predicate IsLeastIndex(item: Item, m: int) {
    if Coordinates(item) == {} then m == 1_000_000_000 else m in Coordinates(item) && forall x :: x in Coordinates(item) ==> m <= x
  }

  /** By the least index, pending before finished, then by kind. */
  ghost predicate IsListedBefore(a: Item, b: Item) {
    exists m, n :: IsLeastIndex(a, m) && IsLeastIndex(b, n)
      && (m < n || (m == n && ((a.status == "UNRESOLVED" && b.status != "UNRESOLVED")
                               || ((a.status == "UNRESOLVED" <==> b.status == "UNRESOLVED") && StringLe(KindText(a), KindText(b))))))
  }

  lemma {:induction false} ReviewListIsOrdered(items: seq<Item>)
    ensures SortedBy(Deduplicated(items), IsListedBefore)
  {
    hide SortBy, Granular, Resolved, IsListedBefore;
    var r := Deduplicated(items);
    ReviewOrder();
    SortBySorted(Granular(items, None) + Resolved(items, {}), ReviewLe);
    forall i, j | 0 <= i < j < |r| ensures IsListedBefore(r[i], r[j]) { ReviewLeMeans(r[i], r[j]); }
  }

  lemma {:induction false} ReviewLeMeans(a: Item, b: Item)
    ensures ReviewLe(a, b) ==> IsListedBefore(a, b)
  {
    LeastIndexOf(a);
    LeastIndexOf(b);
  }

  lemma {:induction false} LeastIndexOf(item: Item)
    ensures IsLeastIndex(item, MinIndex(item))
  {
    var s := Indices(item);
    assert s != [] ==> s[0] in SetOf(s);
    assert forall x :: x in SetOf(s) <==> x in s;
  }
}
