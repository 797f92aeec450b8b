/** Edits of a list of knowledge cards: pops and replacements at shifted positions, and ordered insertion. */
module TopicEdits {
  import opened Options
  import opened Ordering

  /** A knowledge card: its topic coordinates, and the rest of its fields as one value. */
  datatype Card = Card(topics: seq<int>, text: string)

  function Flatten(groups: seq<seq<int>>): seq<int> {
    if groups == [] then [] else groups[0] + Flatten(groups[1..])
  }

  function Coordinates(cards: seq<Card>): (r: seq<seq<int>>)
    ensures |r| == |cards| && forall k :: 0 <= k < |cards| ==> r[k] == cards[k].topics
  {
    seq(|cards|, k requires 0 <= k < |cards| => cards[k].topics)
  }

  function Topics(cards: seq<Card>): seq<int> { Flatten(Coordinates(cards)) }

  lemma {:induction false} FlattenConcat(a: seq<seq<int>>, b: seq<seq<int>>)
    ensures Flatten(a + b) == Flatten(a) + Flatten(b)
  {
    if a == [] {
      assert a + b == b;
    } else {
      assert (a + b)[1..] == a[1..] + b;
      FlattenConcat(a[1..], b);
    }
  }

  lemma {:induction false} TopicsConcat(a: seq<Card>, b: seq<Card>)
    ensures Topics(a + b) == Topics(a) + Topics(b)
  {
    assert Coordinates(a + b) == Coordinates(a) + Coordinates(b);
    FlattenConcat(Coordinates(a), Coordinates(b));
  }

  lemma {:induction false} TopicsOne(c: Card)
    ensures Topics([c]) == c.topics
  {
    assert Coordinates([c]) == [c.topics];
    assert Flatten([c.topics]) == c.topics + Flatten([]);
  }

  /** Removing the group at `i` removes its coordinates once. */
  lemma {:induction false} FlattenWithout(groups: seq<seq<int>>, i: nat)
    requires i < |groups|
    ensures multiset(Flatten(groups)) == multiset(groups[i]) + multiset(Flatten(groups[..i] + groups[i + 1..]))
  {
    assert groups == groups[..i] + ([groups[i]] + groups[i + 1..]);
    FlattenConcat(groups[..i], [groups[i]] + groups[i + 1..]);
    FlattenConcat([groups[i]], groups[i + 1..]);
    assert Flatten([groups[i]]) == groups[i] + Flatten([]);
    FlattenConcat(groups[..i], groups[i + 1..]);
  }

  /** The coordinates of a collection of groups do not depend on the order of the groups. */
  lemma {:induction false} FlattenPermutes(a: seq<seq<int>>, b: seq<seq<int>>)
    requires multiset(a) == multiset(b)
    ensures multiset(Flatten(a)) == multiset(Flatten(b))
    decreases |a|
  {
    if a == [] {
      assert |multiset(b)| == 0;
    } else {
      var i := HeadInPermutation(a, b);
      FlattenPermutes(a[1..], b[..i] + b[i + 1..]);
      FlattenWithout(b, i);
    }
  }

  // ----- Replacing cards at their original positions -----

  /** New content by original one-based position; a position mapped to `[]` is dropped. */
  type Edits = map<int, seq<Card>>

  function Piece(cards: seq<Card>, position: int, edits: Edits): seq<Card>
    requires 1 <= position <= |cards|
  {
    if position in edits then edits[position] else [cards[position - 1]]
  }

  /** The list in which every edited position is replaced and all others stay, in order. */
  function Rebuilt(cards: seq<Card>, edits: Edits): seq<Card> {
    if cards == [] then []
    else Rebuilt(cards[..|cards| - 1], edits) + Piece(cards, |cards|, edits)
  }

  function Removal(positions: seq<int>): Edits { map p | p in positions :: [] }

  lemma {:induction false} RebuiltLast(cards: seq<Card>, edits: Edits)
    requires cards != []
    ensures Rebuilt(cards, edits) == Rebuilt(cards[..|cards| - 1], edits) + Piece(cards, |cards|, edits)
  {
  }

  lemma {:induction false} EditsBeyond(cards: seq<Card>, edits: Edits, p: int, r: seq<Card>)
    requires p > |cards|
    ensures Rebuilt(cards, edits[p := r]) == Rebuilt(cards, edits)
  {
    if cards != [] { EditsBeyond(cards[..|cards| - 1], edits, p, r); }
  }

  lemma {:induction false} NoEdits(cards: seq<Card>)
    ensures Rebuilt(cards, map[]) == cards
  {
    if cards != [] { NoEdits(cards[..|cards| - 1]); }
  }

  /** Where the card of original position `p` stands once the other positions have been edited. */
  function ShiftedIndex(cards: seq<Card>, edits: Edits, p: int): nat
    requires 1 <= p <= |cards|
  {
    |Rebuilt(cards[..p - 1], edits)|
  }

  /** The card at the shifted index is the addressed one, and replacing it there edits its position. */
  lemma {:induction false} EditAt(cards: seq<Card>, edits: Edits, p: int, r: seq<Card>)
    requires 1 <= p <= |cards| && p !in edits
    ensures var now, i := Rebuilt(cards, edits), ShiftedIndex(cards, edits, p);
      && i < |now| && now[i] == cards[p - 1]
      && Rebuilt(cards, edits[p := r]) == now[..i] + r + now[i + 1..]
    decreases |cards|
  {
    hide Rebuilt;
    var front, last := cards[..|cards| - 1], Piece(cards, |cards|, edits);
    var before, i := Rebuilt(front, edits), ShiftedIndex(cards, edits, p);
    RebuiltLast(cards, edits);
    RebuiltLast(cards, edits[p := r]);
    if p == |cards| {
      EditsBeyond(front, edits, p, r);
      assert cards[..p - 1] == front;
    } else {
      EditAt(front, edits, p, r);
      assert front[..p - 1] == cards[..p - 1];
      assert (before + last)[i + 1..] == before[i + 1..] + last;
    }
  }

  /** `sum(dropped < position for dropped in drop_positions)` */
  function CountBelow(positions: seq<int>, p: int): nat {
    if positions == [] then 0 else (if positions[0] < p then 1 else 0) + CountBelow(positions[1..], p)
  }

  lemma {:induction false} CountBelowNext(positions: seq<int>, p: int)
    ensures CountBelow(positions, p + 1) == CountBelow(positions, p) + multiset(positions)[p]
  {
    if positions != [] {
      CountBelowNext(positions[1..], p);
      assert positions == [positions[0]] + positions[1..];
      assert multiset(positions) == multiset{positions[0]} + multiset(positions[1..]);
    }
  }

  lemma {:induction false} CountBelowNone(positions: seq<int>, p: int)
    requires forall k :: 0 <= k < |positions| ==> positions[k] >= p
    ensures CountBelow(positions, p) == 0
  {
    if positions != [] {
      CountBelowNone(positions[1..], p);
    }
  }

  ghost predicate Distinct(s: seq<int>) { forall x :: multiset(s)[x] <= 1 }

  lemma {:induction false} DistinctByIndex(s: seq<int>)
    requires forall i, j :: 0 <= i < j < |s| ==> s[i] != s[j]
    ensures Distinct(s)
  {
    if s != [] {
      DistinctByIndex(s[1..]);
      assert s == [s[0]] + s[1..];
      assert multiset(s) == multiset{s[0]} + multiset(s[1..]);
    }
  }

  /** When only drops precede `p`, the original position less the drops below it addresses its card. */
  lemma {:induction false} AdjustedPosition(cards: seq<Card>, edits: Edits, drops: seq<int>, p: int)
    requires 1 <= p <= |cards|
    requires Distinct(drops) && forall x :: x in drops ==> x >= 1
    requires forall q :: 1 <= q < p ==> (q in edits <==> q in drops) && (q in edits ==> edits[q] == [])
    ensures ShiftedIndex(cards, edits, p) == p - CountBelow(drops, p) - 1
  {
    if p == 1 {
      assert forall k :: 0 <= k < |drops| ==> drops[k] in drops;
      CountBelowNone(drops, 1);
      assert cards[..0] == [];
    } else {
      AdjustedPosition(cards, edits, drops, p - 1);
      CountBelowNext(drops, p - 1);
      assert cards[..p - 1][..p - 2] == cards[..p - 2];
      assert |Piece(cards[..p - 1], p - 1, edits)| == 1 - multiset(drops)[p - 1];
    }
  }

  /** Replacing one card exchanges its coordinates for those of the replacement. */
  lemma {:induction false} TopicsOfSplice(cards: seq<Card>, i: nat, r: seq<Card>)
    requires i < |cards|
    ensures multiset(Topics(cards[..i] + r + cards[i + 1..])) + multiset(cards[i].topics)
         == multiset(Topics(cards)) + multiset(Topics(r))
  {
    assert cards == cards[..i] + [cards[i]] + cards[i + 1..];
    TopicsConcat(cards[..i] + r, cards[i + 1..]);
    TopicsConcat(cards[..i], r);
    TopicsConcat(cards[..i] + [cards[i]], cards[i + 1..]);
    TopicsConcat(cards[..i], [cards[i]]);
    TopicsOne(cards[i]);
  }

  // ----- Ordered insertion -----

  /**
   * Inserts before the first card whose first topic is larger. Reading the first topic of a card
   * without topics fails, unless the insertion point comes before it.
   */
  function InsertCard(cards: seq<Card>, card: Card): Option<seq<Card>>
    requires card.topics != []
  {
    if cards == [] then Some([card])
    else if cards[0].topics == [] then None
    else if cards[0].topics[0] > card.topics[0] then Some([card] + cards)
    else
      match InsertCard(cards[1..], card)
      case None => None
      case Some(rest) => Some([cards[0]] + rest)
  }

  predicate HasTopics(cards: seq<Card>) { forall k :: 0 <= k < |cards| ==> cards[k].topics != [] }

  /** One insertion after the other, in the given order. */
  function InsertAll(cards: seq<Card>, inserted: seq<Card>): Option<seq<Card>>
    requires HasTopics(inserted)
    decreases |inserted|
  {
    if inserted == [] then Some(cards)
    else
      match InsertCard(cards, inserted[0])
      case None => None
      case Some(next) => InsertAll(next, inserted[1..])
  }

  function Then(cards: Option<seq<Card>>, card: Card): Option<seq<Card>>
    requires card.topics != []
  {
    if cards.Some? then InsertCard(cards.value, card) else None
  }

  lemma {:induction false} InsertionKeepsCards(cards: seq<Card>, card: Card)
    requires card.topics != [] && InsertCard(cards, card).Some?
    ensures multiset(InsertCard(cards, card).value) == multiset(cards) + multiset{card}
    ensures multiset(Topics(InsertCard(cards, card).value)) == multiset(Topics(cards)) + multiset(card.topics)
  {
    TopicsOne(card);
    if cards == [] {
    } else if cards[0].topics[0] > card.topics[0] {
      TopicsConcat([card], cards);
    } else {
      InsertionKeepsCards(cards[1..], card);
      assert cards == [cards[0]] + cards[1..];
      TopicsConcat([cards[0]], cards[1..]);
      TopicsConcat([cards[0]], InsertCard(cards[1..], card).value);
    }
  }

  lemma {:induction false} InsertionsKeepTopics(cards: seq<Card>, inserted: seq<Card>)
    requires HasTopics(inserted) && InsertAll(cards, inserted).Some?
    ensures multiset(Topics(InsertAll(cards, inserted).value)) == multiset(Topics(cards)) + multiset(Topics(inserted))
    decreases |inserted|
  {
    if inserted != [] {
      InsertionKeepsCards(cards, inserted[0]);
      InsertionsKeepTopics(InsertCard(cards, inserted[0]).value, inserted[1..]);
      assert inserted == [inserted[0]] + inserted[1..];
      TopicsConcat([inserted[0]], inserted[1..]);
      TopicsOne(inserted[0]);
    }
  }

  /** Two insertions commute, on any list and also in whether they fail. */
  lemma {:induction false} InsertionsCommute(cards: seq<Card>, c: Card, d: Card)
    requires c.topics != [] && d.topics != [] && c.topics[0] < d.topics[0]
    ensures Then(InsertCard(cards, c), d) == Then(InsertCard(cards, d), c)
  {
    if cards == [] {
      assert [c][1..] == [] && [d][1..] == [];
    } else if cards[0].topics == [] {
    } else if cards[0].topics[0] > c.topics[0] {
      assert ([c] + cards)[1..] == cards;
      if InsertCard(cards, d).Some? {
        var r := InsertCard(cards, d).value;
        assert r[0] == cards[0] || r[0] == d;
      }
    } else {
      InsertionsCommute(cards[1..], c, d);
      var rest := cards[1..];
      if InsertCard(rest, c).Some? { assert ([cards[0]] + InsertCard(rest, c).value)[1..] == InsertCard(rest, c).value; }
      if InsertCard(rest, d).Some? { assert ([cards[0]] + InsertCard(rest, d).value)[1..] == InsertCard(rest, d).value; }
    }
  }

  /** Cards that share their first topic are the same card. */
  ghost predicate FirstsDiffer(cards: seq<Card>) {
    && HasTopics(cards)
    && forall c, d :: c in cards && d in cards && c != d ==> c.topics != [] && d.topics != [] && c.topics[0] != d.topics[0]
  }

  lemma {:induction false} InsertionsCommuteEither(cards: seq<Card>, c: Card, d: Card)
    requires c.topics != [] && d.topics != [] && (c != d ==> c.topics[0] != d.topics[0])
    ensures Then(InsertCard(cards, c), d) == Then(InsertCard(cards, d), c)
  {
    if c == d {
    } else if c.topics[0] < d.topics[0] {
      InsertionsCommute(cards, c, d);
    } else {
      InsertionsCommute(cards, d, c);
    }
  }

  function ThenAll(cards: Option<seq<Card>>, inserted: seq<Card>): Option<seq<Card>>
    requires HasTopics(inserted)
  {
    if cards.Some? then InsertAll(cards.value, inserted) else None
  }

  lemma {:induction false} FirstsDifferTail(cards: seq<Card>)
    requires FirstsDiffer(cards)
    ensures HasTopics(cards) && (cards != [] ==> FirstsDiffer(cards[1..]))
  {
  }

  lemma {:induction false} FirstsDifferAt(cards: seq<Card>, i: nat)
    requires FirstsDiffer(cards) && i < |cards|
    ensures cards[0].topics != [] && cards[i].topics != [] && (cards[0] != cards[i] ==> cards[0].topics[0] != cards[i].topics[0])
    ensures HasTopics(cards[..i] + cards[i + 1..])
  {
  }

  lemma {:induction false} MovedParts<T>(s: seq<T>, i: nat)
    requires 0 < i < |s|
    ensures var x, y, rest := s[0], s[i], s[1..];
      var others := rest[..i - 1] + rest[i..];
      && s == [x] + rest && s[..i] + s[i + 1..] == [x] + others && [y] + (s[..i] + s[i + 1..]) == [y, x] + others
      && [x, y] + others == [x] + ([y] + others) && ([x] + others)[1..] == others && rest[i - 1] == y
  {
  }

  /** Any of the insertions may come first. */
  lemma {:induction false} InsertionMovesFirst(cards: seq<Card>, inserted: seq<Card>, i: nat)
    requires FirstsDiffer(inserted) && i < |inserted|
    ensures HasTopics(inserted[..i] + inserted[i + 1..])
    ensures InsertAll(cards, inserted) == ThenAll(InsertCard(cards, inserted[i]), inserted[..i] + inserted[i + 1..])
    decreases |inserted|
  {
    hide FirstsDiffer, InsertCard, HasTopics;
    FirstsDifferAt(inserted, i);
    FirstsDifferTail(inserted);
    if i == 0 {
      assert inserted[..0] + inserted[1..] == inserted[1..];
    } else {
      var c, d := inserted[0], inserted[i];
      MovedParts(inserted, i);
      InsertionsCommuteEither(cards, c, d);
      if InsertCard(cards, c).Some? { InsertionMovesFirst(InsertCard(cards, c).value, inserted[1..], i - 1); }
    }
  }

  /** Insertions of cards with different first topics give one list, whatever their order. */
  lemma {:induction false} InsertionOrderIrrelevant(cards: seq<Card>, a: seq<Card>, b: seq<Card>)
    requires FirstsDiffer(a) && multiset(a) == multiset(b)
    ensures HasTopics(b) && InsertAll(cards, a) == InsertAll(cards, b)
    decreases |a|
  {
    hide InsertCard, FirstsDiffer;
    SameMembers(a, b);
    if a == [] {
      assert |multiset(b)| == 0;
    } else {
      var i := HeadInPermutation(a, b);
      FirstsDifferTail(a);
      InsertionMovesFirst(cards, b, i);
      if InsertCard(cards, a[0]).Some? {
        InsertionOrderIrrelevant(InsertCard(cards, a[0]).value, a[1..], b[..i] + b[i + 1..]);
      }
    }
  }

  lemma {:induction false} SameMembers(a: seq<Card>, b: seq<Card>)
    requires FirstsDiffer(a) && multiset(a) == multiset(b)
    ensures FirstsDiffer(b) && forall c :: c in a <==> c in b
  {
    forall c ensures c in a <==> c in b { assert c in multiset(a) <==> c in multiset(b); }
    forall k | 0 <= k < |b| ensures b[k].topics != [] { assert b[k] in a; }
  }

  ghost predicate InTopicOrder(cards: seq<Card>) {
    HasTopics(cards) && forall i, j :: 0 <= i < j < |cards| ==> cards[i].topics[0] <= cards[j].topics[0]
  }

  lemma {:induction false} InsertionKeepsOrder(cards: seq<Card>, card: Card)
    requires InTopicOrder(cards) && card.topics != []
    ensures InsertCard(cards, card).Some? && InTopicOrder(InsertCard(cards, card).value)
  {
    if cards != [] && cards[0].topics[0] <= card.topics[0] {
      var rest := cards[1..];
      assert InTopicOrder(rest);
      InsertionKeepsOrder(rest, card);
      var r := InsertCard(rest, card).value;
      InsertionKeepsCards(rest, card);
      forall k | 0 <= k < |r| ensures cards[0].topics[0] <= r[k].topics[0] {
        assert r[k] in multiset(r);
        assert r[k] == card || r[k] in rest;
      }
    }
  }

  lemma {:induction false} InsertionsKeepOrder(cards: seq<Card>, inserted: seq<Card>)
    requires InTopicOrder(cards) && HasTopics(inserted)
    ensures InsertAll(cards, inserted).Some? && InTopicOrder(InsertAll(cards, inserted).value)
    decreases |inserted|
  {
    if inserted != [] {
      InsertionKeepsOrder(cards, inserted[0]);
      InsertionsKeepOrder(InsertCard(cards, inserted[0]).value, inserted[1..]);
    }
  }
}
