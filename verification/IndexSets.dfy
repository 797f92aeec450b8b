/** Sets of integers kept as ascending sequences. */
module IndexSets {
  function InsertIndex(x: int, s: seq<int>): (r: seq<int>)
    ensures forall y :: y in r <==> y == x || y in s
  {
    if s == [] then [x]
    else
      assert s == [s[0]] + s[1..];
      if x < s[0] then [x] + s
      else if x == s[0] then s
      else [s[0]] + InsertIndex(x, s[1..])
  }

  /** `sorted(set(s))` */
  function SortedSet(s: seq<int>): (r: seq<int>)
    ensures forall y :: y in r <==> y in s
  {
    if s == [] then []
    else
      assert s == [s[0]] + s[1..];
      InsertIndex(s[0], SortedSet(s[1..]))
  }

  predicate Ascending(s: seq<int>) {
    forall i, j :: 0 <= i < j < |s| ==> s[i] < s[j]
  }

  lemma {:induction false} InsertIndexAscending(x: int, s: seq<int>)
    requires Ascending(s)
    ensures Ascending(InsertIndex(x, s))
  {
    if s != [] && x > s[0] {
      InsertIndexAscending(x, s[1..]);
      var r := InsertIndex(x, s[1..]);
      forall k | 0 <= k < |r| ensures s[0] < r[k] { assert r[k] in r; }
    }
  }

  lemma {:induction false} SortedSetAscending(s: seq<int>)
    ensures Ascending(SortedSet(s))
  {
    if s != [] {
      SortedSetAscending(s[1..]);
      InsertIndexAscending(s[0], SortedSet(s[1..]));
    }
  }

  lemma {:induction false} SortedSetFixpoint(s: seq<int>)
    requires Ascending(s)
    ensures SortedSet(s) == s
  {
    if s != [] {
      SortedSetFixpoint(s[1..]);
      assert s == [s[0]] + s[1..];
    }
  }

  function SetOf(s: seq<int>): set<int> { set x | x in s }

  lemma {:induction false} AscendingSize(s: seq<int>)
    requires Ascending(s)
    ensures |SetOf(s)| == |s|
  {
    if s != [] {
      AscendingSize(s[1..]);
      assert s == [s[0]] + s[1..];
      assert SetOf(s) == {s[0]} + SetOf(s[1..]);
    }
  }

  /** Ascending sequences are determined by their members. */
  lemma {:induction false} AscendingUnique(s: seq<int>, t: seq<int>)
    requires Ascending(s) && Ascending(t) && SetOf(s) == SetOf(t)
    ensures s == t
  {
    forall x ensures x in s <==> x in t { assert x in SetOf(s) <==> x in SetOf(t); }
    assert s != [] ==> s[0] in t;
    assert t != [] ==> t[0] in s;
    if s != [] && t != [] {
      assert s == [s[0]] + s[1..] && t == [t[0]] + t[1..];
      forall x ensures x in SetOf(s[1..]) <==> x in SetOf(t[1..]) {
        assert x in s[1..] <==> x in s && x != s[0];
        assert x in t[1..] <==> x in t && x != t[0];
      }
      AscendingUnique(s[1..], t[1..]);
    }
  }

  lemma {:induction false} NoSmallerSuperset(a: set<int>, b: set<int>)
    requires a <= b && |a| >= |b|
    ensures a == b
  {
    assert |b - a| == |b| - |a|;
  }

  lemma {:induction false} AscendingCounts(s: seq<int>)
    requires Ascending(s)
    ensures forall x :: multiset(s)[x] == if x in s then 1 else 0
  {
    if s != [] {
      AscendingCounts(s[1..]);
      assert s == [s[0]] + s[1..];
      assert multiset(s) == multiset{s[0]} + multiset(s[1..]);
    }
  }

  lemma {:induction false} SortedSetCounts(s: seq<int>)
    ensures forall x :: multiset(SortedSet(s))[x] == if x in s then 1 else 0
  {
    SortedSetAscending(s);
    AscendingCounts(SortedSet(s));
  }

  lemma {:induction false} SortedSetSame(s: seq<int>, t: seq<int>)
    requires forall x :: x in s <==> x in t
    ensures SortedSet(s) == SortedSet(t)
  {
    SortedSetAscending(s);
    SortedSetAscending(t);
    AscendingUnique(SortedSet(s), SortedSet(t));
  }
}
