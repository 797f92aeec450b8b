/** Total preorders, the stable sort that the sources call `sorted`, and the order on strings. */
module Ordering {

  ghost predicate TotalPreorder<T(!new)>(le: (T, T) -> bool) {
    && (forall x, y :: le(x, y) || le(y, x))
    && (forall x, y, z :: le(x, y) && le(y, z) ==> le(x, z))
  }

  ghost predicate SortedBy<T>(s: seq<T>, le: (T, T) -> bool) {
    forall i, j :: 0 <= i < j < |s| ==> le(s[i], s[j])
  }

  /** Puts `x` in front of the first element that may follow it: earlier equals stay earlier. */
  function InsertBy<T>(x: T, s: seq<T>, le: (T, T) -> bool): (r: seq<T>)
    ensures multiset(r) == multiset{x} + multiset(s)
    ensures |r| == |s| + 1
  {
    if s == [] then [x]
    else if le(x, s[0]) then [x] + s
    else
      assert s == [s[0]] + s[1..];
      [s[0]] + InsertBy(x, s[1..], le)
  }

  function SortBy<T>(s: seq<T>, le: (T, T) -> bool): (r: seq<T>)
    ensures multiset(r) == multiset(s)
    ensures |r| == |s|
  {
    if s == [] then []
    else
      assert s == [s[0]] + s[1..];
      InsertBy(s[0], SortBy(s[1..], le), le)
  }

  lemma {:induction false} MultisetMembers<T>(s: seq<T>, t: seq<T>)
    requires multiset(s) == multiset(t)
    ensures forall x :: x in s <==> x in t
  {
    forall x ensures x in s <==> x in t {
      assert x in s <==> x in multiset(s);
      assert x in t <==> x in multiset(t);
    }
  }

  /** In a permutation of `a`, the first element of `a` can be taken out. */
  lemma {:induction false} HeadInPermutation<T>(a: seq<T>, b: seq<T>) returns (i: nat)
    requires a != [] && multiset(a) == multiset(b)
    ensures i < |b| && b[i] == a[0] && multiset(b[..i] + b[i + 1..]) == multiset(a[1..])
  {
    assert a[0] in multiset(b);
    i :| 0 <= i < |b| && b[i] == a[0];
    assert b == b[..i] + [b[i]] + b[i + 1..];
    assert a == [a[0]] + a[1..];
    assert multiset(b[..i] + b[i + 1..]) == multiset(b) - multiset{a[0]};
  }

  lemma {:induction false} InsertBySorted<T(!new)>(x: T, s: seq<T>, le: (T, T) -> bool)
    requires TotalPreorder(le) && SortedBy(s, le)
    ensures SortedBy(InsertBy(x, s, le), le)
  {
    if s != [] && !le(x, s[0]) {
      InsertBySorted(x, s[1..], le);
      var rest := InsertBy(x, s[1..], le);
      forall y | y in rest ensures le(s[0], y) {
        assert y in multiset(rest);
        assert y == x || y in s[1..];
      }
    } else if s != [] {
      forall y | y in s ensures le(x, y) { }
    }
  }

  lemma {:induction false} SortBySorted<T(!new)>(s: seq<T>, le: (T, T) -> bool)
    requires TotalPreorder(le)
    ensures SortedBy(SortBy(s, le), le)
  {
    if s != [] {
      SortBySorted(s[1..], le);
      InsertBySorted(s[0], SortBy(s[1..], le), le);
    }
  }

  /** Sorting leaves a sorted sequence alone (this is where stability matters). */
  lemma {:induction false} SortByFixpoint<T>(s: seq<T>, le: (T, T) -> bool)
    requires SortedBy(s, le)
    ensures SortBy(s, le) == s
  {
    if s != [] {
      SortByFixpoint(s[1..], le);
      if |s| > 1 { assert le(s[0], s[1]); }
      assert s == [s[0]] + s[1..];
    }
  }

  lemma {:induction false} SortedHeadIsLeast<T(!new)>(s: seq<T>, x: T, le: (T, T) -> bool)
    requires TotalPreorder(le) && SortedBy(s, le) && x in s
    ensures le(s[0], x)
  {
    var i :| 0 <= i < |s| && s[i] == x;
    assert le(s[0], s[0]);
  }

  lemma {:induction false} SortedRest<T>(s: seq<T>, le: (T, T) -> bool)
    requires s != [] && SortedBy(s, le)
    ensures SortedBy(s[1..], le)
  {
  }

  /** A sorted arrangement without ties is unique. */
  lemma {:induction false} SortedUnique<T(!new)>(s: seq<T>, t: seq<T>, le: (T, T) -> bool)
    requires TotalPreorder(le) && SortedBy(s, le) && SortedBy(t, le)
    requires multiset(s) == multiset(t)
    requires forall x, y :: x in s && y in s && le(x, y) && le(y, x) ==> x == y
    ensures s == t
  {
    hide SortedBy, TotalPreorder;
    assert |s| == |multiset(s)| == |multiset(t)| == |t|;
    if s != [] {
      SortedRest(s, le);
      SortedRest(t, le);
      MultisetMembers(s, t);
      assert s[0] in s && t[0] in t;
      SortedHeadIsLeast(s, t[0], le);
      SortedHeadIsLeast(t, s[0], le);
      assert s[0] == t[0];
      assert s == [s[0]] + s[1..] && t == [t[0]] + t[1..];
      assert multiset(s[1..]) == multiset(s) - multiset{s[0]};
      assert multiset(t[1..]) == multiset(t) - multiset{t[0]};
      SortedUnique(s[1..], t[1..], le);
    }
  }

  // ----- Sorting twice, and sorting part of a sequence -----

  /** First by `major`, ties by `minor`. */
  ghost predicate LexLe<T>(major: (T, T) -> bool, minor: (T, T) -> bool, x: T, y: T) {
    major(x, y) && (major(y, x) ==> minor(x, y))
  }

  lemma {:induction false} InsertByAgrees<T(!new)>(x: T, s: seq<T>, le: (T, T) -> bool, le': (T, T) -> bool)
    requires forall y :: y in s ==> (le(x, y) <==> le'(x, y))
    ensures InsertBy(x, s, le) == InsertBy(x, s, le')
  {
    if s != [] {
      assert s[0] in s;
      InsertByAgrees(x, s[1..], le, le');
    }
  }

  lemma {:induction false} InsertInFront<T>(x: T, s: seq<T>, le: (T, T) -> bool)
    requires s != [] ==> le(x, s[0])
    ensures InsertBy(x, s, le) == [x] + s
  {
    assert s == [] ==> [x] + s == [x];
  }

  lemma {:induction false} InsertBehind<T>(y: T, x: T, s: seq<T>, le: (T, T) -> bool)
    requires !le(y, x)
    ensures InsertBy(y, [x] + s, le) == [x] + InsertBy(y, s, le)
  {
    assert ([x] + s)[1..] == s;
  }

  /** Elements without a tie between them can be inserted in either order. */
  lemma {:induction false} InsertByCommutes<T(!new)>(x: T, y: T, s: seq<T>, le: (T, T) -> bool)
    requires TotalPreorder(le) && SortedBy(s, le)
    requires le(x, y) && !le(y, x)
    ensures InsertBy(x, InsertBy(y, s, le), le) == InsertBy(y, InsertBy(x, s, le), le)
  {
    hide InsertBy;
    if s == [] || le(x, s[0]) {
      InsertInFront(x, s, le);
      InsertBehind(y, x, s, le);
      assert s == [] || le(y, s[0]) || !le(y, s[0]);
      if s == [] || le(y, s[0]) {
        InsertInFront(y, s, le);
      } else {
        InsertBehind(y, s[0], s[1..], le);
        assert [s[0]] + s[1..] == s;
      }
      InsertInFront(x, InsertBy(y, s, le), le);
    } else {
      var first, rest := s[0], s[1..];
      assert s == [first] + rest;
      InsertByCommutes(x, y, rest, le);
      InsertBehind(x, first, rest, le);
      InsertBehind(y, first, rest, le);
      InsertBehind(x, first, InsertBy(y, rest, le), le);
      InsertBehind(y, first, InsertBy(x, rest, le), le);
    }
  }

  /** Any two different elements without a tie commute, whichever is the smaller. */
  lemma {:induction false} InsertByCommutesEither<T(!new)>(x: T, y: T, s: seq<T>, le: (T, T) -> bool)
    requires TotalPreorder(le) && SortedBy(s, le)
    requires !(le(x, y) && le(y, x))
    ensures InsertBy(x, InsertBy(y, s, le), le) == InsertBy(y, InsertBy(x, s, le), le)
  {
    hide InsertBy;
    if le(x, y) { InsertByCommutes(x, y, s, le); } else { InsertByCommutes(y, x, s, le); }
  }

  lemma {:induction false} LexOfMinor<T(!new)>(x: T, s: seq<T>, minor: (T, T) -> bool, major: (T, T) -> bool, lex: (T, T) -> bool)
    requires forall a, b :: lex(a, b) <==> LexLe(major, minor, a, b)
    requires forall y :: y in s ==> minor(x, y)
    ensures InsertBy(x, s, major) == InsertBy(x, s, lex)
  {
    InsertByAgrees(x, s, major, lex);
  }

  ghost predicate TailsSortInto<T>(s: seq<T>, major: (T, T) -> bool, lex: (T, T) -> bool) {
    forall n :: 0 <= n <= |s| ==> SortedBy(SortBy(s[n..], major), lex)
  }

  lemma {:induction false} TailsOfTail<T>(s: seq<T>, major: (T, T) -> bool, lex: (T, T) -> bool)
    requires s != [] && TailsSortInto(s, major, lex)
    ensures TailsSortInto(s[1..], major, lex) && SortedBy(SortBy(s[1..], major), lex)
  {
    forall n | 0 <= n <= |s| - 1 ensures SortedBy(SortBy(s[1..][n..], major), lex) {
      assert s[1..][n..] == s[n + 1..];
    }
  }

  lemma {:induction false} HeadIsLeast<T(!new)>(s: seq<T>, le: (T, T) -> bool)
    requires TotalPreorder(le) && SortedBy(s, le) && s != []
    ensures forall y :: y in s ==> le(s[0], y)
  {
    forall y | y in s ensures le(s[0], y) {
      var i :| 0 <= i < |s| && s[i] == y;
      assert le(s[0], s[0]);
    }
  }

  lemma {:induction false} SortAfterInsert<T(!new)>(x: T, s: seq<T>, minor: (T, T) -> bool, major: (T, T) -> bool,
                                                    lex: (T, T) -> bool)
    requires TotalPreorder(minor) && TotalPreorder(major) && TotalPreorder(lex)
    requires forall a, b :: lex(a, b) <==> LexLe(major, minor, a, b)
    requires SortedBy(s, minor) && TailsSortInto(s, major, lex)
    ensures SortBy(InsertBy(x, s, minor), major) == InsertBy(x, SortBy(s, major), lex)
  {
    hide SortBy, InsertBy;
    if s == [] || minor(x, s[0]) {
      InsertInFront(x, s, minor);
      SortCons(x, s, major);
      if s != [] { HeadIsLeast(s, minor); }
      MultisetMembers(SortBy(s, major), s);
      LexOfMinor(x, SortBy(s, major), minor, major, lex);
    } else {
      var first, rest := s[0], s[1..];
      assert s == [first] + rest;
      TailsOfTail(s, major, lex);
      SortAfterInsert(x, rest, minor, major, lex);
      InsertBehind(x, first, rest, minor);
      var u := SortBy(rest, major);
      SortCons(first, InsertBy(x, rest, minor), major);
      SortCons(first, rest, major);
      HeadIsLeast(s, minor);
      MultisetMembers(u, rest);
      LexOfMinor(first, u, minor, major, lex);
      InsertMembers(x, u, lex);
      LexOfMinor(first, InsertBy(x, u, lex), minor, major, lex);
      InsertByCommutesEither(first, x, u, lex);
    }
  }

  lemma {:induction false} InsertMembers<T(!new)>(x: T, s: seq<T>, le: (T, T) -> bool)
    ensures forall y :: y in InsertBy(x, s, le) <==> y == x || y in s
  {
    assert multiset([x] + s) == multiset{x} + multiset(s);
    MultisetMembers(InsertBy(x, s, le), [x] + s);
  }

  /** A stable sort after a sort by the minor key is the sort by both keys. */
  lemma {:induction false} SortTwice<T(!new)>(s: seq<T>, minor: (T, T) -> bool, major: (T, T) -> bool,
                                              lex: (T, T) -> bool)
    requires TotalPreorder(minor) && TotalPreorder(major) && TotalPreorder(lex)
    requires forall a, b :: lex(a, b) <==> LexLe(major, minor, a, b)
    ensures SortBy(SortBy(s, minor), major) == SortBy(s, lex)
    decreases |s|
  {
    if s != [] {
      SortTwice(s[1..], minor, major, lex);
      var t := SortBy(s[1..], minor);
      SortBySorted(s[1..], minor);
      forall n | 0 <= n <= |t| ensures SortedBy(SortBy(t[n..], major), lex) {
        SortedTail(t, n, minor);
        SortTwice(t[n..], minor, major, lex);
        SortBySorted(t[n..], lex);
      }
      SortAfterInsert(s[0], t, minor, major, lex);
    }
  }

  lemma {:induction false} SortedTail<T>(s: seq<T>, n: nat, le: (T, T) -> bool)
    requires SortedBy(s, le) && n <= |s|
    ensures SortedBy(s[n..], le) && SortBy(s[n..], le) == s[n..]
  {
    SortByFixpoint(s[n..], le);
  }

  function Filter<T(!new)>(s: seq<T>, keep: T -> bool): (r: seq<T>)
    ensures forall x :: x in r <==> x in s && keep(x)
  {
    if s == [] then []
    else
      assert s == [s[0]] + s[1..];
      if keep(s[0]) then [s[0]] + Filter(s[1..], keep) else Filter(s[1..], keep)
  }

  lemma {:induction false} FilterAll<T(!new)>(s: seq<T>, keep: T -> bool)
    requires forall x :: x in s ==> keep(x)
    ensures Filter(s, keep) == s
  {
    if s != [] { FilterAll(s[1..], keep); }
  }

  lemma {:induction false} FilterConcat<T(!new)>(s: seq<T>, t: seq<T>, keep: T -> bool)
    ensures Filter(s + t, keep) == Filter(s, keep) + Filter(t, keep)
  {
    if s == [] {
      assert s + t == t;
    } else {
      FilterConcat(s[1..], t, keep);
      assert (s + t)[1..] == s[1..] + t;
    }
  }

  lemma {:induction false} FilterInsert<T(!new)>(x: T, s: seq<T>, le: (T, T) -> bool, keep: T -> bool)
    requires TotalPreorder(le) && SortedBy(s, le)
    ensures Filter(InsertBy(x, s, le), keep)
         == if keep(x) then InsertBy(x, Filter(s, keep), le) else Filter(s, keep)
  {
    if s == [] {
      assert [x][1..] == [];
    } else if le(x, s[0]) {
      assert ([x] + s)[1..] == s;
      var kept := Filter(s, keep);
      if kept != [] {
        assert kept[0] in s;
        var i :| 0 <= i < |s| && s[i] == kept[0];
        assert i == 0 || le(s[0], s[i]);
      }
    } else {
      FilterInsert(x, s[1..], le, keep);
      var rest := InsertBy(x, s[1..], le);
      assert ([s[0]] + rest)[1..] == rest;
    }
  }

  /** Sorting and leaving out can be exchanged. */
  lemma {:induction false} FilterSort<T(!new)>(s: seq<T>, le: (T, T) -> bool, keep: T -> bool)
    requires TotalPreorder(le)
    ensures Filter(SortBy(s, le), keep) == SortBy(Filter(s, keep), le)
  {
    if s != [] {
      FilterSort(s[1..], le, keep);
      SortBySorted(s[1..], le);
      FilterInsert(s[0], SortBy(s[1..], le), le, keep);
    }
  }

  lemma {:induction false} SortCons<T>(x: T, s: seq<T>, le: (T, T) -> bool)
    ensures SortBy([x] + s, le) == InsertBy(x, SortBy(s, le), le)
  {
    assert ([x] + s)[1..] == s;
  }

  lemma {:induction false} InsertLeast<T(!new)>(x: T, s: seq<T>, le: (T, T) -> bool)
    requires forall y :: y in s ==> le(x, y)
    ensures InsertBy(x, SortBy(s, le), le) == [x] + SortBy(s, le)
  {
    var sorted := SortBy(s, le);
    MultisetMembers(sorted, s);
    assert sorted != [] ==> sorted[0] in sorted;
  }

  lemma {:induction false} SortConcatCons<T>(s: seq<T>, t: seq<T>, le: (T, T) -> bool)
    requires s != []
    ensures SortBy(s + t, le) == InsertBy(s[0], SortBy(s[1..] + t, le), le)
  {
    assert (s + t)[1..] == s[1..] + t;
  }

  lemma {:induction false} SortLeastInside<T(!new)>(s: seq<T>, x: T, t: seq<T>, le: (T, T) -> bool)
    requires forall y :: y in s ==> !le(y, x)
    requires forall y :: y in s || y in t ==> le(x, y)
    ensures SortBy(s + ([x] + t), le) == [x] + SortBy(s + t, le)
  {
    hide SortBy, InsertBy;
    if s == [] {
      assert s + ([x] + t) == [x] + t && s + t == t;
      SortCons(x, t, le);
      InsertLeast(x, t, le);
    } else {
      SortLeastInside(s[1..], x, t, le);
      SortConcatCons(s, [x] + t, le);
      SortConcatCons(s, t, le);
      InsertBehind(s[0], x, SortBy(s[1..] + t, le), le);
    }
  }

  /** Taking a sorted sequence apart along a property that decides ties, and sorting, restores it. */
  lemma {:induction false} SortReunites<T(!new)>(s: seq<T>, le: (T, T) -> bool, first: T -> bool, second: T -> bool)
    requires TotalPreorder(le) && SortedBy(s, le)
    requires forall x :: x in s ==> first(x) != second(x)
    requires forall x, y :: x in s && y in s && first(x) && second(y) ==> !(le(x, y) && le(y, x))
    ensures SortBy(Filter(s, first) + Filter(s, second), le) == s
  {
    if s != [] {
      var x, rest := s[0], s[1..];
      assert s == [x] + rest;
      SortReunites(rest, le, first, second);
      HeadIsLeast(s, le);
      var a, b := Filter(rest, first), Filter(rest, second);
      hide SortBy, InsertBy;
      if first(x) {
        assert Filter(s, first) + Filter(s, second) == [x] + (a + b);
        SortCons(x, a + b, le);
        InsertInFront(x, rest, le);
      } else {
        assert Filter(s, first) + Filter(s, second) == a + ([x] + b);
        SortLeastInside(a, x, b, le);
      }
    }
  }

  lemma {:induction false} FilterNone<T(!new)>(s: seq<T>, keep: T -> bool)
    requires forall x :: x in s ==> !keep(x)
    ensures Filter(s, keep) == []
  {
    if s != [] { FilterNone(s[1..], keep); }
  }

  // ----- Relations between any two positions -----

  /** `rel` holds between any two positions, whichever comes first. */
  ghost predicate Pairwise<T>(s: seq<T>, rel: (T, T) -> bool) {
    s == [] || ((forall y :: y in s[1..] ==> rel(s[0], y)) && Pairwise(s[1..], rel))
  }

  ghost predicate Symmetric<T(!new)>(rel: (T, T) -> bool) {
    forall x, y :: rel(x, y) ==> rel(y, x)
  }

  lemma {:induction false} PairwiseInsert<T(!new)>(x: T, s: seq<T>, le: (T, T) -> bool, rel: (T, T) -> bool)
    requires Symmetric(rel) && Pairwise(s, rel) && forall y :: y in s ==> rel(x, y)
    ensures Pairwise(InsertBy(x, s, le), rel)
  {
    if s != [] && !le(x, s[0]) {
      PairwiseInsert(x, s[1..], le, rel);
      InsertMembers(x, s[1..], le);
      assert s[0] in s;
    }
  }

  lemma {:induction false} PairwiseSort<T(!new)>(s: seq<T>, le: (T, T) -> bool, rel: (T, T) -> bool)
    requires Symmetric(rel) && Pairwise(s, rel)
    ensures Pairwise(SortBy(s, le), rel)
  {
    if s != [] {
      PairwiseSort(s[1..], le, rel);
      MultisetMembers(SortBy(s[1..], le), s[1..]);
      PairwiseInsert(s[0], SortBy(s[1..], le), le, rel);
    }
  }

  lemma {:induction false} PairwiseConcat<T(!new)>(s: seq<T>, t: seq<T>, rel: (T, T) -> bool)
    requires Pairwise(s, rel) && Pairwise(t, rel)
    requires forall x, y :: x in s && y in t ==> rel(x, y)
    ensures Pairwise(s + t, rel)
  {
    if s == [] {
      assert s + t == t;
    } else {
      PairwiseConcat(s[1..], t, rel);
      assert (s + t)[1..] == s[1..] + t && s[0] in s;
    }
  }

  lemma {:induction false} PairwiseFilter<T(!new)>(s: seq<T>, keep: T -> bool, rel: (T, T) -> bool)
    requires Pairwise(s, rel)
    ensures Pairwise(Filter(s, keep), rel)
  {
    if s != [] { PairwiseFilter(s[1..], keep, rel); }
  }

  lemma {:induction false} PairwiseFront<T(!new)>(s: seq<T>, rel: (T, T) -> bool)
    requires s != [] && Symmetric(rel) && Pairwise(s, rel)
    ensures Pairwise(s[..|s| - 1], rel)
    ensures forall k :: 0 <= k < |s| - 1 ==> rel(s[|s| - 1], s[k])
  {
    if |s| > 1 {
      PairwiseFront(s[1..], rel);
      var front, last := s[..|s| - 1], s[|s| - 1];
      assert s[1..][..|s| - 2] == front[1..] && last in s[1..];
      assert front == [s[0]] + front[1..];
      forall y | y in front[1..] ensures rel(s[0], y) { assert y in s[1..]; }
      forall k | 0 <= k < |s| - 1 ensures rel(last, s[k]) {
        if k > 0 { assert s[k] == s[1..][k - 1]; }
      }
    }
  }

  lemma {:induction false} PairwiseAt<T(!new)>(s: seq<T>, rel: (T, T) -> bool, i: nat, j: nat)
    requires Pairwise(s, rel) && i < j < |s|
    ensures rel(s[i], s[j])
  {
    if i == 0 {
      assert s[j] == s[1..][j - 1];
    } else {
      PairwiseAt(s[1..], rel, i - 1, j - 1);
    }
  }

  /** Code point order on strings, the order Python compares `str` with. */
  predicate StringLe(a: string, b: string) {
    a == [] || (b != [] && (a[0] < b[0] || (a[0] == b[0] && StringLe(a[1..], b[1..]))))
  }

  /** The order is the lexicographic one: a prefix comes first, and otherwise the first difference decides. */
  lemma {:induction false} StringLeMeans(a: string, b: string)
    ensures StringLe(a, b) <==> a <= b || exists k :: 0 <= k < |a| && k < |b| && a[..k] == b[..k] && a[k] < b[k]
  {
    if a != [] && b != [] && a[0] == b[0] {
      var x, y := a[1..], b[1..];
      StringLeMeans(x, y);
      assert a == [a[0]] + x && b == [b[0]] + y;
      if k :| 0 <= k < |x| && k < |y| && x[..k] == y[..k] && x[k] < y[k] {
        assert a[..k + 1] == [a[0]] + x[..k] && b[..k + 1] == [b[0]] + y[..k];
        assert a[k + 1] < b[k + 1];
      }
      if k :| 0 <= k < |a| && k < |b| && a[..k] == b[..k] && a[k] < b[k] {
        assert k > 0 && x[..k - 1] == a[1..k] && y[..k - 1] == b[1..k];
        assert a[1..k] == a[..k][1..] && b[1..k] == b[..k][1..];
        assert x[k - 1] < y[k - 1];
      }
      assert a <= b <==> x <= y;
    } else if a != [] && b != [] && a[0] < b[0] {
      assert a[..0] == b[..0] && a[0] < b[0];
    } else if a != [] && b != [] {
      assert forall k :: 0 < k < |a| && k < |b| ==> a[..k][0] == a[0] && b[..k][0] == b[0];
    }
  }

  lemma {:induction false} StringLeTotal(a: string, b: string)
    ensures StringLe(a, b) || StringLe(b, a)
    ensures StringLe(a, b) && StringLe(b, a) ==> a == b
  {
    if a != [] && b != [] {
      StringLeTotal(a[1..], b[1..]);
      assert a == [a[0]] + a[1..] && b == [b[0]] + b[1..];
    }
  }

  lemma {:induction false} StringLeTransitive(a: string, b: string, c: string)
    requires StringLe(a, b) && StringLe(b, c)
    ensures StringLe(a, c)
  {
    if a != [] && b != [] && c != [] && a[0] == b[0] == c[0] {
      StringLeTransitive(a[1..], b[1..], c[1..]);
    }
  }

  lemma {:induction false} StringLeOrder()
    ensures TotalPreorder(StringLe)
  {
    forall a, b ensures StringLe(a, b) || StringLe(b, a) { StringLeTotal(a, b); }
    forall a, b, c | StringLe(a, b) && StringLe(b, c) ensures StringLe(a, c) { StringLeTransitive(a, b, c); }
  }
}
