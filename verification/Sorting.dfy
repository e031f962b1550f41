/**
  Stable sorting by a strict weak order, and what is unique about it.

  Insertion from the left stands for the sorting functions of the source's library. A stable sort
  is the only sorted list that keeps ties as they were, and where the order tells all elements
  apart the result is the only increasing list of them: nothing depends on the algorithm, nor on
  the order in which a map gives its values.
 */
module Sorting {
  import opened Strings
  import opened Collections

  // ------------------------------------------------------------------ orders

  /** What a strict weak order says about three elements. */
  predicate OrderedTriple<T>(less: (T, T) -> bool, a: T, b: T, c: T) {
    && !less(a, a)
    && (less(a, b) && less(b, c) ==> less(a, c))
    && (less(a, b) ==> less(a, c) || less(c, b))
  }

  ghost predicate WeakOrder<T(!new)>(less: (T, T) -> bool) {
    forall a, b, c {:trigger OrderedTriple(less, a, b, c)} :: OrderedTriple(less, a, b, c)
  }

  type SortKey = seq<string>

  predicate KeyLess(a: SortKey, b: SortKey) {
    b != [] && (a == [] || StringLess(a[0], b[0]) || (a[0] == b[0] && KeyLess(a[1..], b[1..])))
  }

  lemma {:induction false} KeyOrder(a: SortKey, b: SortKey, c: SortKey)
    ensures !KeyLess(a, a)
    ensures KeyLess(a, b) && KeyLess(b, c) ==> KeyLess(a, c)
    ensures a == b || KeyLess(a, b) || KeyLess(b, a)
  {
    if a != [] {
      var b', c' := if b == [] then [] else b[1..], if c == [] then [] else c[1..];
      KeyOrder(a[1..], b', c');
      StringOrder(a[0], if b == [] then "" else b[0], if c == [] then "" else c[0]);
      if b != [] && a[0] == b[0] && a[1..] == b[1..] { assert a == [a[0]] + a[1..] == b; }
    }
  }

  lemma KeyOfOne(a: string, b: string)
    ensures KeyLess([a], [b]) <==> StringLess(a, b)
  {
    assert [a][1..] == [] && [b][1..] == [];
  }

  /** The first string decides, and the second one where the first ones are equal. */
  lemma KeyOfTwo(a: string, c: string, b: string, d: string)
    ensures KeyLess([a, c], [b, d]) <==> StringLess(a, b) || (a == b && StringLess(c, d))
  {
    assert [a, c][1..] == [c] && [b, d][1..] == [d];
    KeyOfOne(c, d);
  }

  lemma KeyOfThree(a: string, c: string, e: string, b: string, d: string, f: string)
    ensures KeyLess([a, c, e], [b, d, f])
      <==> StringLess(a, b) || (a == b && (StringLess(c, d) || (c == d && StringLess(e, f))))
  {
    assert [a, c, e][1..] == [c, e] && [b, d, f][1..] == [d, f];
    KeyOfTwo(c, e, d, f);
  }

  /** The order by a list of strings that every element has. */
  function By<T>(key: T -> SortKey): (T, T) -> bool {
    (a, b) => KeyLess(key(a), key(b))
  }

  lemma ByIsAnOrder<T(!new)>(key: T -> SortKey)
    ensures WeakOrder(By(key))
  {
    forall a, b, c ensures OrderedTriple(By(key), a, b, c) {
      KeyOrder(key(a), key(b), key(c));
      KeyOrder(key(c), key(a), key(b));
      KeyOrder(key(c), key(b), key(b));
      KeyOrder(key(a), key(c), key(b));
    }
  }

  // ------------------------------------------------------------------ sorting

  function Insert<T>(s: seq<T>, x: T, less: (T, T) -> bool): (r: seq<T>)
    ensures |r| == |s| + 1
  {
    if s != [] && less(x, s[|s| - 1]) then Insert(s[..|s| - 1], x, less) + [s[|s| - 1]] else s + [x]
  }

  function Sort<T>(s: seq<T>, less: (T, T) -> bool): (r: seq<T>)
    ensures |r| == |s|
  {
    if s == [] then [] else Insert(Sort(s[..|s| - 1], less), s[|s| - 1], less)
  }

  predicate Sorted<T>(s: seq<T>, less: (T, T) -> bool) {
    forall i, j :: 0 <= i < j < |s| ==> !less(s[j], s[i])
  }

  predicate Increasing<T>(s: seq<T>, less: (T, T) -> bool) {
    forall i, j :: 0 <= i < j < |s| ==> less(s[i], s[j])
  }

  /** How often an element occurs. */
  function Occurs<T(==)>(s: seq<T>, x: T): nat {
    if s == [] then 0 else Occurs(s[..|s| - 1], x) + if s[|s| - 1] == x then 1 else 0
  }

  lemma OccursInSum<T>(s: seq<T>, y: T, x: T)
    ensures Occurs(s + [y], x) == Occurs(s, x) + if y == x then 1 else 0
  {
    assert (s + [y])[..|s|] == s;
  }

  lemma {:induction false} OccursIfInside<T>(s: seq<T>, x: T)
    ensures Occurs(s, x) > 0 <==> x in s
  {
    if s != [] {
      OccursIfInside(s[..|s| - 1], x);
      assert s == s[..|s| - 1] + [s[|s| - 1]];
    }
  }

  lemma {:induction false} InsertMembers<T>(s: seq<T>, x: T, y: T, less: (T, T) -> bool)
    ensures Occurs(Insert(s, x, less), y) == Occurs(s, y) + if x == y then 1 else 0
  {
    if s != [] && less(x, s[|s| - 1]) {
      InsertMembers(s[..|s| - 1], x, y, less);
      OccursInSum(Insert(s[..|s| - 1], x, less), s[|s| - 1], y);
    } else {
      OccursInSum(s, x, y);
    }
  }

  /** The same elements, as often. */
  lemma {:induction false} SortMembers<T>(s: seq<T>, y: T, less: (T, T) -> bool)
    ensures Occurs(Sort(s, less), y) == Occurs(s, y)
  {
    if s != [] {
      SortMembers(s[..|s| - 1], y, less);
      InsertMembers(Sort(s[..|s| - 1], less), s[|s| - 1], y, less);
    }
  }

  lemma InsertContains<T(!new)>(s: seq<T>, x: T, less: (T, T) -> bool)
    ensures forall y :: y in Insert(s, x, less) <==> y == x || y in s
  {
    forall y ensures y in Insert(s, x, less) <==> y == x || y in s {
      InsertMembers(s, x, y, less);
      OccursIfInside(s, y);
      OccursIfInside(Insert(s, x, less), y);
    }
  }

  lemma SortContains<T(!new)>(s: seq<T>, less: (T, T) -> bool)
    ensures forall x :: x in Sort(s, less) <==> x in s
  {
    forall x ensures x in Sort(s, less) <==> x in s {
      SortMembers(s, x, less);
      OccursIfInside(s, x);
      OccursIfInside(Sort(s, less), x);
    }
  }

  lemma SortedMore<T>(s: seq<T>, last: T, less: (T, T) -> bool)
    requires Sorted(s, less) && forall y :: y in s ==> !less(last, y)
    ensures Sorted(s + [last], less)
  {
  }

  lemma NotBeforeSorted<T(!new)>(s: seq<T>, x: T, less: (T, T) -> bool)
    requires WeakOrder(less) && Sorted(s, less) && s != [] && !less(x, s[|s| - 1])
    ensures forall y :: y in s ==> !less(x, y)
  {
    forall y | y in s ensures !less(x, y) {
      assert OrderedTriple(less, x, y, s[|s| - 1]);
    }
  }

  lemma {:induction false} InsertSorts<T(!new)>(s: seq<T>, x: T, less: (T, T) -> bool)
    requires WeakOrder(less) && Sorted(s, less)
    ensures Sorted(Insert(s, x, less), less)
  {
    if s == [] {
    } else if less(x, s[|s| - 1]) {
      var rest, last := s[..|s| - 1], s[|s| - 1];
      InsertSorts(rest, x, less);
      InsertContains(rest, x, less);
      var head := Insert(rest, x, less);
      forall y | y in head ensures !less(last, y) {
        assert OrderedTriple(less, x, last, x);
        assert y == x || y in rest;
      }
      SortedMore(head, last, less);
    } else {
      NotBeforeSorted(s, x, less);
      SortedMore(s, x, less);
    }
  }

  lemma {:induction false} SortSorts<T(!new)>(s: seq<T>, less: (T, T) -> bool)
    requires WeakOrder(less)
    ensures Sorted(Sort(s, less), less)
  {
    if s != [] {
      SortSorts(s[..|s| - 1], less);
      InsertSorts(Sort(s[..|s| - 1], less), s[|s| - 1], less);
    }
  }

  lemma {:induction false} SortedStays<T>(s: seq<T>, less: (T, T) -> bool)
    requires Sorted(s, less)
    ensures Sort(s, less) == s
  {
    if s != [] {
      SortedStays(s[..|s| - 1], less);
      assert s == s[..|s| - 1] + [s[|s| - 1]];
      if |s| > 1 { assert !less(s[|s| - 1], s[|s| - 2]); }
    }
  }

  // ------------------------------------------------------------------ stability

  predicate Same<T>(a: T, b: T, less: (T, T) -> bool) {
    !less(a, b) && !less(b, a)
  }

  /** The elements that tie with `x`, in their order. */
  function Ties<T>(s: seq<T>, x: T, less: (T, T) -> bool): seq<T> {
    if s == [] then []
    else Ties(s[..|s| - 1], x, less) + if Same(s[|s| - 1], x, less) then [s[|s| - 1]] else []
  }

  /** What a stable sort has to deliver: order, and ties as they were. */
  ghost predicate IsStableSortOf<T(!new)>(s: seq<T>, r: seq<T>, less: (T, T) -> bool) {
    Sorted(r, less) && |r| == |s| && forall x :: Ties(r, x, less) == Ties(s, x, less)
  }

  lemma TiesOfSum<T>(s: seq<T>, y: T, x: T, less: (T, T) -> bool)
    ensures Ties(s + [y], x, less) == Ties(s, x, less) + if Same(y, x, less) then [y] else []
  {
    assert (s + [y])[..|s|] == s;
  }

  lemma NotBothTie<T(!new)>(a: T, b: T, y: T, less: (T, T) -> bool)
    requires WeakOrder(less) && less(a, b)
    ensures !Same(a, y, less) || !Same(b, y, less)
  {
    assert OrderedTriple(less, a, b, y);
  }

  lemma {:induction false} InsertKeepsTies<T(!new)>(s: seq<T>, x: T, y: T, less: (T, T) -> bool)
    requires WeakOrder(less)
    ensures Ties(Insert(s, x, less), y, less) == Ties(s + [x], y, less)
  {
    if s != [] && less(x, s[|s| - 1]) {
      var rest, last := s[..|s| - 1], s[|s| - 1];
      InsertKeepsTies(rest, x, y, less);
      TiesOfSum(Insert(rest, x, less), last, y, less);
      TiesOfSum(rest, x, y, less);
      TiesOfSum(s, x, y, less);
      NotBothTie(x, last, y, less);
    } else {
      assert Insert(s, x, less) == s + [x];
    }
  }

  /** The result is sorted and keeps ties as they were. */
  lemma {:induction false} SortIsStable<T(!new)>(s: seq<T>, less: (T, T) -> bool)
    requires WeakOrder(less)
    ensures IsStableSortOf(s, Sort(s, less), less)
  {
    SortSorts(s, less);
    SortContains(s, less);
    forall x ensures Ties(Sort(s, less), x, less) == Ties(s, x, less) { SortKeepsTies(s, x, less); }
  }

  lemma {:induction false} SortKeepsTies<T(!new)>(s: seq<T>, x: T, less: (T, T) -> bool)
    requires WeakOrder(less)
    ensures Ties(Sort(s, less), x, less) == Ties(s, x, less)
  {
    if s != [] {
      var rest, last := s[..|s| - 1], s[|s| - 1];
      SortKeepsTies(rest, x, less);
      InsertKeepsTies(Sort(rest, less), last, x, less);
      TiesOfSum(Sort(rest, less), last, x, less);
    }
  }

  /** Where each element of `r` was in `s`; ties come in the order in which they were. */
  ghost predicate Origins<T>(s: seq<T>, r: seq<T>, origins: seq<nat>, less: (T, T) -> bool) {
    && |origins| == |r| && Distinct(origins)
    && (forall i :: 0 <= i < |r| ==> origins[i] < |s| && r[i] == s[origins[i]])
    && (forall i, j :: 0 <= i < j < |r| && !less(r[i], r[j]) ==> origins[i] < origins[j])
  }

  /** All of the first `n` positions. */
  predicate Reaches(origins: seq<nat>, n: nat) {
    forall k :: 0 <= k < n ==> k in origins
  }

  lemma {:induction false} InsertOrigins<T>(s: seq<T>, r: seq<T>, origins: seq<nat>, x: T, less: (T, T) -> bool)
    returns (more: seq<nat>)
    requires Origins(s, r, origins, less)
    ensures Origins(s + [x], Insert(r, x, less), more, less)
    ensures forall k :: k in more <==> k in origins || k == |s|
    ensures Reaches(origins, |s|) ==> Reaches(more, |s| + 1)
  {
    if r != [] && less(x, r[|r| - 1]) {
      var n := |r| - 1;
      FirstOrigins(s, r, origins, n, less);
      var before := InsertOrigins(s, r[..n], origins[..n], x, less);
      more := before + [origins[n]];
      assert origins == origins[..n] + [origins[n]];
      assert forall i :: 0 <= i <= n ==> before[i] in before;
      InsertedLast(s, r, origins, x, before, less);
    } else {
      more := origins + [|s|];
      AppendedOrigins(s, r, origins, x, less);
    }
  }

  lemma FirstOrigins<T>(s: seq<T>, r: seq<T>, origins: seq<nat>, n: nat, less: (T, T) -> bool)
    requires Origins(s, r, origins, less) && n <= |r|
    ensures Origins(s, r[..n], origins[..n], less)
  {
  }

  lemma AppendedOrigins<T>(s: seq<T>, r: seq<T>, origins: seq<nat>, x: T, less: (T, T) -> bool)
    requires Origins(s, r, origins, less)
    ensures Origins(s + [x], r + [x], origins + [|s|], less)
  {
  }

  lemma InsertedLast<T>(s: seq<T>, r: seq<T>, origins: seq<nat>, x: T, before: seq<nat>, less: (T, T) -> bool)
    requires r != [] && less(x, r[|r| - 1]) && Origins(s, r, origins, less)
    requires Origins(s + [x], Insert(r[..|r| - 1], x, less), before, less)
    requires forall i :: 0 <= i < |before| ==> before[i] == |s| || before[i] in origins[..|r| - 1]
    ensures Origins(s + [x], Insert(r[..|r| - 1], x, less) + [r[|r| - 1]], before + [origins[|r| - 1]], less)
  {
    var n := |r| - 1;
    var head := Insert(r[..n], x, less);
    forall i | 0 <= i < |head| && !less(head[i], r[n]) ensures before[i] < origins[n] {
      if before[i] != |s| {
        var k :| 0 <= k < n && origins[k] == before[i];
        assert head[i] == r[k];
      }
    }
  }

  /** Sorting moves every element to one place and lets none overtake an equal one. */
  lemma {:induction false} SortOrigins<T>(s: seq<T>, less: (T, T) -> bool) returns (origins: seq<nat>)
    ensures Origins(s, Sort(s, less), origins, less)
    ensures Reaches(origins, |s|)
  {
    if s == [] {
      origins := [];
    } else {
      var rest, last := s[..|s| - 1], s[|s| - 1];
      var before := SortOrigins(rest, less);
      origins := InsertOrigins(rest, Sort(rest, less), before, last, less);
      assert rest + [last] == s;
    }
  }

  lemma {:induction false} TiesAreInside<T>(s: seq<T>, x: T, less: (T, T) -> bool)
    ensures forall y :: y in Ties(s, x, less) ==> y in s && Same(y, x, less)
  {
    if s != [] { TiesAreInside(s[..|s| - 1], x, less); }
  }

  lemma TiesOfLast<T(!new)>(s: seq<T>, less: (T, T) -> bool)
    requires WeakOrder(less) && s != []
    ensures var t := Ties(s, s[|s| - 1], less); t != [] && t[|t| - 1] == s[|s| - 1]
  {
    assert OrderedTriple(less, s[|s| - 1], s[|s| - 1], s[|s| - 1]);
  }

  /** The last element of one is at most the last of the other. */
  lemma LastNotBefore<T(!new)>(r: seq<T>, s: seq<T>, less: (T, T) -> bool)
    requires WeakOrder(less) && r != [] && s != [] && Sorted(s, less)
    requires Ties(r, r[|r| - 1], less) == Ties(s, r[|r| - 1], less)
    ensures !less(s[|s| - 1], r[|r| - 1])
  {
    var last := r[|r| - 1];
    TiesOfLast(r, less);
    TiesAreInside(s, last, less);
    assert last in s;
    assert OrderedTriple(less, last, last, last);
  }

  lemma CutTail<T>(a: seq<T>, b: seq<T>, tail: seq<T>)
    requires a + tail == b + tail
    ensures a == b
  {
    assert |a| + |tail| == |a + tail| == |b + tail| == |b| + |tail|;
    assert a == (a + tail)[..|a|] && b == (b + tail)[..|a|];
  }

  lemma {:induction false} SameTiesSameOrder<T(!new)>(r: seq<T>, s: seq<T>, less: (T, T) -> bool)
    requires WeakOrder(less) && Sorted(r, less) && Sorted(s, less) && |r| == |s|
    requires forall x :: Ties(r, x, less) == Ties(s, x, less)
    ensures r == s
  {
    if r != [] {
      var a, b := r[|r| - 1], s[|s| - 1];
      LastNotBefore(r, s, less);
      LastNotBefore(s, r, less);
      TiesOfLast(r, less);
      assert a == b;
      var r', s' := r[..|r| - 1], s[..|s| - 1];
      forall x ensures Ties(r', x, less) == Ties(s', x, less) {
        assert Ties(r, x, less) == Ties(s, x, less);
        CutTail(Ties(r', x, less), Ties(s', x, less), if Same(a, x, less) then [a] else []);
      }
      SameTiesSameOrder(r', s', less);
      assert r == r' + [a] && s == s' + [b];
    }
  }

  /** There is one stable sort of a list, so it does not matter which algorithm finds it. */
  lemma SortIsUnique<T(!new)>(s: seq<T>, r: seq<T>, less: (T, T) -> bool)
    requires WeakOrder(less) && IsStableSortOf(s, r, less)
    ensures r == Sort(s, less)
  {
    SortIsStable(s, less);
    forall x ensures Ties(r, x, less) == Ties(Sort(s, less), x, less) {
      assert Ties(r, x, less) == Ties(s, x, less);
      assert Ties(Sort(s, less), x, less) == Ties(s, x, less);
    }
    SameTiesSameOrder(r, Sort(s, less), less);
  }

  // ------------------------------------------------------------------ cutting

  /** What falls beyond the cut never comes back, whatever is inserted. */
  lemma {:induction false} CutBeforeInsert<T(!new)>(s: seq<T>, x: T, k: nat, less: (T, T) -> bool)
    requires WeakOrder(less) && Sorted(s, less) && k > 0
    ensures Take(Insert(Take(s, k), x, less), k) == Take(Insert(s, x, less), k)
  {
    if |s| > k {
      var rest, last := s[..|s| - 1], s[|s| - 1];
      assert rest[..k] == s[..k];
      if less(x, last) {
        CutBeforeInsert(rest, x, k, less);
        assert Take(Insert(s, x, less), k) == Take(Insert(rest, x, less), k);
      } else {
        assert OrderedTriple(less, x, s[k - 1], last);
        assert !less(last, s[k - 1]);
      }
    }
  }

  // ------------------------------------------------------------------ increasing lists

  /** Where the keys tell elements apart, sorting puts them in strictly increasing order. */
  lemma KeysIncrease<T(!new)>(s: seq<T>, key: T -> SortKey)
    requires Sorted(s, By(key)) && forall i, j :: 0 <= i < j < |s| ==> key(s[i]) != key(s[j])
    ensures Increasing(s, By(key))
  {
    forall i, j | 0 <= i < j < |s| ensures By(key)(s[i], s[j]) {
      assert !By(key)(s[j], s[i]);
      KeyOrder(key(s[i]), key(s[j]), key(s[i]));
    }
  }

  /** There is only one increasing list of the same elements. */
  lemma {:induction false} IncreasingIsUnique<T(!new)>(r: seq<T>, s: seq<T>, less: (T, T) -> bool)
    requires WeakOrder(less) && Increasing(r, less) && Increasing(s, less) && forall x :: x in r <==> x in s
    ensures r == s
  {
    assert s != [] ==> s[0] in r;
    if r != [] {
      assert r[0] in s;
      var a, b := r[|r| - 1], s[|s| - 1];
      LastIsGreatest(r, b, less);
      LastIsGreatest(s, a, less);
      assert OrderedTriple(less, a, b, a);
      assert a == b;
      var r', s' := r[..|r| - 1], s[..|s| - 1];
      forall x ensures x in r' <==> x in s' {
        InitIsSmaller(r, x, less);
        InitIsSmaller(s, x, less);
      }
      IncreasingIsUnique(r', s', less);
      assert r == r' + [a] && s == s' + [b];
    }
  }

  lemma LastIsGreatest<T>(s: seq<T>, x: T, less: (T, T) -> bool)
    requires Increasing(s, less) && x in s
    ensures x == s[|s| - 1] || less(x, s[|s| - 1])
  {
  }

  lemma InitIsSmaller<T(!new)>(s: seq<T>, x: T, less: (T, T) -> bool)
    requires WeakOrder(less) && Increasing(s, less) && s != []
    ensures x in s[..|s| - 1] <==> x in s && x != s[|s| - 1]
  {
    var last := s[|s| - 1];
    assert OrderedTriple(less, last, last, last);
    if x in s[..|s| - 1] {
      var i :| 0 <= i < |s| - 1 && s[..|s| - 1][i] == x;
      assert s[i] == x && less(x, last);
    }
    if x in s && x != last {
      var i :| 0 <= i < |s| && s[i] == x;
      assert s[..|s| - 1][i] == x;
    }
  }

  lemma {:induction false} DistinctOccurOnce<T>(s: seq<T>, x: T)
    requires Distinct(s)
    ensures Occurs(s, x) <= 1
  {
    if s != [] {
      var rest := s[..|s| - 1];
      DistinctOccurOnce(rest, x);
      OccursIfInside(rest, x);
    }
  }

  lemma {:induction false} OccurOnceDistinct<T(!new)>(s: seq<T>)
    requires forall x :: Occurs(s, x) <= 1
    ensures Distinct(s)
  {
    if s != [] {
      var rest, last := s[..|s| - 1], s[|s| - 1];
      forall x ensures Occurs(rest, x) <= 1 { assert Occurs(s, x) <= 1; }
      OccurOnceDistinct(rest);
      assert Occurs(s, last) <= 1;
      OccursIfInside(rest, last);
    }
  }

  lemma SortKeepsDistinct<T(!new)>(s: seq<T>, less: (T, T) -> bool)
    requires Distinct(s)
    ensures Distinct(Sort(s, less))
  {
    forall x ensures Occurs(Sort(s, less), x) <= 1 {
      DistinctOccurOnce(s, x);
      SortMembers(s, x, less);
    }
    OccurOnceDistinct(Sort(s, less));
  }
}
