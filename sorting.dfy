/**
 * The stable comparison sort that `Array.prototype.sort` performs, for a
 * comparator described by `before(x, y)` ("the comparator returns a negative
 * number for x, y"). `SortBy` specifies it as insertion sort, which is stable;
 * for a strict weak ordering every stable sort produces the same order.
 */
module Sorting {

  /** `before` is a strict weak ordering: irreflexive, transitive, and its incomparability is transitive. */
  ghost predicate StrictWeakOrder<T(!new)>(before: (T, T) -> bool) {
    && (forall x :: !before(x, x))
    && (forall x, y, z :: before(x, y) && before(y, z) ==> before(x, z))
    && (forall x, y, z :: !before(x, y) && !before(y, z) ==> !before(x, z))
  }

  /** No element is strictly before an earlier one. */
  ghost predicate Sorted<T>(s: seq<T>, before: (T, T) -> bool) {
    forall i, j :: 0 <= i < j < |s| ==> !before(s[j], s[i])
  }

  /** Neither element is before the other. */
  predicate Equivalent<T>(x: T, y: T, before: (T, T) -> bool) {
    !before(x, y) && !before(y, x)
  }

  /** The elements of `s` equivalent to `y`, in their order in `s`. */
  function Class<T>(s: seq<T>, y: T, before: (T, T) -> bool): seq<T> {
    if s == [] then []
    else (if Equivalent(s[0], y, before) then [s[0]] else []) + Class(s[1..], y, before)
  }

  /** Insert `x` after every element it is not strictly before. */
  function Insert<T>(s: seq<T>, x: T, before: (T, T) -> bool): seq<T> {
    if s == [] || !before(x, s[|s| - 1]) then s + [x]
    else Insert(s[..|s| - 1], x, before) + [s[|s| - 1]]
  }

  /** Stable insertion sort of `s` by `before`. */
  function SortBy<T>(s: seq<T>, before: (T, T) -> bool): seq<T> {
    if s == [] then []
    else Insert(SortBy(s[..|s| - 1], before), s[|s| - 1], before)
  }

  lemma {:induction false} InsertPermutes<T>(s: seq<T>, x: T, before: (T, T) -> bool)
    ensures multiset(Insert(s, x, before)) == multiset(s) + multiset{x}
  {
    if s != [] && before(x, s[|s| - 1]) {
      InsertPermutes(s[..|s| - 1], x, before);
      assert s == s[..|s| - 1] + [s[|s| - 1]];
    }
  }

  /** The sort's result is a permutation of its input. */
  lemma {:induction false} SortByPermutes<T>(s: seq<T>, before: (T, T) -> bool)
    ensures multiset(SortBy(s, before)) == multiset(s)
    ensures |SortBy(s, before)| == |s|
  {
    if s != [] {
      SortByPermutes(s[..|s| - 1], before);
      InsertPermutes(SortBy(s[..|s| - 1], before), s[|s| - 1], before);
      assert s == s[..|s| - 1] + [s[|s| - 1]];
    }
  }

  lemma {:induction false} ClassAppend<T>(a: seq<T>, b: seq<T>, y: T, before: (T, T) -> bool)
    ensures Class(a + b, y, before) == Class(a, y, before) + Class(b, y, before)
  {
    if a == [] {
      assert a + b == b;
    } else {
      assert (a + b)[1..] == a[1..] + b;
      ClassAppend(a[1..], b, y, before);
    }
  }

  lemma ClassSingle<T>(x: T, y: T, before: (T, T) -> bool)
    ensures Class([x], y, before) == if Equivalent(x, y, before) then [x] else []
  {
    assert [x][1..] == [];
  }

  lemma {:induction false} InsertSorted<T(!new)>(s: seq<T>, x: T, before: (T, T) -> bool)
    requires StrictWeakOrder(before)
    requires Sorted(s, before)
    ensures Sorted(Insert(s, x, before), before)
  {
    if s == [] || !before(x, s[|s| - 1]) {
    } else {
      var init, last := s[..|s| - 1], s[|s| - 1];
      InsertSorted(init, x, before);
      InsertPermutes(init, x, before);
      var t := Insert(init, x, before);
      forall e | e in t ensures !before(last, e) {
        assert e in multiset(t);
        if e != x {
          assert e in multiset(init);
          var k :| 0 <= k < |init| && init[k] == e;
          assert s[k] == e;
        }
      }
      forall i, j | 0 <= i < j < |t + [last]| ensures !before((t + [last])[j], (t + [last])[i]) {
        if j == |t| {
          assert (t + [last])[i] == t[i];
          assert t[i] in t;
        }
      }
    }
  }

  /** The sort's result is ordered by `before`. */
  lemma {:induction false} SortBySorted<T(!new)>(s: seq<T>, before: (T, T) -> bool)
    requires StrictWeakOrder(before)
    ensures Sorted(SortBy(s, before), before)
  {
    if s != [] {
      SortBySorted(s[..|s| - 1], before);
      InsertSorted(SortBy(s[..|s| - 1], before), s[|s| - 1], before);
    }
  }

  lemma {:induction false} InsertClass<T(!new)>(s: seq<T>, x: T, y: T, before: (T, T) -> bool)
    requires StrictWeakOrder(before)
    ensures Class(Insert(s, x, before), y, before)
         == Class(s, y, before) + Class([x], y, before)
  {
    if s == [] || !before(x, s[|s| - 1]) {
      ClassAppend(s, [x], y, before);
    } else {
      var init, last := s[..|s| - 1], s[|s| - 1];
      assert s == init + [last];
      assert Insert(s, x, before) == Insert(init, x, before) + [last];
      InsertClass(init, x, y, before);
      ClassAppend(Insert(init, x, before), [last], y, before);
      ClassAppend(init, [last], y, before);
      ClassSingle(x, y, before);
      ClassSingle(last, y, before);
    }
  }

  /** Stability: the sort keeps the input order among equivalent elements. */
  lemma {:induction false} SortByStable<T(!new)>(s: seq<T>, y: T, before: (T, T) -> bool)
    requires StrictWeakOrder(before)
    ensures Class(SortBy(s, before), y, before) == Class(s, y, before)
  {
    if s != [] {
      var init, last := s[..|s| - 1], s[|s| - 1];
      SortByStable(init, y, before);
      InsertClass(SortBy(init, before), last, y, before);
      assert s == init + [last];
      ClassAppend(init, [last], y, before);
    }
  }

  /** No element occurs twice. */
  ghost predicate Distinct<T>(s: seq<T>) {
    forall i, j :: 0 <= i < j < |s| ==> s[i] != s[j]
  }

  lemma {:induction false} DistinctCount<T>(s: seq<T>, x: T)
    requires Distinct(s)
    ensures multiset(s)[x] <= 1
  {
    if s != [] {
      var init := s[..|s| - 1];
      DistinctCount(init, x);
      assert s == init + [s[|s| - 1]];
      if s[|s| - 1] == x {
        assert x !in init;
      }
    }
  }

  lemma TwoPositions<T>(s: seq<T>, i: int, j: int)
    requires 0 <= i < j < |s| && s[i] == s[j]
    ensures multiset(s)[s[i]] >= 2
  {
    assert s == s[..j] + [s[j]] + s[j + 1..];
    assert s[..j][i] == s[i];
  }

  /** A permutation of a sequence without repetitions has none either. */
  lemma DistinctPermutation<T>(a: seq<T>, b: seq<T>)
    requires multiset(a) == multiset(b) && Distinct(a)
    ensures Distinct(b)
  {
    forall i, j | 0 <= i < j < |b| ensures b[i] != b[j] {
      if b[i] == b[j] {
        TwoPositions(b, i, j);
        DistinctCount(a, b[i]);
      }
    }
  }

  /** Moves `a[i]` left past the elements it is strictly before, shifting them right. */
  method InsertAt<T>(a: array<T>, i: nat, before: (T, T) -> bool)
    requires i < a.Length
    modifies a
    ensures a[..i + 1] == Insert(old(a[..i]), old(a[i]), before)
    ensures a[i + 1..] == old(a[i + 1..])
  {
    ghost var S := a[..i];
    ghost var rest := a[i + 1..];
    var x := a[i];
    var j := i;
    while j > 0 && before(x, a[j - 1])
      invariant 0 <= j <= i
      invariant a[..j] == S[..j]
      invariant a[j + 1..i + 1] == S[j..]
      invariant a[i + 1..] == rest
      invariant Insert(S, x, before) == Insert(S[..j], x, before) + S[j..]
    {
      assert S[..j][..j - 1] == S[..j - 1];
      assert S[j - 1..] == [S[j - 1]] + S[j..];
      a[j] := a[j - 1];
      j := j - 1;
    }
    a[j] := x;
    assert a[..i + 1] == S[..j] + [x] + S[j..];
  }

  /** Sorts `a` in place with the insertion sort that `SortBy` specifies. */
  method SortInPlace<T>(a: array<T>, before: (T, T) -> bool)
    modifies a
    ensures a[..] == SortBy(old(a[..]), before)
  {
    ghost var orig := a[..];
    var i := 0;
    while i < a.Length
      invariant 0 <= i <= a.Length
      invariant a[..i] == SortBy(orig[..i], before)
      invariant a[i..] == orig[i..]
    {
      InsertAt(a, i, before);
      assert orig[..i + 1][..i] == orig[..i];
      assert orig[..i + 1][i] == orig[i];
      i := i + 1;
    }
    assert orig[..a.Length] == orig;
  }
}
