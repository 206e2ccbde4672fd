/** Python's `sorted(..., key=k, reverse=True)`: a stable sort by a key in
    descending order (elements with equal keys keep their input order), and
    the first-occurrence order of a dict's keys. */
module Sorting {
  import opened Text

  predicate SortedDesc<T>(s: seq<T>, key: T -> real) {
    forall i, j :: 0 <= i < j < |s| ==> key(s[i]) >= key(s[j])
  }

  /** The elements whose key is exactly `k`. */
  function KeyIs<T>(key: T -> real, k: real): T -> bool {
    y => key(y) == k
  }

  /** Puts `x` after every element whose key is at least `key(x)`. */
  function InsertDesc<T>(x: T, s: seq<T>, key: T -> real): (r: seq<T>)
    requires SortedDesc(s, key)
    ensures |r| == |s| + 1
    ensures forall j :: 0 <= j < |r| ==> r[j] == x || r[j] in s
    ensures SortedDesc(r, key)
    decreases |s|
  {
    if |s| == 0 then [x]
    else if key(s[0]) >= key(x) then
      var rest := InsertDesc(x, s[1..], key);
      assert s == [s[0]] + s[1..];
      assert forall j :: 0 <= j < |rest| ==> key(rest[j]) <= key(s[0]) by {
        forall j | 0 <= j < |rest| ensures key(rest[j]) <= key(s[0]) {
          if rest[j] != x {
            var i :| 0 <= i < |s[1..]| && s[1..][i] == rest[j];
            assert s[i + 1] == rest[j];
          }
        }
      }
      [s[0]] + rest
    else
      [x] + s
  }

  lemma {:induction false} InsertDescPermutes<T>(x: T, s: seq<T>, key: T -> real)
    requires SortedDesc(s, key)
    ensures multiset(InsertDesc(x, s, key)) == multiset(s) + multiset{x}
    decreases |s|
  {
    if |s| > 0 && key(s[0]) >= key(x) {
      InsertDescPermutes(x, s[1..], key);
      assert s == [s[0]] + s[1..];
    }
  }

  /** Stable descending sort (insertion sort, front to back). */
  function SortDesc<T>(s: seq<T>, key: T -> real): (r: seq<T>)
    ensures |r| == |s|
    ensures multiset(r) == multiset(s)
    ensures SortedDesc(r, key)
    decreases |s|
  {
    if |s| == 0 then []
    else
      var sorted := SortDesc(s[..|s| - 1], key);
      InsertDescPermutes(s[|s| - 1], sorted, key);
      ButLast(s);
      InsertDesc(s[|s| - 1], sorted, key)
  }

  lemma {:induction false} FilterAppend<T>(p: T -> bool, a: seq<T>, b: seq<T>)
    ensures Filter(p, a + b) == Filter(p, a) + Filter(p, b)
    decreases |a|
  {
    if |a| > 0 {
      FilterAppend(p, a[1..], b);
      var ab := a + b;
      assert ab[0] == a[0];
      assert ab[1..] == a[1..] + b;
    } else {
      assert a + b == b;
    }
  }

  lemma {:induction false} InsertDescStable<T>(x: T, s: seq<T>, key: T -> real, k: real)
    requires SortedDesc(s, key)
    ensures Filter(KeyIs(key, k), InsertDesc(x, s, key))
         == Filter(KeyIs(key, k), s) + (if key(x) == k then [x] else [])
    decreases |s|
  {
    var p := KeyIs(key, k);
    if |s| == 0 {
    } else if key(s[0]) >= key(x) {
      InsertDescStable(x, s[1..], key, k);
      var rest := InsertDesc(x, s[1..], key);
      assert ([s[0]] + rest)[1..] == rest;
    } else {
      FilterAppend(p, [x], s);
      if key(x) == k {
        assert forall j :: 0 <= j < |s| ==> !p(s[j]);
        FilterNone(p, s);
      }
    }
  }

  /** Stability: among the elements with any one key, the sort keeps their
      input order. */
  lemma {:induction false} SortDescStable<T>(s: seq<T>, key: T -> real, k: real)
    ensures Filter(KeyIs(key, k), SortDesc(s, key)) == Filter(KeyIs(key, k), s)
    decreases |s|
  {
    if |s| > 0 {
      var init := s[..|s| - 1];
      var x := s[|s| - 1];
      var p := KeyIs(key, k);
      var sorted := SortDesc(init, key);
      SortDescStable(init, key, k);
      InsertDescStable(x, sorted, key, k);
      assert SortDesc(s, key) == InsertDesc(x, sorted, key);
      ButLast(s);
      FilterAppend(p, init, [x]);
      assert [x][1..] == [];
      assert Filter(p, [x]) == if key(x) == k then [x] else [];
    }
  }

  // ---------------------------------------------------------------------------
  // Dict keys in first-insertion order

  /** Index of the first occurrence of `x` in `s`. */
  function FirstIndex<T(==)>(s: seq<T>, x: T): (i: nat)
    requires x in s
    ensures i < |s| && s[i] == x
    ensures forall j :: 0 <= j < i ==> s[j] != x
    decreases |s|
  {
    if s[0] == x then 0 else 1 + FirstIndex(s[1..], x)
  }

  lemma FirstIndexSnoc<T>(s: seq<T>, x: T, y: T)
    requires y in s
    ensures FirstIndex(s + [x], y) == FirstIndex(s, y)
  {
    var i := FirstIndex(s, y);
    var t := s + [x];
    assert t[i] == y;
    assert forall j :: 0 <= j < i ==> t[j] != y;
  }

  predicate NoDuplicates<T(==)>(s: seq<T>) {
    forall i, j :: 0 <= i < j < |s| ==> s[i] != s[j]
  }

  /** The distinct elements of `s` in order of first occurrence: the keys of
      a dict filled from `s`. */
  function Distinct<T(==)>(s: seq<T>): (r: seq<T>)
    ensures NoDuplicates(r)
    ensures |r| <= |s|
    ensures forall i :: 0 <= i < |r| ==> r[i] in s
    ensures forall i :: 0 <= i < |s| ==> s[i] in r
    decreases |s|
  {
    if |s| == 0 then []
    else
      var init := s[..|s| - 1];
      var x := s[|s| - 1];
      var d := Distinct(init);
      ButLast(s);
      if x in d then d else d + [x]
  }

  lemma DistinctSnoc<T>(s: seq<T>)
    requires |s| > 0
    ensures var d := Distinct(s[..|s| - 1]);
            Distinct(s) == if s[|s| - 1] in d then d else d + [s[|s| - 1]]
  {
  }

  /** A sequence without duplicates is its own distinct elements. */
  lemma {:induction false} DistinctOfNoDuplicates<T>(s: seq<T>)
    requires NoDuplicates(s)
    ensures Distinct(s) == s
    decreases |s|
  {
    if |s| > 0 {
      var init := s[..|s| - 1];
      DistinctOfNoDuplicates(init);
      assert s[|s| - 1] !in init;
      ButLast(s);
    }
  }

  /** The distinct elements come in the order of their first occurrences. */
  lemma {:induction false} DistinctInFirstOrder<T>(s: seq<T>)
    ensures forall i, j :: 0 <= i < j < |Distinct(s)| ==> FirstIndex(s, Distinct(s)[i]) < FirstIndex(s, Distinct(s)[j])
    decreases |s|
  {
    if |s| > 0 {
      var init := s[..|s| - 1];
      var x := s[|s| - 1];
      var d := Distinct(init);
      DistinctInFirstOrder(init);
      ButLast(s);
      var r := Distinct(s);
      forall i, j | 0 <= i < j < |r| ensures FirstIndex(s, r[i]) < FirstIndex(s, r[j]) {
        assert r[i] == d[i] && d[i] in init;
        FirstIndexSnoc(init, x, r[i]);
        if j < |d| {
          assert r[j] == d[j] && d[j] in init;
          FirstIndexSnoc(init, x, r[j]);
          assert FirstIndex(init, d[i]) < FirstIndex(init, d[j]);
        } else {
          assert r[j] == x && x !in init;
          assert FirstIndex(s, x) == |s| - 1;
          assert FirstIndex(init, d[i]) < |init|;
        }
      }
    }
  }

  lemma {:induction false} DistinctAtMostOnce<T>(s: seq<T>, x: T)
    requires NoDuplicates(s)
    ensures multiset(s)[x] <= 1
    decreases |s|
  {
    if |s| > 0 {
      assert s == [s[0]] + s[1..];
      DistinctAtMostOnce(s[1..], x);
      if x == s[0] {
        assert x !in s[1..];
      }
    }
  }

  /** A permutation of a duplicate-free sequence is duplicate-free. */
  lemma PermutationKeepsDistinct<T>(a: seq<T>, b: seq<T>)
    requires NoDuplicates(a) && multiset(a) == multiset(b)
    ensures NoDuplicates(b)
  {
    forall i, j | 0 <= i < j < |b| ensures b[i] != b[j] {
      DistinctAtMostOnce(a, b[i]);
      if b[i] == b[j] {
        TwiceCounted(b, i, j);
      }
    }
  }

  lemma TwiceCounted<T>(b: seq<T>, i: nat, j: nat)
    requires i < j < |b| && b[i] == b[j]
    ensures multiset(b)[b[i]] >= 2
  {
    assert b == b[..j] + [b[j]] + b[j + 1..];
    assert b[..j][i] == b[i];
    assert b[i] in multiset(b[..j]);
  }

  lemma SameMultisetMembers<T>(a: seq<T>, b: seq<T>)
    requires multiset(a) == multiset(b)
    ensures forall i :: 0 <= i < |a| ==> a[i] in b
  {
    forall i | 0 <= i < |a| ensures a[i] in b {
      assert a[i] in multiset(a);
    }
  }

  /** The distinct elements of `s`, stably sorted by `key` (the items of a
      dict of counts, sorted by count). */
  function SortedDistinct<T(==)>(s: seq<T>, key: T -> real): (r: seq<T>)
    ensures NoDuplicates(r)
    ensures |r| <= |s|
    ensures forall i :: 0 <= i < |r| ==> r[i] in s
    ensures forall i :: 0 <= i < |s| ==> s[i] in r
    ensures SortedDesc(r, key)
    ensures |r| == |Distinct(s)|
  {
    var d := Distinct(s);
    var r := SortDesc(d, key);
    PermutationKeepsDistinct(d, r);
    SameMultisetMembers(r, d);
    SameMultisetMembers(d, r);
    r
  }

  /** The first `k` of the distinct elements of `s` stably sorted by `key`
      (Python's `sorted(..., reverse=True)[:k]`). */
  function TopDistinct<T(==)>(s: seq<T>, key: T -> real, k: int): (r: seq<T>)
    ensures NoDuplicates(r)
    ensures forall i :: 0 <= i < |r| ==> r[i] in s
    ensures SortedDesc(r, key)
    ensures k >= 0 ==> |r| <= k
    ensures k >= 0 ==> |r| == if k < |Distinct(s)| then k else |Distinct(s)|
    ensures k >= |s| ==> forall i :: 0 <= i < |s| ==> s[i] in r
    ensures k >= |Distinct(s)| ==> forall i :: 0 <= i < |s| ==> s[i] in r
  {
    var ranked := SortedDistinct(s, key);
    var r := PyTake(ranked, k);
    assert k >= |ranked| ==> r == ranked;
    assert forall i :: 0 <= i < |r| ==> r[i] == ranked[i];
    r
  }

  /** Nothing left out of the top `k` has a larger key than anything kept. */
  lemma TopDistinctIsTop<T>(s: seq<T>, key: T -> real, k: int, x: T, i: nat)
    ensures x in s && x !in TopDistinct(s, key, k) && i < |TopDistinct(s, key, k)| ==>
              key(TopDistinct(s, key, k)[i]) >= key(x)
  {
    var ranked := SortedDistinct(s, key);
    var r := TopDistinct(s, key, k);
    if x in s && x !in r && i < |r| {
      assert r == PyTake(ranked, k);
      var j :| 0 <= j < |ranked| && ranked[j] == x;
      assert r[i] == ranked[i];
    }
  }

  /** Among equally ranked elements the cut keeps the ones that come first
      in the distinct elements, that is, the ones that occur first in `s`. */
  lemma TopDistinctTiesKeepOrder<T>(s: seq<T>, key: T -> real, k: int, v: real)
    ensures Filter(KeyIs(key, v), TopDistinct(s, key, k)) <= Filter(KeyIs(key, v), Distinct(s))
    ensures k >= |Distinct(s)| ==>
              Filter(KeyIs(key, v), TopDistinct(s, key, k)) == Filter(KeyIs(key, v), Distinct(s))
  {
    var sorted := SortDesc(Distinct(s), key);
    var r := TopDistinct(s, key, k);
    assert sorted == SortedDistinct(s, key);
    assert r == sorted[..|r|];
    assert k >= |Distinct(s)| ==> r == sorted;
    FilterOfPrefix(KeyIs(key, v), sorted, |r|);
    SortDescStable(Distinct(s), key, v);
  }

  /** `sorted(s, key=key, reverse=True)[:k]`: the `min(k, |s|)` elements
      with the largest keys; whatever is cut off has a key no larger than
      anything kept. */
  function TopByKey<T>(s: seq<T>, key: T -> real, k: int): (r: seq<T>)
    ensures k >= 0 ==> |r| <= k
    ensures k >= 0 ==> |r| == if k < |s| then k else |s|
    ensures SortedDesc(r, key)
    ensures forall i :: 0 <= i < |r| ==> r[i] in s
    ensures multiset(r) <= multiset(s)
    ensures forall x :: x in multiset(s) - multiset(r) ==>
              forall i :: 0 <= i < |r| ==> key(x) <= key(r[i])
    ensures k >= |s| ==> multiset(r) == multiset(s)
  {
    var sorted := SortDesc(s, key);
    SameMultisetMembers(sorted, s);
    var r := PyTake(sorted, k);
    PrefixOfSorted(sorted, key, |r|);
    assert k >= |s| ==> r == sorted[..|sorted|] == sorted;
    r
  }

  /** A leading part of a descending sequence: what it leaves behind has no
      larger key than anything it keeps. */
  lemma PrefixOfSorted<T>(sorted: seq<T>, key: T -> real, m: nat)
    requires SortedDesc(sorted, key) && m <= |sorted|
    ensures multiset(sorted[..m]) <= multiset(sorted)
    ensures forall x :: x in multiset(sorted) - multiset(sorted[..m]) ==>
              forall i :: 0 <= i < m ==> key(x) <= key(sorted[..m][i])
  {
    var r := sorted[..m];
    var rest := sorted[m..];
    assert multiset(sorted) == multiset(r) + multiset(rest) by {
      assert sorted == r + rest;
    }
    forall x | x in multiset(rest) ensures forall i :: 0 <= i < m ==> key(x) <= key(r[i]) {
      var j :| 0 <= j < |rest| && rest[j] == x;
      assert x == sorted[m + j];
    }
  }

  /** Cutting the stably sorted list keeps, among the elements with any one
      key, a leading part of them in their input order. */
  lemma TopByKeyTiesKeepOrder<T>(s: seq<T>, key: T -> real, k: int, v: real)
    ensures Filter(KeyIs(key, v), TopByKey(s, key, k)) <= Filter(KeyIs(key, v), s)
    ensures k >= |s| ==> Filter(KeyIs(key, v), TopByKey(s, key, k)) == Filter(KeyIs(key, v), s)
  {
    var sorted := SortDesc(s, key);
    var r := TopByKey(s, key, k);
    assert r == sorted[..|r|];
    assert k >= |s| ==> r == sorted;
    FilterOfPrefix(KeyIs(key, v), sorted, |r|);
    SortDescStable(s, key, v);
  }

  lemma FilterOfPrefix<T>(p: T -> bool, s: seq<T>, m: nat)
    requires m <= |s|
    ensures Filter(p, s[..m]) <= Filter(p, s)
  {
    assert s == s[..m] + s[m..];
    FilterAppend(p, s[..m], s[m..]);
  }
}
