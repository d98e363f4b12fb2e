/** Sequence operations shared by the filters and the column statistics. */
module Seqs {
  import opened Wrappers

  /** Number of occurrences of x in s. */
  function Count<T(==)>(s: seq<T>, x: T): nat {
    multiset(s)[x]
  }

  /** No value occurs twice in s. */
  predicate NoDups<T(==)>(s: seq<T>) {
    forall i, j :: 0 <= i < j < |s| ==> s[i] != s[j]
  }

  /** a can be obtained from b by deleting elements (order is kept). */
  ghost predicate IsSubsequence<T>(a: seq<T>, b: seq<T>)
    decreases |b|
  {
    a == [] || (b != [] && ((a[0] == b[0] && IsSubsequence(a[1..], b[1..])) || IsSubsequence(a, b[1..])))
  }

  /** The elements of s for which keep holds, in their original order: a frame indexed by a boolean mask. */
  function Select<T>(s: seq<T>, keep: T -> bool): (r: seq<T>)
    ensures |r| <= |s|
    ensures forall x :: x in r ==> x in s && keep(x)
  {
    if s == [] then [] else (if keep(s[0]) then [s[0]] else []) + Select(s[1..], keep)
  }

  /** The non-missing entries of a column, in order (what pandas' reductions skip NaN down to). */
  function Present<T(!new)>(s: seq<Option<T>>): (r: seq<T>)
    ensures |r| <= |s|
    ensures forall x :: x in r <==> Some(x) in s
  {
    if s == [] then []
    else
      assert forall x :: Some(x) in s <==> Some(x) == s[0] || Some(x) in s[1..];
      (if s[0].Some? then [s[0].value] else []) + Present(s[1..])
  }

  /** Dropping missing values keeps each present value as often as it occurs, and nothing else. */
  lemma {:induction false} PresentCount<T(!new)>(s: seq<Option<T>>)
    ensures |Present(s)| == |s| - Count(s, None)
    ensures forall x :: Count(Present(s), x) == Count(s, Some(x))
  {
    if s != [] {
      PresentCount(s[1..]);
      assert s == [s[0]] + s[1..];
    }
  }

  /** Dropping missing values keeps the order: it distributes over concatenation. */
  lemma {:induction false} PresentAppend<T(!new)>(a: seq<Option<T>>, b: seq<Option<T>>)
    ensures Present(a + b) == Present(a) + Present(b)
  {
    if a == [] {
      assert a + b == b;
    } else {
      PresentAppend(a[1..], b);
      assert a + b == [a[0]] + (a[1..] + b);
      PresentCons(a[0], a[1..] + b);
      PresentCons(a[0], a[1..]);
      assert a == [a[0]] + a[1..];
    }
  }

  lemma PresentCons<T(!new)>(x: Option<T>, s: seq<Option<T>>)
    ensures Present([x] + s) == (if x.Some? then [x.value] else []) + Present(s)
  {
    assert ([x] + s)[1..] == s;
  }

  lemma {:induction false} SelectCount<T>(s: seq<T>, keep: T -> bool, x: T)
    ensures Count(Select(s, keep), x) == if keep(x) then Count(s, x) else 0
  {
    if s != [] {
      SelectCount(s[1..], keep, x);
      assert s == [s[0]] + s[1..];
    }
  }

  lemma {:induction false} SelectIsSubsequence<T>(s: seq<T>, keep: T -> bool)
    ensures IsSubsequence(Select(s, keep), s)
  {
    if s != [] {
      var rest := Select(s[1..], keep);
      SelectIsSubsequence(s[1..], keep);
      if keep(s[0]) {
        assert Select(s, keep) == [s[0]] + rest;
        assert ([s[0]] + rest)[1..] == rest;
      } else {
        assert Select(s, keep) == rest;
      }
    }
  }

  /** Selecting a second time with the same mask changes nothing. */
  lemma {:induction false} SelectIdempotent<T>(s: seq<T>, keep: T -> bool)
    ensures Select(Select(s, keep), keep) == Select(s, keep)
  {
    SelectKeepsAll(Select(s, keep), keep);
  }

  /** A selection in which every element passes returns the sequence unchanged. */
  lemma {:induction false} SelectKeepsAll<T>(s: seq<T>, keep: T -> bool)
    requires forall x :: x in s ==> keep(x)
    ensures Select(s, keep) == s
  {
    if s != [] {
      SelectKeepsAll(s[1..], keep);
    }
  }

  /** Two selections can be applied in either order. */
  lemma {:induction false} SelectCommutes<T>(s: seq<T>, p: T -> bool, q: T -> bool)
    ensures Select(Select(s, p), q) == Select(Select(s, q), p)
  {
    if s != [] {
      var x, tail := s[0], s[1..];
      SelectCommutes(tail, p, q);
      SelectPrepend(x, Select(tail, p), q);
      SelectPrepend(x, Select(tail, q), p);
      if p(x) {
        assert Select(Select(s, p), q) == (if q(x) then [x] else []) + Select(Select(tail, p), q);
      } else {
        assert Select(s, p) == Select(tail, p);
      }
      if q(x) {
        assert Select(Select(s, q), p) == (if p(x) then [x] else []) + Select(Select(tail, q), p);
      } else {
        assert Select(s, q) == Select(tail, q);
      }
    }
  }

  lemma SelectPrepend<T>(x: T, s: seq<T>, keep: T -> bool)
    ensures Select([x] + s, keep) == (if keep(x) then [x] else []) + Select(s, keep)
  {
    assert ([x] + s)[1..] == s;
  }

  lemma {:induction false} NoDupsAsMultiset<T>(s: seq<T>)
    ensures NoDups(s) <==> forall x :: multiset(s)[x] <= 1
  {
    if s != [] {
      NoDupsAsMultiset(s[1..]);
      assert s == [s[0]] + s[1..];
      assert multiset(s) == multiset{s[0]} + multiset(s[1..]);
      if NoDups(s) {
        assert NoDups(s[1..]);
        assert s[0] !in s[1..];
      } else {
        var i, j :| 0 <= i < j < |s| && s[i] == s[j];
        if i == 0 {
          assert s[j] in s[1..];
          assert multiset(s)[s[0]] > 1;
        } else {
          assert s[1..][i - 1] == s[1..][j - 1];
          assert !NoDups(s[1..]);
          var x :| multiset(s[1..])[x] > 1;
          assert multiset(s)[x] > 1;
        }
      }
    }
  }

  lemma {:induction false} SubsequenceOfSelf<T>(s: seq<T>)
    ensures IsSubsequence(s, s)
  {
    if s != [] {
      SubsequenceOfSelf(s[1..]);
    }
  }
}
