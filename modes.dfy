/**
 * `Series.mode()[0]`: pandas returns every most frequent value, sorted, so
 * element 0 is the least of the values tied for the highest count. A column
 * with no values has an empty mode series, and indexing it fails.
 */
module Modes {
  import opened Wrappers
  import opened Seqs
  import opened Ordering

  /** m is a most frequent value of s, and the least under lt among those tied with it. */
  ghost predicate IsLeastMode<T(!new)>(s: seq<T>, m: T, lt: (T, T) -> bool) {
    && m in s
    && (forall x :: x in s ==> Count(s, x) <= Count(s, m))
    && (forall x :: x in s && Count(s, x) == Count(s, m) && x != m ==> lt(m, x))
  }

  /** The best value of s, ranking values by their count in all and breaking ties by lt. */
  function Leader<T(==,!new)>(all: seq<T>, s: seq<T>, lt: (T, T) -> bool): (m: T)
    requires s != [] && StrictTotalOrder(lt)
    ensures m in s
    ensures forall x :: x in s ==> Count(all, x) <= Count(all, m)
    ensures forall x :: x in s && Count(all, x) == Count(all, m) && x != m ==> lt(m, x)
    decreases |s|
  {
    if |s| == 1 then s[0]
    else
      var m := Leader(all, s[1..], lt);
      assert forall x :: x in s ==> x == s[0] || x in s[1..];
      if Count(all, s[0]) > Count(all, m) || (Count(all, s[0]) == Count(all, m) && lt(s[0], m)) then s[0] else m
  }

  /** `column.mode()[0]` over the values of a column; fails when the column has no values. */
  function Mode<T(==,!new)>(s: seq<T>, lt: (T, T) -> bool): (r: Result<T>)
    requires StrictTotalOrder(lt)
    ensures r.Err? <==> s == []
    ensures r.Err? ==> r.error == NoMode
    ensures r.Ok? ==> IsLeastMode(s, r.value, lt)
  {
    if s == [] then Err(NoMode) else Ok(Leader(s, s, lt))
  }

  /** The least mode is determined by the data: no two values qualify. */
  lemma LeastModeUnique<T(!new)>(s: seq<T>, m: T, n: T, lt: (T, T) -> bool)
    requires StrictTotalOrder(lt)
    requires IsLeastMode(s, m, lt) && IsLeastMode(s, n, lt)
    ensures m == n
  {
  }

  /** The mode depends only on how often each value occurs, not on the row order. */
  lemma {:induction false} ModeIgnoresOrder<T(!new)>(s: seq<T>, t: seq<T>, lt: (T, T) -> bool)
    requires StrictTotalOrder(lt)
    requires multiset(s) == multiset(t)
    ensures Mode(s, lt) == Mode(t, lt)
  {
    if s != [] {
      assert |s| == |multiset(s)| == |multiset(t)| == |t|;
      var m := Mode(s, lt).value;
      forall x ensures x in s <==> x in t {
        assert x in s <==> x in multiset(s);
        assert x in t <==> x in multiset(t);
      }
      assert IsLeastMode(t, m, lt);
      LeastModeUnique(t, m, Mode(t, lt).value, lt);
    }
  }
}
