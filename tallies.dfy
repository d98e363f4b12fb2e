/**
 * `Series.value_counts()`: one entry per distinct non-missing value with the
 * number of its occurrences, ordered by decreasing count.
 */
module Tallies {
  import opened Seqs

  datatype Tally = Tally(value: string, count: nat)

  /** The sum of the counts of a list of tallies. */
  function Total(ts: seq<Tally>): nat {
    if ts == [] then 0 else ts[0].count + Total(ts[1..])
  }

  predicate ByDecreasingCount(ts: seq<Tally>) {
    forall i, j :: 0 <= i < j < |ts| ==> ts[i].count >= ts[j].count
  }

  /** The distinct values of s in order of first occurrence. */
  function Distinct(s: seq<string>): (d: seq<string>)
    ensures NoDups(d)
    ensures forall x :: x in d <==> x in s
  {
    if s == [] then []
    else
      var d := Distinct(s[..|s| - 1]);
      var last := s[|s| - 1];
      assert s == s[..|s| - 1] + [last];
      if last in d then d else d + [last]
  }

  /** One tally per value of d, counting its occurrences in s. */
  function TalliesOf(d: seq<string>, s: seq<string>): seq<Tally> {
    if d == [] then [] else [Tally(d[0], Count(s, d[0]))] + TalliesOf(d[1..], s)
  }

  /** Inserts t in front of the first tally whose count is not larger, so equal counts keep their order. */
  function Insert(t: Tally, ts: seq<Tally>): seq<Tally> {
    if ts == [] || ts[0].count <= t.count then [t] + ts else [ts[0]] + Insert(t, ts[1..])
  }

  function SortByCount(ts: seq<Tally>): seq<Tally> {
    if ts == [] then [] else Insert(ts[0], SortByCount(ts[1..]))
  }

  /** `column.value_counts()` over the non-missing values s of a column. */
  function ValueCounts(s: seq<string>): (r: seq<Tally>)
    ensures forall i :: 0 <= i < |r| ==> r[i].value in s && r[i].count == Count(s, r[i].value)
    ensures forall x :: x in s ==> exists i :: 0 <= i < |r| && r[i].value == x
    ensures forall i, j :: 0 <= i < j < |r| ==> r[i].value != r[j].value
    ensures ByDecreasingCount(r)
    ensures Total(r) == |s|
  {
    var d := Distinct(s);
    SortedTallies(d, s);
    var r := SortByCount(TalliesOf(d, s));
    forall i | 0 <= i < |r| ensures r[i].value in s && r[i].count == Count(s, r[i].value) {
      assert r[i] in r;
    }
    forall x | x in s ensures exists i :: 0 <= i < |r| && r[i].value == x {
      assert Tally(x, Count(s, x)) in r;
      var i :| 0 <= i < |r| && r[i] == Tally(x, Count(s, x));
      assert r[i].value == x;
    }
    r
  }

  /** Sorting the tallies of the distinct values d keeps one correct tally per value. */
  lemma SortedTallies(d: seq<string>, s: seq<string>)
    requires NoDups(d)
    requires forall x :: x in s ==> x in d
    ensures forall t :: t in SortByCount(TalliesOf(d, s)) <==> t.value in d && t.count == Count(s, t.value)
    ensures forall i, j :: 0 <= i < j < |SortByCount(TalliesOf(d, s))| ==>
      SortByCount(TalliesOf(d, s))[i].value != SortByCount(TalliesOf(d, s))[j].value
    ensures ByDecreasingCount(SortByCount(TalliesOf(d, s)))
    ensures Total(SortByCount(TalliesOf(d, s))) == |s|
  {
    var ts := TalliesOf(d, s);
    TalliesOfFacts(d, s);
    TalliesOfTotal(d, s);
    SortByCountFacts(ts);
    SortByCountKeepsElements(ts);
    SortedCountsCorrect(ts, s);
    ValuesDistinct(SortByCount(ts), s);
  }

  lemma SortedCountsCorrect(ts: seq<Tally>, s: seq<string>)
    requires NoDups(ts)
    requires forall t :: t in ts ==> t.count == Count(s, t.value)
    ensures forall i :: 0 <= i < |SortByCount(ts)| ==> SortByCount(ts)[i].count == Count(s, SortByCount(ts)[i].value)
  {
    SortByCountKeepsElements(ts);
    var r := SortByCount(ts);
    forall i | 0 <= i < |r| ensures r[i].count == Count(s, r[i].value) {
      assert r[i] in r;
    }
  }

  /** Tallies that all count correctly and are pairwise different are about different values. */
  lemma ValuesDistinct(ts: seq<Tally>, s: seq<string>)
    requires NoDups(ts)
    requires forall i :: 0 <= i < |ts| ==> ts[i].count == Count(s, ts[i].value)
    ensures forall i, j :: 0 <= i < j < |ts| ==> ts[i].value != ts[j].value
  {
  }

  lemma SortByCountKeepsElements(ts: seq<Tally>)
    requires NoDups(ts)
    ensures forall t :: t in SortByCount(ts) <==> t in ts
    ensures NoDups(SortByCount(ts))
  {
    var r := SortByCount(ts);
    SortByCountFacts(ts);
    forall t: Tally ensures t in r <==> t in ts {
      assert t in r <==> t in multiset(r);
      assert t in ts <==> t in multiset(ts);
    }
    NoDupsAsMultiset(ts);
    NoDupsAsMultiset(r);
  }

  lemma {:induction false} TalliesOfFacts(d: seq<string>, s: seq<string>)
    requires NoDups(d)
    ensures |TalliesOf(d, s)| == |d|
    ensures forall i :: 0 <= i < |d| ==> TalliesOf(d, s)[i] == Tally(d[i], Count(s, d[i]))
    ensures NoDups(TalliesOf(d, s))
    ensures forall t :: t in TalliesOf(d, s) <==> t.value in d && t.count == Count(s, t.value)
  {
    if d != [] {
      TalliesOfFacts(d[1..], s);
      var ts := TalliesOf(d, s);
      assert forall i :: 0 < i < |d| ==> ts[i] == TalliesOf(d[1..], s)[i - 1];
      forall t ensures t in ts <==> t.value in d && t.count == Count(s, t.value) {
        if t.value in d && t.count == Count(s, t.value) {
          var k :| 0 <= k < |d| && d[k] == t.value;
          assert ts[k] == t;
        }
      }
    }
  }

  /** The counts of the distinct values of s add up to the length of s. */
  lemma {:induction false} TalliesOfTotal(d: seq<string>, s: seq<string>)
    requires NoDups(d)
    requires forall x :: x in s ==> x in d
    ensures Total(TalliesOf(d, s)) == |s|
  {
    if s == [] {
      TalliesOfEmpty(d);
    } else {
      var init, last := s[..|s| - 1], s[|s| - 1];
      assert s == init + [last];
      TalliesOfTotal(d, init);
      TalliesOfSnoc(d, init, last);
    }
  }

  lemma {:induction false} TalliesOfEmpty(d: seq<string>)
    ensures Total(TalliesOf(d, [])) == 0
  {
    if d != [] {
      TalliesOfEmpty(d[1..]);
    }
  }

  /** Appending one row adds one to the total when its value is among d (which holds each value once). */
  lemma {:induction false} TalliesOfSnoc(d: seq<string>, s: seq<string>, y: string)
    requires NoDups(d)
    ensures Total(TalliesOf(d, s + [y])) == Total(TalliesOf(d, s)) + (if y in d then 1 else 0)
  {
    if d != [] {
      assert NoDups(d[1..]);
      TalliesOfSnoc(d[1..], s, y);
      assert multiset(s + [y]) == multiset(s) + multiset{y};
      assert y in d <==> y == d[0] || y in d[1..];
      if y == d[0] {
        assert y !in d[1..];
      }
    }
  }

  /** A tally whose count is at least every count of a list sorted by decreasing count can head it. */
  lemma ConsByDecreasingCount(h: Tally, ts: seq<Tally>)
    requires ByDecreasingCount(ts)
    requires forall x :: x in ts ==> x.count <= h.count
    ensures ByDecreasingCount([h] + ts)
  {
    forall i, j | 0 <= i < j < |[h] + ts| ensures ([h] + ts)[i].count >= ([h] + ts)[j].count {
      if i == 0 {
        assert ([h] + ts)[j] in ts;
      } else {
        assert ([h] + ts)[i] == ts[i - 1] && ([h] + ts)[j] == ts[j - 1];
      }
    }
  }

  lemma {:induction false} InsertFacts(t: Tally, ts: seq<Tally>)
    requires ByDecreasingCount(ts)
    ensures ByDecreasingCount(Insert(t, ts))
    ensures multiset(Insert(t, ts)) == multiset(ts) + multiset{t}
    ensures Total(Insert(t, ts)) == t.count + Total(ts)
  {
    InsertMultiset(t, ts);
    InsertTotal(t, ts);
    InsertSorted(t, ts);
  }

  lemma {:induction false} InsertMultiset(t: Tally, ts: seq<Tally>)
    ensures multiset(Insert(t, ts)) == multiset(ts) + multiset{t}
  {
    if ts != [] && ts[0].count > t.count {
      InsertMultiset(t, ts[1..]);
      assert ts == [ts[0]] + ts[1..];
    }
  }

  lemma {:induction false} InsertTotal(t: Tally, ts: seq<Tally>)
    ensures Total(Insert(t, ts)) == t.count + Total(ts)
  {
    if ts != [] && ts[0].count > t.count {
      InsertTotal(t, ts[1..]);
      assert ([ts[0]] + Insert(t, ts[1..]))[1..] == Insert(t, ts[1..]);
    } else {
      assert ([t] + ts)[1..] == ts;
    }
  }

  lemma {:induction false} InsertSorted(t: Tally, ts: seq<Tally>)
    requires ByDecreasingCount(ts)
    ensures ByDecreasingCount(Insert(t, ts))
  {
    if ts != [] && ts[0].count > t.count {
      var rest := Insert(t, ts[1..]);
      InsertSorted(t, ts[1..]);
      InsertMultiset(t, ts[1..]);
      forall x | x in rest ensures x.count <= ts[0].count {
        assert x in multiset(rest);
        if x != t {
          assert x in multiset(ts[1..]);
          assert x in ts[1..];
        }
      }
      ConsByDecreasingCount(ts[0], rest);
    } else {
      ConsByDecreasingCount(t, ts);
    }
  }

  lemma {:induction false} SortByCountFacts(ts: seq<Tally>)
    ensures ByDecreasingCount(SortByCount(ts))
    ensures multiset(SortByCount(ts)) == multiset(ts)
    ensures Total(SortByCount(ts)) == Total(ts)
  {
    if ts != [] {
      SortByCountFacts(ts[1..]);
      InsertFacts(ts[0], SortByCount(ts[1..]));
      assert ts == [ts[0]] + ts[1..];
    }
  }
}
