/**
 * The orders pandas sorts column values by: numbers by value, strings
 * lexicographically by character (a proper prefix first), and group keys
 * made of two strings by the first string and then the second.
 */
module Ordering {

  ghost predicate StrictTotalOrder<T(!new)>(lt: (T, T) -> bool) {
    && (forall a :: !lt(a, a))
    && (forall a, b, c :: lt(a, b) && lt(b, c) ==> lt(a, c))
    && (forall a, b :: a == b || lt(a, b) || lt(b, a))
  }

  predicate IntLess(a: int, b: int) {
    a < b
  }

  predicate StrLess(a: string, b: string) {
    if a == [] then b != []
    else if b == [] then false
    else a[0] < b[0] || (a[0] == b[0] && StrLess(a[1..], b[1..]))
  }

  /** Order of (start station, end station) group keys. */
  predicate PairLess(p: (string, string), q: (string, string)) {
    StrLess(p.0, q.0) || (p.0 == q.0 && StrLess(p.1, q.1))
  }

  lemma IntLessIsTotal()
    ensures StrictTotalOrder(IntLess)
  {
  }

  lemma {:induction false} StrLessIrreflexive(a: string)
    ensures !StrLess(a, a)
  {
    if a != [] {
      StrLessIrreflexive(a[1..]);
    }
  }

  lemma {:induction false} StrLessTransitive(a: string, b: string, c: string)
    requires StrLess(a, b) && StrLess(b, c)
    ensures StrLess(a, c)
  {
    if a != [] && a[0] == b[0] && b[0] == c[0] {
      StrLessTransitive(a[1..], b[1..], c[1..]);
    }
  }

  lemma {:induction false} StrLessTrichotomous(a: string, b: string)
    ensures a == b || StrLess(a, b) || StrLess(b, a)
  {
    if a != [] && b != [] && a[0] == b[0] {
      StrLessTrichotomous(a[1..], b[1..]);
      if a[1..] == b[1..] {
        assert a == [a[0]] + a[1..] && b == [b[0]] + b[1..];
      }
    }
  }

  lemma StrLessIsTotal()
    ensures StrictTotalOrder(StrLess)
  {
    forall a | true ensures !StrLess(a, a) {
      StrLessIrreflexive(a);
    }
    forall a, b, c | StrLess(a, b) && StrLess(b, c) ensures StrLess(a, c) {
      StrLessTransitive(a, b, c);
    }
    forall a, b ensures a == b || StrLess(a, b) || StrLess(b, a) {
      StrLessTrichotomous(a, b);
    }
  }

  lemma PairLessIsTotal()
    ensures StrictTotalOrder(PairLess)
  {
    StrLessIsTotal();
  }
}
