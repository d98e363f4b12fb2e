/** `display_trip_duration_stats`: total and mean trip duration broken into clock units. */
module DurationStats {
  import opened Wrappers
  import opened Trips

  /** A number of seconds as whole hours, minutes and seconds. */
  datatype Clock = Clock(hours: nat, minutes: nat, seconds: nat)

  /** The number of seconds a clock reading stands for. */
  function Seconds(c: Clock): nat {
    c.hours * 3600 + c.minutes * 60 + c.seconds
  }

  /** `total // 3600`, `(total % 3600) // 60`, `total % 60`. */
  function SplitTotal(total: nat): (c: Clock)
    ensures Seconds(c) == total
    ensures c.minutes < 60 && c.seconds < 60
  {
    var c := Clock(total / 3600, (total % 3600) / 60, total % 60);
    assert total % 3600 == ((total % 3600) / 60) * 60 + total % 60;
    c
  }

  /** Splitting the seconds of a reading with minutes and seconds below 60 gives that reading back. */
  lemma SplitSeconds(c: Clock)
    requires c.minutes < 60 && c.seconds < 60
    ensures SplitTotal(Seconds(c)) == c
  {
    var total := Seconds(c);
    var m := c.minutes * 60 + c.seconds;
    DivModUnique(total, 3600, c.hours, m);
    DivModUnique(m, 60, c.minutes, c.seconds);
    DivModUnique(total, 60, c.hours * 60 + c.minutes, c.seconds);
  }

  /** Integer division and remainder are the only quotient and remainder with 0 <= r < d. */
  lemma DivModUnique(n: int, d: int, q: int, r: int)
    requires d > 0 && 0 <= r < d && n == q * d + r
    ensures n / d == q && n % d == r
  {
    var q', r' := n / d, n % d;
    assert n == q' * d + r';
    assert (q - q') * d == r' - r;
    if q > q' {
      MulAtLeast(q - q', d);
    } else if q < q' {
      MulAtLeast(q' - q, d);
    }
  }

  lemma {:induction false} MulAtLeast(k: int, d: int)
    requires k >= 1 && d > 0
    ensures k * d >= d
  {
    if k > 1 {
      MulAtLeast(k - 1, d);
      assert k * d == (k - 1) * d + d;
    }
  }

  /** A mean duration as whole minutes and seconds. */
  datatype MinSec = MinSec(minutes: nat, seconds: nat)

  /** `data['Trip Duration'].sum()`. */
  function TotalDuration(rows: seq<Trip>): (total: nat)
    ensures rows == [] ==> total == 0
    ensures |rows| == 1 ==> total == rows[0].duration
    ensures forall i :: 0 <= i < |rows| ==> rows[i].duration <= total
  {
    if rows == [] then 0 else rows[0].duration + TotalDuration(rows[1..])
  }

  /**
   * `int(mean // 60)` and `int(mean % 60)`. For non-negative durations both
   * only depend on the floor of the mean, total / count (see MeanSplitMatchesReals).
   * The mean of no durations is NaN, and int() of it fails.
   */
  function MeanSplit(rows: seq<Trip>): (r: Result<MinSec>)
    ensures r.Err? <==> rows == []
    ensures r.Err? ==> r.error == NoMean
    ensures r.Ok? ==> r.value.minutes * 60 + r.value.seconds == TotalDuration(rows) / |rows|
    ensures r.Ok? ==> r.value.seconds < 60
  {
    if rows == [] then Err(NoMean)
    else
      var mean := TotalDuration(rows) / |rows|;
      Ok(MinSec(mean / 60, mean % 60))
  }

  /**
   * With exact arithmetic on the mean m = total / count, `m // 60` and
   * `m % 60` (Python's floor division and remainder) truncate to the integer
   * minutes and seconds of the floor of m.
   */
  lemma MeanSplitMatchesReals(total: nat, count: nat)
    requires count > 0
    ensures var m := total as real / count as real;
      && (m / 60.0).Floor == (total / count) / 60
      && (m - 60.0 * ((m / 60.0).Floor as real)).Floor == (total / count) % 60
  {
    var m := total as real / count as real;
    var q := total / count;
    FloorOfQuotient(total, count);
    assert q as real <= m < q as real + 1.0;
    var a, b := q / 60, q % 60;
    assert q == 60 * a + b;
    assert a as real <= m / 60.0 < a as real + 1.0;
    assert (m / 60.0).Floor == a;
    assert (m - 60.0 * (a as real)).Floor == b by {
      assert b as real <= m - 60.0 * (a as real) < b as real + 1.0;
    }
  }

  /** The real quotient lies between the integer quotient and the next integer. */
  lemma FloorOfQuotient(total: nat, count: nat)
    requires count > 0
    ensures var q := total / count;
      q as real <= total as real / count as real < q as real + 1.0
  {
    var q, r := total / count, total % count;
    var c := count as real;
    var x := total as real / c;
    assert x * c == total as real;
    assert total == q * count + r;
    assert (q as real) * c + r as real == total as real;
    assert 0.0 <= r as real < c;
    if x < q as real {
      ScaleStrict(x, q as real, c);
    }
    if x >= q as real + 1.0 {
      ScaleWeak(q as real + 1.0, x, c);
    }
  }

  lemma ScaleStrict(a: real, b: real, c: real)
    requires a < b && c > 0.0
    ensures a * c < b * c
  {
  }

  lemma ScaleWeak(a: real, b: real, c: real)
    requires a <= b && c > 0.0
    ensures a * c <= b * c
  {
  }

  datatype DurationSummary = DurationSummary(total: Clock, mean: MinSec)

  function DurationStats(rows: seq<Trip>): (r: Result<DurationSummary>)
    ensures r.Err? <==> rows == []
    ensures r.Err? ==> r.error == NoMean
    ensures r.Ok? ==> Seconds(r.value.total) == TotalDuration(rows)
    ensures r.Ok? ==> r.value.total.minutes < 60 && r.value.total.seconds < 60
    ensures r.Ok? ==> r.value.mean.minutes * 60 + r.value.mean.seconds == TotalDuration(rows) / |rows|
    ensures r.Ok? ==> r.value.mean.seconds < 60
  {
    var mean :- MeanSplit(rows);
    Ok(DurationSummary(SplitTotal(TotalDuration(rows)), mean))
  }

  /** The total of two runs of rows is the sum of their totals. */
  lemma {:induction false} TotalDurationAppend(a: seq<Trip>, b: seq<Trip>)
    ensures TotalDuration(a + b) == TotalDuration(a) + TotalDuration(b)
  {
    if a != [] {
      TotalDurationAppend(a[1..], b);
      assert a + b == [a[0]] + (a[1..] + b);
    } else {
      assert a + b == b;
    }
  }
}
