/** `display_time_stats`: the most common month, day of the week and start hour. */
module TimeStats {
  import opened Wrappers
  import opened Ordering
  import opened Modes
  import opened Trips
  import Loading

  function MonthColumn(rows: seq<Trip>): seq<int> {
    seq(|rows|, i requires 0 <= i < |rows| => rows[i].month)
  }

  function DayColumn(rows: seq<Trip>): seq<string> {
    seq(|rows|, i requires 0 <= i < |rows| => rows[i].dayName)
  }

  function HourColumn(rows: seq<Trip>): seq<int> {
    seq(|rows|, i requires 0 <= i < |rows| => rows[i].hour)
  }

  datatype TimeSummary = TimeSummary(month: int, day: string, hour: int)

  /**
   * Each field is `mode()[0]` of its column: the most frequent value, the
   * least one on a tie. The first mode of an empty table already fails.
   */
  function TimeStats(rows: seq<Trip>): (r: Result<TimeSummary>)
    ensures r.Err? <==> rows == []
    ensures r.Err? ==> r.error == NoMode
    ensures r.Ok? ==> IsLeastMode(MonthColumn(rows), r.value.month, IntLess)
    ensures r.Ok? ==> IsLeastMode(DayColumn(rows), r.value.day, StrLess)
    ensures r.Ok? ==> IsLeastMode(HourColumn(rows), r.value.hour, IntLess)
  {
    IntLessIsTotal();
    StrLessIsTotal();
    // The three columns have one entry per row, so they are empty together.
    if rows == [] then Err(NoMode)
    else
      Ok(TimeSummary(
        Mode(MonthColumn(rows), IntLess).value,
        Mode(DayColumn(rows), StrLess).value,
        Mode(HourColumn(rows), IntLess).value))
  }

  /** After a month filter, the most common month of what remains is that month. */
  lemma MonthFilterFixesMostCommonMonth(rows: seq<Trip>, month: string)
    requires month in MONTHS
    requires Loading.MonthFilter(rows, month).Ok? && Loading.MonthFilter(rows, month).value != []
    ensures TimeStats(Loading.MonthFilter(rows, month).value).Ok?
    ensures TimeStats(Loading.MonthFilter(rows, month).value).value.month == Loading.MonthNumber(month).value
  {
    var kept := Loading.MonthFilter(rows, month).value;
    var n := Loading.MonthNumber(month).value;
    var m := TimeStats(kept).value.month;
    assert m in MonthColumn(kept);
    var i :| 0 <= i < |kept| && MonthColumn(kept)[i] == m;
    assert kept[i] in kept;
  }
}
