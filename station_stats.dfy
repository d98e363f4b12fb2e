/** `display_station_stats`: the most common start station, end station and trip. */
module StationStats {
  import opened Wrappers
  import opened Seqs
  import opened Ordering
  import opened Modes
  import opened Trips

  function StartColumn(rows: seq<Trip>): seq<string> {
    seq(|rows|, i requires 0 <= i < |rows| => rows[i].startStation)
  }

  function EndColumn(rows: seq<Trip>): seq<string> {
    seq(|rows|, i requires 0 <= i < |rows| => rows[i].endStation)
  }

  /** The (start station, end station) group key of every row. */
  function TripColumn(rows: seq<Trip>): seq<(string, string)> {
    seq(|rows|, i requires 0 <= i < |rows| => (rows[i].startStation, rows[i].endStation))
  }

  /**
   * `groupby([start, end]).size().idxmax()`: the groups come out sorted by key
   * and idxmax takes the first largest size, so the result is the largest
   * group with the least key among equally large ones.
   */
  function MostCommonTrip(rows: seq<Trip>): (r: Result<(string, string)>)
    ensures r.Err? <==> rows == []
    ensures r.Err? ==> r.error == NoMode
    ensures r.Ok? ==> IsLeastMode(TripColumn(rows), r.value, PairLess)
  {
    PairLessIsTotal();
    Mode(TripColumn(rows), PairLess)
  }

  datatype StationSummary = StationSummary(start: string, end: string, trip: (string, string))

  function StationStats(rows: seq<Trip>): (r: Result<StationSummary>)
    ensures r.Err? <==> rows == []
    ensures r.Err? ==> r.error == NoMode
    ensures r.Ok? ==> IsLeastMode(StartColumn(rows), r.value.start, StrLess)
    ensures r.Ok? ==> IsLeastMode(EndColumn(rows), r.value.end, StrLess)
    ensures r.Ok? ==> IsLeastMode(TripColumn(rows), r.value.trip, PairLess)
  {
    StrLessIsTotal();
    // The start-station mode comes first, so an empty table fails there.
    if rows == [] then Err(NoMode)
    else
      Ok(StationSummary(
        Mode(StartColumn(rows), StrLess).value,
        Mode(EndColumn(rows), StrLess).value,
        MostCommonTrip(rows).value))
  }

  /** The most common trip is a trip some row makes, and no route is made more often. */
  lemma MostCommonTripIsTaken(rows: seq<Trip>)
    requires rows != []
    ensures var (s, e) := MostCommonTrip(rows).value;
      && (exists i :: 0 <= i < |rows| && rows[i].startStation == s && rows[i].endStation == e)
      && forall t :: t in rows ==> Count(TripColumn(rows), (t.startStation, t.endStation)) <= Count(TripColumn(rows), (s, e))
  {
    var col := TripColumn(rows);
    var p := MostCommonTrip(rows).value;
    var k :| 0 <= k < |col| && col[k] == p;
    assert rows[k].startStation == p.0 && rows[k].endStation == p.1;
    forall t | t in rows ensures Count(col, (t.startStation, t.endStation)) <= Count(col, p) {
      var j :| 0 <= j < |rows| && rows[j] == t;
      assert col[j] == (t.startStation, t.endStation);
    }
  }
}
