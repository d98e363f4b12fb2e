/**
 * Trip records as the analysis sees them once a city's table is read and the
 * calendar fields are derived from each start time, and the fixed lists of
 * accepted cities, months and days.
 */
module Trips {
  import opened Wrappers

  /**
   * One row of a city's table. month (1..12), dayName ("Monday".."Sunday")
   * and hour (0..23) are derived from the start time.
   */
  datatype Trip = Trip(
    month: int,
    dayName: string,
    hour: int,
    startStation: string,
    endStation: string,
    userType: string,
    gender: Option<string>,
    birthYear: Option<int>,
    duration: nat)

  /** A loaded table: its rows, and whether the optional Gender and Birth Year columns exist. */
  datatype Frame = Frame(hasGender: bool, hasBirthYear: bool, rows: seq<Trip>)

  /** The supported cities and their source files. */
  const DATA_FILES: map<string, string> := map[
    "chicago" := "chicago.csv",
    "new york city" := "new_york_city.csv",
    "washington" := "washington.csv"]

  /** The month names a filter may name; month n of the year is entry n - 1. */
  const MONTHS: seq<string> := ["january", "february", "march", "april", "may", "june"]

  /** The day names a filter may name. */
  const DAYS: seq<string> := ["monday", "tuesday", "wednesday", "thursday", "friday", "saturday", "sunday"]

  /** The weekday names derived from a start time. */
  const WEEKDAY_NAMES: seq<string> := ["Monday", "Tuesday", "Wednesday", "Thursday", "Friday", "Saturday", "Sunday"]

  /** The answers the city prompt accepts: the keys of DATA_FILES. */
  function IsCityChoice(city: string): (b: bool)
    ensures b <==> city == "chicago" || city == "new york city" || city == "washington"
  {
    city in DATA_FILES
  }

  /** The answers the month prompt accepts: "all" or one of the months the month step can look up. */
  function IsMonthChoice(month: string): (b: bool)
    ensures b <==> month in ["all", "january", "february", "march", "april", "may", "june"]
  {
    month == "all" || month in MONTHS
  }

  /** The answers the day prompt accepts: "all" or a lower-cased weekday name. */
  function IsDayChoice(day: string): (b: bool)
    ensures b <==> day in ["all", "monday", "tuesday", "wednesday", "thursday", "friday", "saturday", "sunday"]
  {
    day == "all" || day in DAYS
  }

  function LowerChar(c: char): char {
    if 'A' <= c <= 'Z' then (c as int - 'A' as int + 'a' as int) as char else c
  }

  /** `str.lower()` restricted to ASCII letters, which is all the derived day names contain. */
  function Lower(s: string): (r: string)
    ensures |r| == |s|
    ensures forall i :: 0 <= i < |s| ==> r[i] == LowerChar(s[i])
  {
    if s == [] then [] else [LowerChar(s[0])] + Lower(s[1..])
  }

  /** Lower-casing a derived weekday name gives the day name a filter uses for it. */
  lemma {:induction false} LowerWeekdayNames()
    ensures forall i :: 0 <= i < 7 ==> Lower(WEEKDAY_NAMES[i]) == DAYS[i]
  {
    forall i | 0 <= i < 7 ensures Lower(WEEKDAY_NAMES[i]) == DAYS[i] {
      var w, d := WEEKDAY_NAMES[i], DAYS[i];
      assert |w| == |d| && forall k :: 0 <= k < |w| ==> LowerChar(w[k]) == d[k];
    }
  }

  /** The day names are pairwise different (their first letter and length tell them apart). */
  lemma DaysDistinct()
    ensures forall a, b :: 0 <= a < b < 7 ==> DAYS[a] != DAYS[b]
  {
    assert forall k :: 0 <= k < 7 ==> DAYS[k][0] == "mtwtfss"[k] && |DAYS[k]| == [6, 7, 9, 8, 6, 8, 6][k];
  }
}
