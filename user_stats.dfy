/** `display_user_stats`: counts by user type and gender, and birth-year statistics. */
module UserStats {
  import opened Wrappers
  import opened Seqs
  import opened Ordering
  import opened Modes
  import opened Tallies
  import opened Trips

  function UserTypeColumn(rows: seq<Trip>): seq<string> {
    seq(|rows|, i requires 0 <= i < |rows| => rows[i].userType)
  }

  function GenderColumn(rows: seq<Trip>): seq<Option<string>> {
    seq(|rows|, i requires 0 <= i < |rows| => rows[i].gender)
  }

  function BirthYearColumn(rows: seq<Trip>): seq<Option<int>> {
    seq(|rows|, i requires 0 <= i < |rows| => rows[i].birthYear)
  }

  /** `min()` of a column with at least one value. */
  function Earliest(s: seq<int>): (m: int)
    requires s != []
    ensures m in s
    ensures forall x :: x in s ==> m <= x
  {
    if |s| == 1 then s[0]
    else
      var m := Earliest(s[1..]);
      assert forall x :: x in s ==> x == s[0] || x in s[1..];
      if s[0] <= m then s[0] else m
  }

  /** `max()` of a column with at least one value. */
  function MostRecent(s: seq<int>): (m: int)
    requires s != []
    ensures m in s
    ensures forall x :: x in s ==> x <= m
  {
    if |s| == 1 then s[0]
    else
      var m := MostRecent(s[1..]);
      assert forall x :: x in s ==> x == s[0] || x in s[1..];
      if s[0] >= m then s[0] else m
  }

  datatype BirthYears = BirthYears(earliest: int, mostRecent: int, mostCommon: int)

  /**
   * min, max and `mode()[0]` over the birth years that are present. With none
   * present min and max are NaN and the mode fails.
   */
  function BirthYearStats(years: seq<int>): (r: Result<BirthYears>)
    ensures r.Err? <==> years == []
    ensures r.Err? ==> r.error == NoMode
    ensures r.Ok? ==> r.value.earliest in years && forall y :: y in years ==> r.value.earliest <= y
    ensures r.Ok? ==> r.value.mostRecent in years && forall y :: y in years ==> y <= r.value.mostRecent
    ensures r.Ok? ==> IsLeastMode(years, r.value.mostCommon, IntLess)
    ensures r.Ok? ==> r.value.earliest <= r.value.mostCommon <= r.value.mostRecent
  {
    IntLessIsTotal();
    if years == [] then Err(NoMode)
    else Ok(BirthYears(Earliest(years), MostRecent(years), Mode(years, IntLess).value))
  }

  datatype UserSummary = UserSummary(
    userTypes: seq<Tally>,
    genders: Option<seq<Tally>>,
    birthYears: Option<BirthYears>)

  /**
   * Counts by user type always; counts by gender only when the table has a
   * Gender column; birth-year statistics only when it has a Birth Year column,
   * and then they fail if no row has a birth year. Missing values are left out
   * of the counts and of the birth-year statistics.
   */
  function UserStats(f: Frame): (r: Result<UserSummary>)
    ensures r.Err? <==> f.hasBirthYear && Present(BirthYearColumn(f.rows)) == []
    ensures r.Err? ==> r.error == NoMode
    ensures r.Ok? ==> r.value.userTypes == ValueCounts(UserTypeColumn(f.rows))
    ensures r.Ok? ==> Total(r.value.userTypes) == |f.rows|
    ensures r.Ok? ==> (r.value.genders.Some? <==> f.hasGender)
    ensures r.Ok? && f.hasGender ==> r.value.genders == Some(ValueCounts(Present(GenderColumn(f.rows))))
    ensures r.Ok? && f.hasGender ==> Total(r.value.genders.value) == |f.rows| - Count(GenderColumn(f.rows), None)
    ensures r.Ok? ==> (r.value.birthYears.Some? <==> f.hasBirthYear)
    ensures r.Ok? && f.hasBirthYear ==>
      r.value.birthYears == Some(BirthYearStats(Present(BirthYearColumn(f.rows))).value)
  {
    PresentCount(GenderColumn(f.rows));
    var userTypes := ValueCounts(UserTypeColumn(f.rows));
    var genders := if f.hasGender then Some(ValueCounts(Present(GenderColumn(f.rows)))) else None;
    if f.hasBirthYear then
      var years :- BirthYearStats(Present(BirthYearColumn(f.rows)));
      Ok(UserSummary(userTypes, genders, Some(years)))
    else
      Ok(UserSummary(userTypes, genders, None))
  }

  /**
   * Each user type's count is the number of rows of that type. The counts are
   * computed before the birth-year statistics, so this holds whether or not
   * those fail.
   */
  lemma UserTypeCountsExact(rows: seq<Trip>, i: nat)
    requires i < |ValueCounts(UserTypeColumn(rows))|
    ensures var t := ValueCounts(UserTypeColumn(rows))[i];
      t.count == |Select(rows, (row: Trip) => row.userType == t.value)|
  {
    var t := ValueCounts(UserTypeColumn(rows))[i];
    CountOfColumn(rows, t.value);
  }

  /** Each gender's count is the number of rows with that gender; rows without one are not counted. */
  lemma GenderCountsExact(rows: seq<Trip>, i: nat)
    requires i < |ValueCounts(Present(GenderColumn(rows)))|
    ensures var t := ValueCounts(Present(GenderColumn(rows)))[i];
      t.count == |Select(rows, (row: Trip) => row.gender == Some(t.value))|
  {
    var t := ValueCounts(Present(GenderColumn(rows)))[i];
    PresentCount(GenderColumn(rows));
    CountOfGenderColumn(rows, t.value);
  }

  /**
   * The birth-year statistics are about the rows: the earliest and most recent
   * years are some rows' birth years and bound every row's birth year, and the
   * most common year is the birth year of as many rows as any other year.
   */
  lemma BirthYearsOfRows(f: Frame)
    requires UserStats(f).Ok? && f.hasBirthYear
    ensures var b := UserStats(f).value.birthYears.value;
      && (exists row :: row in f.rows && row.birthYear == Some(b.earliest))
      && (exists row :: row in f.rows && row.birthYear == Some(b.mostRecent))
      && (forall row :: row in f.rows && row.birthYear.Some? ==>
            b.earliest <= row.birthYear.value <= b.mostRecent)
      && forall y :: Count(BirthYearColumn(f.rows), Some(y)) <= Count(BirthYearColumn(f.rows), Some(b.mostCommon))
  {
    var b := UserStats(f).value.birthYears.value;
    var col := BirthYearColumn(f.rows);
    var years := Present(col);
    PresentCount(col);
    ColumnHasRow(f.rows, b.earliest);
    ColumnHasRow(f.rows, b.mostRecent);
    forall row | row in f.rows && row.birthYear.Some?
      ensures b.earliest <= row.birthYear.value <= b.mostRecent
    {
      var k :| 0 <= k < |f.rows| && f.rows[k] == row;
      assert col[k] == row.birthYear;
      assert row.birthYear.value in years;
    }
    forall y ensures Count(col, Some(y)) <= Count(col, Some(b.mostCommon)) {
      assert Count(years, y) <= Count(years, b.mostCommon);
    }
  }

  /** A year in the birth-year column is some row's birth year. */
  lemma ColumnHasRow(rows: seq<Trip>, y: int)
    requires Some(y) in BirthYearColumn(rows)
    ensures exists row :: row in rows && row.birthYear == Some(y)
  {
    var k :| 0 <= k < |rows| && BirthYearColumn(rows)[k] == Some(y);
    assert rows[k] in rows;
  }

  /** The number of rows of a user type is the number of occurrences of the type in the column. */
  lemma {:induction false} CountOfColumn(rows: seq<Trip>, v: string)
    ensures Count(UserTypeColumn(rows), v) == |Select(rows, (row: Trip) => row.userType == v)|
  {
    if rows != [] {
      CountOfColumn(rows[1..], v);
      assert UserTypeColumn(rows) == [rows[0].userType] + UserTypeColumn(rows[1..]);
    }
  }

  /** The number of rows with a gender is the number of its occurrences in the column. */
  lemma {:induction false} CountOfGenderColumn(rows: seq<Trip>, v: string)
    ensures Count(GenderColumn(rows), Some(v)) == |Select(rows, (row: Trip) => row.gender == Some(v))|
  {
    if rows != [] {
      CountOfGenderColumn(rows[1..], v);
      assert GenderColumn(rows) == [rows[0].gender] + GenderColumn(rows[1..]);
    }
  }
}
