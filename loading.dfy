/**
 * `load_data` after the table is read: pick the city's table, then keep the
 * rows of the chosen month and of the chosen day of the week.
 */
module Loading {
  import opened Wrappers
  import opened Seqs
  import opened Trips

  /** `list.index`: the position of the first occurrence of x. */
  function IndexOf(s: seq<string>, x: string): (i: nat)
    requires x in s
    ensures i < |s| && s[i] == x
    ensures x !in s[..i]
  {
    if s[0] == x then 0
    else
      assert s == [s[0]] + s[1..];
      var i := IndexOf(s[1..], x);
      assert s[..i + 1] == [s[0]] + s[1..][..i];
      i + 1
  }

  /** The calendar number of a month name: its position in MONTHS plus one. */
  function MonthNumber(month: string): (r: Result<int>)
    ensures r.Ok? <==> month in MONTHS
    ensures r.Ok? ==> 1 <= r.value <= 6 && MONTHS[r.value - 1] == month
    ensures r.Err? ==> r.error == MonthNotListed(month)
  {
    if month in MONTHS then Ok(IndexOf(MONTHS, month) + 1) else Err(MonthNotListed(month))
  }

  function InMonth(n: int): Trip -> bool {
    (t: Trip) => t.month == n
  }

  function OnDay(day: string): Trip -> bool {
    (t: Trip) => Lower(t.dayName) == day
  }

  /** The month step: no change for "all", otherwise the rows whose month has that name's number. */
  function MonthFilter(rows: seq<Trip>, month: string): (r: Result<seq<Trip>>)
    ensures r.Ok? <==> month == "all" || month in MONTHS
    ensures r.Err? ==> r.error == MonthNotListed(month)
    ensures r.Ok? ==> |r.value| <= |rows|
    ensures r.Ok? ==> forall t :: t in r.value ==> t in rows && Wanted(t, month, "all")
  {
    if month == "all" then Ok(rows)
    else
      match MonthNumber(month)
      case Err(e) => Err(e)
      case Ok(n) => Ok(Select(rows, InMonth(n)))
  }

  /** The day step: no change for "all", otherwise the rows whose lower-cased day name is day. */
  function DayFilter(rows: seq<Trip>, day: string): (r: seq<Trip>)
    ensures |r| <= |rows|
    ensures forall t :: t in r ==> t in rows && Wanted(t, "all", day)
  {
    if day == "all" then rows else Select(rows, OnDay(day))
  }

  /** Which rows the filters of month and day are meant to keep, stated without the index lookup. */
  ghost predicate Wanted(t: Trip, month: string, day: string) {
    && (month == "all" || (1 <= t.month <= 6 && MONTHS[t.month - 1] == month))
    && (day == "all" || Lower(t.dayName) == day)
  }

  /**
   * `load_data(city, month, day)`, where read stands for reading the named
   * file and deriving the calendar fields. An unknown city fails first, then a
   * month name outside MONTHS; there is no partial result.
   */
  function LoadData(city: string, month: string, day: string, read: string -> Frame): (r: Result<Frame>)
    ensures r.Err? <==> !IsCityChoice(city) || (month != "all" && month !in MONTHS)
    ensures !IsCityChoice(city) ==> r == Err(UnknownCity(city))
    ensures IsCityChoice(city) && r.Err? ==> r == Err(MonthNotListed(month))
    ensures r.Ok? ==> var source := read(DATA_FILES[city]);
      r.value.hasGender == source.hasGender && r.value.hasBirthYear == source.hasBirthYear
  {
    if city !in DATA_FILES then Err(UnknownCity(city))
    else
      var source := read(DATA_FILES[city]);
      match MonthFilter(source.rows, month)
      case Err(e) => Err(e)
      case Ok(rows) => Ok(Frame(source.hasGender, source.hasBirthYear, DayFilter(rows, day)))
  }

  /** Every row passes the month filter as often as it occurs if it is wanted, never otherwise, in the original order. */
  lemma MonthFilterKeepsExactly(rows: seq<Trip>, month: string)
    requires month == "all" || month in MONTHS
    ensures MonthFilter(rows, month).Ok?
    ensures IsSubsequence(MonthFilter(rows, month).value, rows)
    ensures forall t :: Count(MonthFilter(rows, month).value, t) == if Wanted(t, month, "all") then Count(rows, t) else 0
  {
    if month == "all" {
      SubsequenceOfSelf(rows);
    } else {
      var n := MonthNumber(month).value;
      SelectIsSubsequence(rows, InMonth(n));
      forall t ensures Count(Select(rows, InMonth(n)), t) == if Wanted(t, month, "all") then Count(rows, t) else 0 {
        SelectCount(rows, InMonth(n), t);
        if 1 <= t.month <= 6 && MONTHS[t.month - 1] == month {
          assert t.month == n by {
            assert MONTHS[t.month - 1] == MONTHS[n - 1];
          }
        }
      }
    }
  }

  lemma DayFilterKeepsExactly(rows: seq<Trip>, day: string)
    ensures IsSubsequence(DayFilter(rows, day), rows)
    ensures forall t :: Count(DayFilter(rows, day), t) == if Wanted(t, "all", day) then Count(rows, t) else 0
  {
    if day == "all" {
      SubsequenceOfSelf(rows);
    } else {
      SelectIsSubsequence(rows, OnDay(day));
      forall t ensures Count(DayFilter(rows, day), t) == if Wanted(t, "all", day) then Count(rows, t) else 0 {
        SelectCount(rows, OnDay(day), t);
      }
    }
  }

  /** A successful load keeps exactly the wanted rows of the city's table, each as often as it occurs there, in table order. */
  lemma LoadDataKeepsExactly(city: string, month: string, day: string, read: string -> Frame)
    requires LoadData(city, month, day, read).Ok?
    ensures var rows := LoadData(city, month, day, read).value.rows;
      var source := read(DATA_FILES[city]).rows;
      && IsSubsequence(rows, source)
      && forall t :: Count(rows, t) == if Wanted(t, month, day) then Count(source, t) else 0
  {
    var source := read(DATA_FILES[city]).rows;
    MonthFilterKeepsExactly(source, month);
    var byMonth := MonthFilter(source, month).value;
    DayFilterKeepsExactly(byMonth, day);
    SubsequenceTransitive(DayFilter(byMonth, day), byMonth, source);
  }

  lemma {:induction false} SubsequenceTransitive<T>(a: seq<T>, b: seq<T>, c: seq<T>)
    requires IsSubsequence(a, b) && IsSubsequence(b, c)
    ensures IsSubsequence(a, c)
    decreases |c|
  {
    if a != [] {
      if IsSubsequence(b, c[1..]) {
        SubsequenceTransitive(a, b, c[1..]);
      } else if a[0] == b[0] && IsSubsequence(a[1..], b[1..]) {
        SubsequenceTransitive(a[1..], b[1..], c[1..]);
      } else {
        SubsequenceTransitive(a, b[1..], c[1..]);
      }
    }
  }

  /** With neither a month nor a day chosen, the city's table comes back as it was read. */
  lemma LoadAllIsIdentity(city: string, read: string -> Frame)
    requires IsCityChoice(city)
    ensures LoadData(city, "all", "all", read) == Ok(read(DATA_FILES[city]))
  {
  }

  /** Answers the prompts accept never make the load fail. */
  lemma PromptChoicesLoad(city: string, month: string, day: string, read: string -> Frame)
    requires IsCityChoice(city) && IsMonthChoice(month) && IsDayChoice(day)
    ensures LoadData(city, month, day, read).Ok?
  {
  }

  /** Filtering again by the same month changes nothing. */
  lemma MonthFilterIdempotent(rows: seq<Trip>, month: string)
    requires MonthFilter(rows, month).Ok?
    ensures MonthFilter(MonthFilter(rows, month).value, month) == MonthFilter(rows, month)
  {
    if month != "all" {
      SelectIdempotent(rows, InMonth(MonthNumber(month).value));
    }
  }

  /** Filtering again by the same day changes nothing. */
  lemma DayFilterIdempotent(rows: seq<Trip>, day: string)
    ensures DayFilter(DayFilter(rows, day), day) == DayFilter(rows, day)
  {
    if day != "all" {
      SelectIdempotent(rows, OnDay(day));
    }
  }

  /** The month and day filters give the same rows whichever runs first. */
  lemma FiltersCommute(rows: seq<Trip>, month: string, day: string)
    requires MonthFilter(rows, month).Ok?
    ensures MonthFilter(DayFilter(rows, day), month) == Ok(DayFilter(MonthFilter(rows, month).value, day))
  {
    if month != "all" && day != "all" {
      SelectCommutes(rows, InMonth(MonthNumber(month).value), OnDay(day));
    }
  }

  /** For rows with derived weekday names, filtering by a day name keeps exactly that weekday's rows. */
  lemma DayFilterSelectsWeekday(rows: seq<Trip>, i: nat)
    requires i < 7
    requires forall t :: t in rows ==> t.dayName in WEEKDAY_NAMES
    ensures forall t :: t in rows ==>
      Count(DayFilter(rows, DAYS[i]), t) == if t.dayName == WEEKDAY_NAMES[i] then Count(rows, t) else 0
  {
    var day := DAYS[i];
    assert day != "all" by {
      assert forall k :: 0 <= k < 7 ==> |DAYS[k]| >= 6;
    }
    var kept := Select(rows, OnDay(day));
    assert DayFilter(rows, day) == kept;
    forall t | t in rows
      ensures Count(kept, t) == if t.dayName == WEEKDAY_NAMES[i] then Count(rows, t) else 0
    {
      SelectCount(rows, OnDay(day), t);
      LowerIdentifiesWeekday(t.dayName, i);
    }
  }

  lemma LowerIdentifiesWeekday(name: string, i: nat)
    requires i < 7 && name in WEEKDAY_NAMES
    ensures Lower(name) == DAYS[i] <==> name == WEEKDAY_NAMES[i]
  {
    LowerWeekdayNames();
    DaysDistinct();
    var k :| 0 <= k < 7 && WEEKDAY_NAMES[k] == name;
    assert Lower(name) == DAYS[k];
    assert k != i ==> DAYS[k] != DAYS[i];
  }
}
