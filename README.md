# US bikeshare analysis — Dafny model

This project models the analysis core of `bikeshare.py`. The script loads the
trip table of one of three cities and keeps the trips of a chosen month
(January to June) and day of the week. It then reports:

- the most common month, weekday and start hour;
- the most common start station, end station and trip;
- the total and mean trip duration;
- the counts by user type and gender, and the earliest, latest and most common
  birth year;
- the raw rows, five at a time.

A table is a sequence of `Trip` records. The calendar fields (`month`,
`dayName`, `hour`) are already derived in each record. A `Frame` adds two
flags that say whether the optional Gender and Birth Year columns exist. Each
pandas reduction is a Dafny function over these sequences:

- A boolean-mask selection is `Seqs.Select`.
- `mode()[0]` is `Modes.Mode`: the most frequent value, and the least of the
  tied values. This is because pandas sorts the modes.
- `groupby(...).size().idxmax()` is `StationStats.MostCommonTrip`.
- `value_counts()` is `Tallies.ValueCounts`.
- Missing values (NaN) are `None`, and `Seqs.Present` drops them.
- Each exception the modelled steps raise is an `Err` of `Wrappers.Result`.

Files, one module each:
- `wrappers.dfy`: `Option`, `Result` and the failures.
- `seqs.dfy`: counting, mask selection, subsequences.
- `ordering.dfy`: the sort orders of numbers, strings and station pairs.
- `modes.dfy`: `mode()[0]`.
- `tallies.dfy`: `value_counts()`.
- `trips.dfy`: the record type and the fixed city, month and day lists.
- `loading.dfy`: `load_data`.
- `time_stats.dfy`, `station_stats.dfy`, `duration_stats.dfy`, `user_stats.dfy`: the four report functions.
- `raw_display.dfy`: the paging loop.

Behaviours of the code that the model keeps:

- **Ties in a mode.** The code takes `mode()[0]`, and pandas returns the
  modes sorted. So a tie goes to the least tied value: the smallest number,
  or the first string in lexicographic order.
- **Ties in the most common trip.** The groupby keys come out sorted, and
  `idxmax` takes the first maximum. So a tie goes to the lexicographically
  least (start, end) pair.
- **Unknown day names.** The code does not check the day name: an unknown
  day name selects no rows.
- **Unknown month names.** An unknown month name fails through `list.index`.

## Model

| member | source | states |
|---|---|---|
| `Seqs.Select` | bikeshare.py:71 | a boolean-mask selection keeps at most the input's rows, and every row it keeps passes the mask |
| `Seqs.SelectCount` | bikeshare.py:71 | a selected row appears exactly as often as in the input if it passes the mask, and not at all otherwise |
| `Seqs.SelectIsSubsequence` | bikeshare.py:74 | a selection keeps the original row order (it is a subsequence) |
| `Seqs.Present` | bikeshare.py:136 | dropping missing values keeps the values that were present and no others |
| `Seqs.PresentCount` | bikeshare.py:136 | dropping missing values keeps each present value exactly as often as it occurs; the result is as long as the number of non-missing entries |
| `Seqs.PresentAppend` | bikeshare.py:141 | dropping missing values keeps the order of the column: it distributes over concatenation |
| `Ordering.StrLessIsTotal` | bikeshare.py:86 | the lexicographic order of strings used to sort modes is a strict total order |
| `Ordering.PairLessIsTotal` | bikeshare.py:105 | the order of (start, end) group keys is a strict total order |
| `Modes.Leader` | bikeshare.py:83 | the chosen value occurs, no value occurs more often, and it is the least of the values tied with it |
| `Modes.Mode` | bikeshare.py:83 | `mode()[0]` fails exactly on an empty column; otherwise it is the most frequent value, the least one on a tie |
| `Modes.LeastModeUnique` | bikeshare.py:83 | only one value can be the most frequent and also least among its ties |
| `Modes.ModeIgnoresOrder` | bikeshare.py:83 | the mode depends only on how often each value occurs, not on the row order |
| `Tallies.Distinct` | bikeshare.py:131 | the distinct values of a column, each once, and no others |
| `Tallies.ValueCounts` | bikeshare.py:131 | each listed value occurs in the column with its exact count; every value in the column is listed, once; counts do not increase down the list; the counts add up to the column length |
| `Tallies.TalliesOfTotal` | bikeshare.py:131 | the occurrence counts of the distinct values add up to the number of entries |
| `Trips.IsCityChoice` | bikeshare.py:27 | the city prompt accepts exactly "chicago", "new york city" and "washington", the keys of the file map |
| `Trips.IsMonthChoice` | bikeshare.py:32-34 | the month prompt accepts exactly "all" and the six month names, which are the names the month step can look up |
| `Trips.IsDayChoice` | bikeshare.py:39-41 | the day prompt accepts exactly "all" and the seven lower-case day names |
| `Trips.Lower` | bikeshare.py:74 | lower-casing keeps the length and lower-cases each letter |
| `Trips.LowerWeekdayNames` | bikeshare.py:74 | the lower-cased derived weekday names are the day names the prompt accepts |
| `Trips.DaysDistinct` | bikeshare.py:39 | the accepted day names are pairwise different |
| `Loading.IndexOf` | bikeshare.py:70 | `list.index` returns the first position that holds the value |
| `Loading.MonthNumber` | bikeshare.py:70 | a month name maps to 1..6, and MONTHS holds that name at that number minus one; any other name fails with the `list.index` error |
| `Loading.LoadData` | bikeshare.py:50-76 | fails exactly for an unknown city (failing first) or a month name outside the list; otherwise the Gender and Birth Year columns are those of the city's table |
| `Loading.MonthFilter` | bikeshare.py:69-71 | the month step fails exactly for a name other than "all" and the six months, with the `list.index` error; otherwise it keeps only rows of the table that are in the chosen month (MonthFilterKeepsExactly states how often) |
| `Loading.DayFilter` | bikeshare.py:73-74 | the day step keeps only rows of the table whose lower-cased day name is the chosen day, or all rows for "all" (DayFilterKeepsExactly states how often) |
| `Loading.MonthFilterKeepsExactly` | bikeshare.py:69-71 | the month step keeps each row of the chosen month as often as it occurs, drops all others and keeps the order; "all" keeps everything |
| `Loading.DayFilterKeepsExactly` | bikeshare.py:73-74 | the day step keeps each row whose lower-cased day name is the chosen day, drops all others and keeps the order |
| `Loading.LoadDataKeepsExactly` | bikeshare.py:63-76 | a successful load gives a subsequence of the city's table that contains each row satisfying both filters as often as in the table, and no other row |
| `Loading.LoadAllIsIdentity` | bikeshare.py:69-76 | with month and day both "all", the city's table is returned unchanged |
| `Loading.PromptChoicesLoad` | bikeshare.py:27-41 | any city, month and day the prompts accept loads without failing |
| `Loading.MonthFilterIdempotent` | bikeshare.py:69-71 | applying the same month filter again changes nothing |
| `Loading.DayFilterIdempotent` | bikeshare.py:73-74 | applying the same day filter again changes nothing |
| `Loading.FiltersCommute` | bikeshare.py:69-74 | the month filter and the day filter give the same rows in either order |
| `Loading.DayFilterSelectsWeekday` | bikeshare.py:67-74 | for rows with derived weekday names, a day filter keeps exactly the rows of that weekday |
| `TimeStats.TimeStats` | bikeshare.py:79-91 | fails exactly on an empty table; otherwise month, day and hour are each the most common value of their column, the least one on a tie |
| `TimeStats.MonthFilterFixesMostCommonMonth` | bikeshare.py:83 | after a month filter that keeps some rows, the most common month is that month's number |
| `StationStats.MostCommonTrip` | bikeshare.py:105 | the (start, end) pair made most often, the least pair on a tie; fails with `NoMode` exactly on an empty table |
| `StationStats.StationStats` | bikeshare.py:95-106 | fails exactly on an empty table; otherwise the start station, end station and trip are each the least most-frequent value of their column |
| `StationStats.MostCommonTripIsTaken` | bikeshare.py:105 | some row makes the most common trip, and no row's trip is made more often |
| `DurationStats.TotalDuration` | bikeshare.py:114 | the duration sum is 0 for no rows, the row's duration for one row, and at least every row's duration (TotalDurationAppend states that it adds up over runs of rows) |
| `DurationStats.SplitTotal` | bikeshare.py:114-117 | hours*3600 + minutes*60 + seconds equals the total, with minutes and seconds below 60 |
| `DurationStats.SplitSeconds` | bikeshare.py:114-117 | splitting the seconds of a reading with minutes and seconds below 60 gives the same reading back |
| `DurationStats.MeanSplit` | bikeshare.py:120-122 | fails exactly on an empty table; otherwise minutes*60 + seconds is the floor of the mean, with seconds below 60 |
| `DurationStats.MeanSplitMatchesReals` | bikeshare.py:121-122 | with exact arithmetic, `int(mean // 60)` and `int(mean % 60)` equal floor(total/count) div 60 and mod 60 |
| `DurationStats.DurationStats` | bikeshare.py:110-124 | fails exactly on an empty table, through the NaN mean; otherwise the total reading stands for the duration sum with minutes and seconds below 60, and the mean reading for the floor of the mean with seconds below 60 |
| `DurationStats.TotalDurationAppend` | bikeshare.py:114 | the duration sum of two runs of rows is the sum of their duration sums |
| `UserStats.Earliest` | bikeshare.py:141 | `min()` is a value of the column and no larger than any of them |
| `UserStats.MostRecent` | bikeshare.py:142 | `max()` is a value of the column and no smaller than any of them |
| `UserStats.BirthYearStats` | bikeshare.py:140-143 | fails exactly when no birth year is present; otherwise earliest <= most common <= most recent, each is a present year, and most common is the least most-frequent year |
| `UserStats.UserStats` | bikeshare.py:127-148 | the user-type counts are the value counts of the User Type column and add up to the number of rows; gender counts exist exactly when the Gender column does, are the value counts of the present genders and add up to the number of rows with a gender; birth-year statistics exist exactly when the Birth Year column does and are min, max and mode of the present years; fails with the mode error exactly when that column exists with no values |
| `UserStats.UserTypeCountsExact` | bikeshare.py:131 | each user-type count is the number of rows with that user type, whether or not the later birth-year statistics fail |
| `UserStats.GenderCountsExact` | bikeshare.py:136 | each gender count is the number of rows with that gender; rows without a gender are not counted |
| `UserStats.BirthYearsOfRows` | bikeshare.py:140-143 | the earliest and most recent years are rows' birth years and bound every row's birth year; no year is the birth year of more rows than the most common one |
| `RawDisplay.Page` | bikeshare.py:158 | a page holds at most five rows, is empty past the end and is full while five rows remain |
| `RawDisplay.PagesTile` | bikeshare.py:154-159 | the first k pages together are the first 5k rows, or the whole table once it runs out |
| `RawDisplay.RawDataDisplay` | bikeshare.py:151-163 | the pages shown are the first k pages, where k is the number of "yes" answers before the first "no"; together they are the first 5k rows |

## Left out

- The interactive prompts of `get_inputs` (bikeshare.py:14-47) are terminal I/O. Only their acceptance tests are modelled, as `Trips.IsCityChoice`, `Trips.IsMonthChoice` and `Trips.IsDayChoice`.
- The restart loop of `main` (bikeshare.py:166-182) is terminal I/O. So are `logging` and all `print` formatting.
- Reading the CSV file and parsing the start times (bikeshare.py:63-67) are file I/O and calendar arithmetic in pandas. `Loading.LoadData` takes them as a parameter `read` that maps a file name to an already-derived `Frame`.
- `Loading.LoadData` does not model the failures of reading and parsing: a missing or unreadable file (bikeshare.py:63) and an unparseable start time (bikeshare.py:65) raise in the script, but `read` is total.
- The `hour` column that `display_time_stats` adds to its argument (bikeshare.py:89) is not modelled as an in-place change. The hour is a field of every record from the start.
- `DurationStats.MeanSplit` uses exact integer arithmetic. It does not model floating-point rounding of the mean, and `DurationStats.MeanSplitMatchesReals` holds for exact reals only.
- `DurationStats.TotalDuration` uses unbounded integers. It does not model 64-bit overflow of the sum.
- `Tallies.ValueCounts` does not fix the order of entries with equal counts, because pandas does not document it. The model happens to list them in order of first occurrence.
- `Trips.Lower` lower-cases ASCII letters only. The derived weekday names contain nothing else.
- Missing values in the User Type, station and day columns are not modelled. Those fields are always present strings.
- `RawDisplay.RawDataDisplay` gets the user's answers in advance. When the answers run out before a "no", it stops; the script would wait for more input.
- `StationStats.MostCommonTrip` reports an empty table as `NoMode`. In the script, the start-station mode fails first, so the `idxmax` error is never reached.
