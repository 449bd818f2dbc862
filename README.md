# US Bikeshare explorer, modelled in Dafny

`bikeshare.py` is an interactive console script. It asks for a city, a month
(`all` or january to june) and a weekday (`all` or monday to sunday). It loads
that city's trip table and filters it by month and day. It then prints four
groups of statistics: most frequent travel times, most popular stations and
route, the "total travel time" (the longest trip), and user counts and birth
years. It can page through the rows five at a time and offers to start again.

This project models that script:

- `wrappers.dfy` (`Wrappers`): Option and Result.
- `text.dfy` (`Text`): `str.lower()` and `str.title()` over ASCII letters.
- `console.dfy` (`Console`): the first answer from a position on that a
  prompt accepts, which is where a `while True` prompt loop stops.
- `counting.dfy` (`Counting`): the pandas column aggregates the reporters use.
  These are occurrence counts, a most frequent value (`mode()[0]`,
  `value_counts().idxmax()`), all modes (`mode()`), max, min and
  `value_counts()`. Missing values are `None` and are skipped.
- `trips.dfy` (`Trips`): the trip record and the table. Also the month
  ordinal (`months.index(month) + 1`), the boolean row filter `df[mask]` and
  the filter step of `load_data`.
- `reports.dfy` (`Reports`): `time_stats`, `station_stats`, the "total travel
  time" of `trip_duration_stats`, and `user_stats`, as functions from a table
  to what they print.
- `prompts.dfy` (`Prompts`): the three validation loops of `get_filters`, as
  methods with `while` loops over a sequence of answer lines.
- `pager.dfy` (`Pager`): `display_data`, a loop that moves `start_loc` on by
  five per window.
- `session.dfy` (`Session`): `main`, a loop of rounds that restarts only on
  "yes".

Console input is a sequence of answer strings plus a cursor into it. When the
answers run out, which is where Python's `input()` raises `EOFError`, the loop
ends with an explicit "input exhausted" outcome. Reading a CSV file is a
lookup in a map from file name to the table read from it. The derived
`month`, `day_of_week` and `hour` columns are fields of each record.

The model follows the code as written:

- The pager does not stop at the end of the table. After a first "yes", it
  keeps printing windows until a continue answer lower-cases to exactly "no".
  Windows past the end are empty.
- On a table with no rows, `time_stats` raises, because `mode()[0]` indexes an
  empty series. The session then ends with `EmptyTable` and the other
  reporters never run. The reporters are not guarded against empty input.
- "Total travel time" is the maximum trip duration, not a sum, exactly as
  written.
- `mode()`, `idxmax` and `sort_values` break ties in library-defined ways.
  The model states only that the value reported has maximal count.

## Model

| member | source | states |
|---|---|---|
| `Text.Lower` | bikeshare.py:22 | Lower-casing keeps the length. Each upper-case letter becomes the lower-case letter of which it is the upper-case form, and every other character is kept. No upper-case letter remains. |
| `Text.LowerIdempotent` | bikeshare.py:22 | Lower-casing an already lower-cased answer changes nothing. |
| `Text.TitleFrom` | bikeshare.py:72 | Each character is title-cased according to whether the character before it is cased. The first character uses the given state. The length is kept. |
| `Text.Title` | bikeshare.py:72 | `title()` keeps non-letters. It upper-cases a letter at the start or after a non-letter, and lower-cases a letter after a letter. The length is kept. |
| `Text.TitleOfLowerWord` | bikeshare.py:72 | For a non-empty lower-case word, `title()` upper-cases the first letter and keeps the rest. |
| `Console.FirstAccepted` | bikeshare.py:21-27 | The first answer from a position on whose lower-case form is accepted. Every answer before it is rejected. It is None exactly when no answer from there on is accepted. |
| `Console.FirstAcceptedNoLater` | bikeshare.py:21-27 | If any answer from a position on is accepted, the prompt stops at it or at an earlier accepted answer. |
| `Prompts.Ask` | bikeshare.py:21-27 | One validation loop returns the lower-cased first accepted answer and the position after it. Every earlier answer was rejected, and there is no retry limit. If the answers run out, the result is None with all input read. The result agrees with `FirstAccepted`. |
| `Prompts.FirstOfEach` | bikeshare.py:21-43 | The city answer is the first accepted from the start. The month answer is the first accepted after it, and the day answer the first accepted after that. |
| `Prompts.FirstOfEachFromSteps` | bikeshare.py:21-43 | The three prompts, asked one after another, give exactly `FirstOfEach`. |
| `Prompts.InOrderFound` | bikeshare.py:21-43 | If an acceptable city, month and day answer occur in that order, the three loops all end with an answer. |
| `Prompts.FoundInOrder` | bikeshare.py:21-43 | The answers the three loops stop at are acceptable and in order. |
| `Prompts.FirstOfEachNoneIff` | bikeshare.py:21-43 | The three loops run out of input exactly when no acceptable city, month and day answers occur in order. |
| `Prompts.AskInTurn` | bikeshare.py:21-43 | The three loops in turn return the lower-cased answers at the `FirstOfEach` positions, and reading stops right after the third. When they return None, all input was read and no acceptable answers occur in order. |
| `Prompts.GetFilters` | bikeshare.py:9-46 | The returned city, month and day form a valid selection. They are the lower-cased first acceptable answers in turn, and reading stops right after the day answer. The result is None exactly when no acceptable answers occur in order, and then all input was read. |
| `Trips.IndexOf` | bikeshare.py:68 | `list.index` gives the first position holding the value. It is None exactly when the value is absent, which is where Python raises. |
| `Trips.MonthOrdinal` | bikeshare.py:67-68 | A month name maps to an ordinal in 1..6, and `MONTHS[ordinal - 1]` is that name. Any other text has no ordinal. |
| `Trips.Filter` | bikeshare.py:69 | The row selection keeps exactly the rows that satisfy the mask, each as many times as it occurs in the table, and drops the others. It never grows the table. |
| `Trips.FilterIsSubsequence` | bikeshare.py:69 | The filtered rows are an order-preserving subsequence of the table. |
| `Trips.FilterTwice` | bikeshare.py:69-72 | Filtering by one mask and then another equals filtering once by their conjunction. |
| `Trips.FilterIdempotent` | bikeshare.py:69 | Filtering again by the same mask changes nothing. |
| `Trips.FilterKeepsAll` | bikeshare.py:66-72 | A mask that every row passes leaves the table unchanged. |
| `Trips.SelectIsConjunction` | bikeshare.py:66-72 | The month step followed by the day step is one filter by the conjunction of the month and day conditions. |
| `Trips.LoadData` | bikeshare.py:48-74 | The only error is a month that is neither "all" nor a known name. "all"/"all" returns the table unchanged. Otherwise the result is a subsequence with the same columns. Every kept row has the requested month ordinal and the title-cased day. A row is kept exactly when it matches both conditions, as many times as it occurs in the table. |
| `Trips.LoadDataIsFilter` | bikeshare.py:66-72 | The rows `load_data` returns are the table filtered by the mask "matches the month and the day". |
| `Trips.LoadDataIdempotent` | bikeshare.py:66-72 | Filtering the filtered table again with the same month and day returns the same table. |
| `Trips.WeekdayTitles` | bikeshare.py:63-72 | For each weekday accepted at the prompt, `day.title()` is the weekday name pandas derives, Monday to Sunday. |
| `Counting.MostCommon` | bikeshare.py:83 | A mode of a non-empty column occurs in the column, and no value occurs more often. An empty column has none. |
| `Counting.MostCommonIsAMode` | bikeshare.py:83 | The value `mode()[0]` reports is one of the values `mode()` lists. |
| `Counting.Modes` | bikeshare.py:152 | `mode()` holds exactly the values of the column that no value outnumbers. It is empty exactly when the column is. |
| `Counting.Max` | bikeshare.py:151 | The maximum is an element of the column and is at least every element. |
| `Counting.Min` | bikeshare.py:150 | The minimum is an element of the column and is at most every element. |
| `Counting.Present` | bikeshare.py:139 | Each value occurs among the non-missing entries as many times as the column holds it, and missing entries are dropped. |
| `Counting.ValueCounts` | bikeshare.py:139-143 | Each distinct non-missing value has exactly one entry, holding its number of occurrences, which is positive. Every value present has an entry. The counts sum to the number of non-missing entries. |
| `Reports.TimeStats` | bikeshare.py:83-89 | The reported month, weekday and hour each occur in their column, and no value of that column occurs more often. The result is None exactly for an empty table, where `mode()[0]` raises. |
| `Reports.StationStats` | bikeshare.py:102-109 | The start station and the end station each have a count at least that of every other station in their column. The (start, end) pair has a joint count at least that of every pair. The result is None exactly for an empty table. |
| `Reports.TotalTravelTime` | bikeshare.py:122 | The "total travel time" is at least every trip's duration and equals some trip's duration. It is None exactly for an empty table. |
| `Reports.BirthYearStats` | bikeshare.py:148-152 | The earliest and latest years are given years bounding all given years, and are None when no year is given. The modal years are exactly the given years that none outnumbers, and they lie between the earliest and the latest. |
| `Reports.UserStats` | bikeshare.py:139-154 | The user-type counts are the value counts of User Type. Gender counts exist exactly when the table has a Gender column, and are then its value counts. Birth-year figures exist exactly when the table has a Birth Year column, with the earliest, latest and modal years as `BirthYearStats` states. |
| `Pager.Window` | bikeshare.py:164 | `df.iloc[start:start+5]` has at most five rows. Row i of the window is row `start + i`, and the window is empty past the end of the table. |
| `Pager.WindowsOf` | bikeshare.py:162-165 | Windows that each start at row 5k are exactly the pager's first windows of the table. |
| `Pager.PagesArePrefix` | bikeshare.py:162-165 | When the k-th window starts at row 5k, the windows shown so far are the table's first rows, in order, with none skipped or repeated. |
| `Pager.DisplayData` | bikeshare.py:160-168 | Window k is rows [5k, 5k+5) of the table. Nothing is shown unless the first answer is "yes". Paging continues while the continue answers are not "no" and stops right after the first "no". If input runs out first, that is reported. The windows and the reading position agree with `PagerReads`. |
| `Session.Summarize` | bikeshare.py:175-178 | The four reports of a table exist exactly when it has rows. Month, weekday, hour, start station, end station and route each have maximal count. The "total travel time" bounds every duration and is one of them. The user report is as `UserStats` states. |
| `Session.CityDataCoversCities` | bikeshare.py:5-7 | Every city the prompt accepts has a file in `CITY_DATA`, and no other city does. |
| `Session.ValidSelectionLoads` | bikeshare.py:66-68 | For any month the prompt accepts, `load_data` does not raise. |
| `Session.PlayRound` | bikeshare.py:171-183 | A round is recorded only for the selection `get_filters` gives, when its file exists and its filtered table has rows. It is faithful: the selection is valid, the table is what `load_data` returns, and the windows are the pager's windows of that table. Its restart answer is the answer after the pager's. The session goes on exactly on "yes" and finishes exactly on another answer. Running out of input, a missing file and an empty table each end it with that reason. |
| `Session.FaithfulRound` | bikeshare.py:172-179 | A valid selection, its loaded non-empty table and the pager's windows of it form a faithful round. |
| `Session.RoundRunsOut` | bikeshare.py:179-181 | A complete round whose input ran out in the pager or before the restart answer ends the session with input exhausted. |
| `Session.RoundAnswered` | bikeshare.py:181-183 | A complete round followed by a restart answer goes on exactly when that answer lower-cases to "yes", and finishes otherwise. |
| `Session.RoundOutcome` | bikeshare.py:171-183 | A recorded round is faithful. The session goes on after it exactly on "yes" and finishes exactly on another restart answer. Running out of input means all answers were read. |
| `Session.ChainExtend` | bikeshare.py:171-183 | A round that went on with "yes" is followed by one that begins where it stopped reading. |
| `Session.ChainKeep` | bikeshare.py:171-183 | Recording the last round leaves every earlier link of the session as it was. |
| `Session.SessionStep` | bikeshare.py:171-183 | One pass of the loop either extends the session at a later answer position or is its last round. |
| `Session.ChainRounds` | bikeshare.py:171-183 | Every round before the last is faithful and went on with "yes". |
| `Session.LastRoundOutcome` | bikeshare.py:171-183 | The last round is faithful when it was complete. The session finished normally exactly when its restart answer was not "yes". |
| `Session.SessionRoundsFaithful` | bikeshare.py:171-183 | All recorded rounds of a session are faithful to their selections. |
| `Session.SessionRoundsContinue` | bikeshare.py:171-183 | Every round before the last was followed by "yes". |
| `Session.SessionEnding` | bikeshare.py:181-183 | A session finishes normally exactly when its last round was complete and its restart answer was not "yes". |
| `Session.SessionFacts` | bikeshare.py:170-183 | Together: every round is faithful, every round but the last went on with "yes", and the ending is as the last restart answer says. |
| `Session.RunSession` | bikeshare.py:170-183 | Rounds begin at answer 0, and each next round begins where the previous one stopped reading. Every round is faithful to its own selection. Every round before the last was followed by "yes". The session finishes normally exactly when the last round's restart answer was not "yes". It ends on exhausted input only after reading all answers. |

## Left out

- Reading the CSV files (`pd.read_csv`) is a map from file name to table. The table contents and a missing file are inputs to the model.
- Parsing 'Start Time' and deriving month, weekday name and hour are done inside pandas. The derived values are record fields.
- The mean trip duration (bikeshare.py:125) is floating-point arithmetic and is not modelled.
- Elapsed-time reporting (`time.time()`) and all printed text and formatting are not modelled.
- Tie-breaking of `mode()`, `idxmax()` and `sort_values` is library-defined. `MostCommon` picks the first maximal value in row order, and only "maximal count" is stated.
- The descending-count order in which `value_counts()` lists its entries is not modelled. The entries are in first-seen order.
- `Counting.Modes` returns a set, so the sorted order in which `mode()` prints several modal years is not modelled.
- `str.lower()` and `str.title()` are modelled on ASCII letters only. Unicode case mapping is not covered.
- Missing values are modelled only for user type, gender and birth year, as `None`. Stations, durations and derived fields are assumed present, so NaN keys dropped by `groupby` are not modelled. Birth years are integers, whereas pandas stores them as floats.
- bikeshare.py:18 closes the greeting string with two quotes. Python rejects that as a syntax error before anything runs. The model assumes the evidently intended one-quote greeting, and printed text is not modelled in any case.
- `dt.weekday_name` (bikeshare.py:63) is taken to yield the English weekday name, Monday to Sunday. Its availability across pandas versions is not modelled.
- `Session.Round` stores the filtered table rather than the printed reports. The reports of a round are `Summarize(round.table)`.
