# Song-addition analysis, modelled in Dafny

The script `main.py` loads seven JSON exports (main.py:8-32) and analyses two of them:
songs added to the collection and songs added to the root playlist list. It merges
those two into one table. It then derives
calendar features from each event's UTC timestamp: season, weekend flag and part of
the day. Finally it tabulates how additions spread over those features.

This project models that feature-derivation and aggregation core:

- `features.dfy` (module `Features`) holds the three bucketing rules. These are
  `get_season`, the weekend flag (`isin(['Saturday', 'Sunday'])`) and `get_time_of_day`.
  Each rule is total, and its `else` branch catches a missing value:
  - a missing month (pandas' NaN) falls to Autumn;
  - a missing day name is not a weekend;
  - a missing hour falls to Night.
- `counting.dfy` (module `Counting`) covers two pandas operations:
  - `groupby(key).size()` is a map from each non-missing key to its number of rows. Rows whose key is missing are dropped, as pandas does by default.
  - `unstack(fill_value=0)` turns a two-key count into a zero-filled grid.
  - `Total` is the sum of a count table.
- `cumulative.dfy` (module `Cumulative`) covers `groupby('date').size().cumsum()`. The
  distinct dates are in ascending order, each paired with the running total of rows up
  to and including that date.
- `popularity.dfy` (module `Popularity`) covers `str.extract(r'(\d+)$')` followed by the
  numeric conversion. It takes the longest run of digits that ends where `$` matches.
- `analysis.dfy` (module `Analysis`) covers the tables and the pipeline:
  - **Rows and tables.** A row carries an optional timestamp, already split into month, day name, hour and date (as a day number). A table is a set of column names and a sequence of rows.
  - **Merge.** `pd.concat` happens only when both exports loaded.
  - **The in-place frame.** The class `CombinedFrame` stands for `combined_df`. It holds its rows in an array. `AddColumn` runs one column assignment `df[name] = ...` in place, row by row.
  - **Tabulation.** The six count tables, the heatmap and the cumulative series are tabulated from the enriched table.
  - **`Analyse`.** The method merges the two exports, adds the derived columns in the script's order, then tabulates. The script adds the popularity column (main.py:168) only after the counts of main.py:86-157, but no count reads it, so the report is the same. The method is proved equal to the functional `AnalysisOf`, whose properties are proved as lemmas.

The pattern `(\d+)$` does not require the digits to end the string. Python's `$`
also matches just before one final newline, so "track:42\n" scores 42.
`Popularity.Subject` drops that newline before the trailing digits are taken.

## Model

| member | source | states |
|---|---|---|
| Features.GetSeason | main.py:57-65 | a month 1..12 gets its quarter counted from December (12, 1, 2 Winter; 3-5 Spring; 6-8 Summer; 9-11 Autumn); a missing or out-of-range month is Autumn |
| Features.MonthInSeason | main.py:57-65 | every month of the year is listed for the season `get_season` gives it and for no other season |
| Features.MonthsOfIs | main.py:57-65 | the set of months `get_season` sends to a season is exactly the list the code tests for it |
| Features.SeasonsAreQuarters | main.py:57-65 | Winter = {12, 1, 2}, Spring = {3, 4, 5}, Summer = {6, 7, 8}, Autumn = {9, 10, 11} |
| Features.GetTimeOfDay | main.py:73-81 | for an hour 0..23 the result is the one and only part of the day whose clock interval ([5,12), [12,17), [17,21), [21,5)) contains it; a missing or out-of-range hour is Night |
| Features.PartsCoverTheClock | main.py:73-81 | Morning, Afternoon, Evening and Night last 7, 5, 4 and 8 hours, which add up to exactly the 24 hours of the clock |
| Features.IsWeekend | main.py:70 | the flag holds iff the day name is present and one of the last two day names (Saturday, Sunday) |
| Features.WeekendIsLastTwoDays | main.py:70 | of the seven day names exactly Saturday and Sunday are weekend days |
| Analysis.Combine | main.py:44-48 | the merged table exists iff both exports loaded; it has the columns of both, the collection rows in order, then the rootlist rows |
| Analysis.CombineWellFormed | main.py:45 | after the merge, a column that neither table had stays missing in every row |
| Analysis.AddColumnTo | main.py:67-83 | a column assignment adds the column name and gives every row, in order, its new cell; the row count is unchanged |
| Analysis.SeasonCell | main.py:67 | a row's season cell is `get_season` of its month; every other cell is unchanged |
| Analysis.WeekendCell | main.py:70 | a row's weekend cell is the weekend flag of its day name; every other cell is unchanged |
| Analysis.TimeOfDayCell | main.py:83 | a row's time-of-day cell is `get_time_of_day` of its hour; every other cell is unchanged |
| Analysis.CombinedFrame.AddColumn | main.py:67-83 | in place, every row gets its new cell and the column name is added; the frame then holds exactly `AddColumnTo` of the old table |
| Analysis.Enriched | main.py:53-83 | after the derived columns are added, every row keeps its timestamp and carries `get_season` of its month, the weekend flag of its day name and `get_time_of_day` of its hour |
| Analysis.Analyse | main.py:44-168 | the report exists iff both exports loaded, and the in-place pipeline yields exactly the tabulation of the enriched merged table |
| Counting.CountBy | main.py:86-98 | a key is in the count table iff some row has it; its count is the number of rows with that key, so at least 1 |
| Counting.CountByTotal | main.py:86-98 | the counts sum to the number of rows whose key is not missing |
| Analysis.SeasonCounts | main.py:86 | a season is a key iff some row's season cell holds it; its count is the number of rows with that season |
| Analysis.MonthlyCounts | main.py:89 | a month is a key iff some row has it; its count is the number of rows in that month |
| Analysis.WeekdayCounts | main.py:92 | a day name is a key iff some row has it; its count is the number of rows on that day |
| Analysis.WeekendCounts | main.py:95 | a flag value is a key iff some row's weekend cell holds it; its count is the number of such rows |
| Analysis.TimeOfDayCounts | main.py:98 | a part of the day is a key iff some row's cell holds it; its count is the number of such rows |
| Analysis.HourlyCounts | main.py:139-140 | an hour is a key iff some row has it; its count is the number of rows in that hour |
| Analysis.SeasonCountsTotal | main.py:86 | the season counts sum to the row count: the else-branch takes rows without a month |
| Analysis.MonthlyCountsTotal | main.py:89 | the month counts sum to the number of rows that have a timestamp |
| Analysis.WeekdayCountsTotal | main.py:92 | the weekday counts sum to the number of rows that have a timestamp |
| Analysis.WeekendCountsTotal | main.py:95 | the weekend counts sum to the row count: a missing day name counts as not a weekend |
| Analysis.TimeOfDayCountsTotal | main.py:98 | the time-of-day counts sum to the row count: the else-branch takes rows without an hour |
| Analysis.HourlyCountsTotal | main.py:139-140 | the hour counts sum to the number of rows that have a timestamp |
| Counting.Unstack | main.py:157 | the grid has a row per first key and, in every row, a column per observed second key; an observed pair's cell is its count and every other cell is 0 |
| Counting.UnstackRows | main.py:157 | the grid has a row for exactly the first keys that occur |
| Counting.UnstackRowTotal | main.py:157 | each grid row sums to the number of rows with that first key |
| Counting.UnstackCells | main.py:157 | grid cell (r, c) is the number of rows whose key pair is (r, c), and 0 for a pair never observed |
| Analysis.Heatmap | main.py:157 | the heatmap has a row for exactly the weekdays in the weekday counts; every row has a column for exactly the hours observed on any weekday; cell (d, h) is the number of rows with weekday d and hour h, so 0 for a combination never observed |
| Analysis.HeatmapRowTotals | main.py:157 | each heatmap row sums to that weekday's entry in the weekday counts |
| Cumulative.AscendingKeys | main.py:149 | the group index of the date groupby: strictly ascending, holding exactly the dates that occur |
| Cumulative.RunningTotals | main.py:149 | `cumsum` keeps the index: one entry per date, in the order given |
| Cumulative.RunningTotalsCountUpTo | main.py:149 | running totals over a tail of the sorted dates are the numbers of rows dated up to each date |
| Cumulative.CumulativeCounts | main.py:149 | the series holds each occurring date once, and no other, in strictly ascending order; its dates are the sorted group index `AscendingKeys` |
| Cumulative.CumulativeCountsUpTo | main.py:149 | the value at date d is the number of rows dated on or before d |
| Cumulative.CumulativeCountsIncreasing | main.py:149 | the values strictly increase along the series, since each date has at least one row |
| Cumulative.CumulativeCountsLast | main.py:149 | the series is empty iff no row has a date, and otherwise ends at the number of dated rows |
| Analysis.DatedSeries | main.py:148-149 | over a table's date column, the cumulative series lists exactly the dates that occur, in ascending order, with strictly increasing values, each the count up to its date; it is empty iff no row is stamped, and otherwise ends at the number of stamped rows |
| Analysis.CumulativeByDate | main.py:148-149 | over the merged table: exactly the dates that occur, ascending, with strictly increasing values, each value the count up to its date, empty iff no row is stamped, last value the number of stamped rows |
| Analysis.CumulativeEnd | main.py:148-149 | after the derived columns are added, the cumulative series still ends at the number of stamped rows of the merged table |
| Analysis.ReportCountTotals | main.py:86-140 | in one report, the season, weekend and time-of-day counts each sum to the row count, and the month, weekday and hour counts each sum to the number of stamped rows |
| Analysis.ReportTotals | main.py:86-157 | in one report: season, weekend and time-of-day counts each sum to the row count; month, weekday and hour counts have equal sums; heatmap rows sum to the weekday counts; the cumulative series ends at the month counts' sum |
| Popularity.TrailingDigits | main.py:168 | the longest suffix made only of digits: a suffix, all digits, and not extendable to the left |
| Popularity.Subject | main.py:168 | the part before where `$` matches: the string itself, or the string without its one final newline exactly when it ends in one |
| Popularity.DigitsValue | main.py:168 | k digits denote a number below 10^k |
| Popularity.DecimalValue | main.py:168 | reading the decimal numeral of n gives n back |
| Popularity.ExtractScore | main.py:168 | the score is missing iff no digit stands right before the end of the string, or right before its one final newline |
| Popularity.ExtractScoreOfDigits | main.py:168 | a string ending in a run of digits, after a non-digit and optionally before one final newline, scores the value of that run |
| Popularity.ExtractScoreOfNumeral | main.py:168 | a string ending in the numeral of n, after a non-digit and optionally before one final newline, scores n |
| Popularity.LeadingZeroValue | main.py:168 | a leading zero does not change the value of a digit run ("007" reads as 7) |
| Popularity.ExtractScoreLeadingZero | main.py:168 | a leading zero does not change the score: "track:007" and "track:7" score the same |
| Analysis.PopularityCell | main.py:168 | a row's score cell is the score extracted from its item URI, missing when the URI is; every other cell is unchanged |
| Analysis.DropMissing | main.py:169 | `dropna()` keeps the present scores and only those, each as often as it occurs; their number is the number of non-missing cells |
| Analysis.PopularityScores | main.py:167-169 | the histogram is drawn iff the table has the item URI column, from one value per row whose score is present |
| Analysis.PopularityScoresPresent | main.py:167-169 | after the script's step, the scores exist iff the table it receives has the item URI column, even when it already had a score column; they are the scores extracted from the URIs, missing ones dropped |
| Analysis.CalendarKeepsUri | main.py:67-83 | adding the season, weekend and time-of-day columns keeps the item URI column and every row's URI score |
| Analysis.EnrichedPopularity | main.py:167-169 | the report's popularity field, on the merged table: present iff the merged table has the item URI column, and then the scores of its URIs, missing ones dropped |
| Analysis.ExampleMonthlyCounts | main.py:89 | timestamps on 5 Jan, 6 Jan and 15 Jun count {1: 2, 6: 1} by month |
| Analysis.ExampleSeasonCounts | main.py:86 | the same timestamps count {Winter: 2, Summer: 1} by season |
| Analysis.ExampleTimeOfDayCounts | main.py:98 | the same timestamps (10:00, 22:00, 08:00) count {Morning: 2, Night: 1} by part of the day |

## Left out

- Loading and flattening the JSON exports (main.py:8-36): file I/O and `pd.json_normalize`. The script loads seven exports, but only `AddedToCollection.json` and `AddedToRootlist.json` are used afterwards; the other five tables are loaded and never read. The two used exports enter the model as `Option<Table>`, with `None` for one that failed to load.
- Parsing `timestamp_utc` and the calendar arithmetic behind `.dt.month`, `.dt.day_name()`, `.dt.hour` and `.dt.date` (main.py:39-41, 53-54, 139, 148). A timestamp arrives already split into its parts, and a missing one (NaT) has none. The intermediate `month`, `day_of_week`, `hour` and `date` columns are read straight from those parts rather than stored as cells.
- A `timestamp_utc` value that cannot be parsed: `pd.to_datetime` raises at main.py:41, outside the `try` of main.py:27-32, and the script stops. The model has no unparsable timestamps.
- A combined table without a `timestamp_utc` column: the script stops with a `KeyError` at main.py:53, and the model assumes the column exists.
- The CSV export, every chart and `plt.show()` (main.py:101-164, 169-173): output side effects.
- The expected counts and the chi-squared test (main.py:176-182): floating-point numerics inside a scipy call.
- Console output (`print`) throughout.
- Popularity.ExtractScore: only the ASCII digits 0-9 count as digits. Python's `\d` also matches other Unicode decimal digits.
- Popularity.ExtractScore: `astype(float)` is modelled as an exact natural number. Float rounding of very long digit runs is not modelled.
- Popularity.TrailingDigits: ASCII digits only, as for `ExtractScore`.
- Count tables are maps, so the sorted index order pandas gives `groupby(...).size()` is not modelled. Only the cumulative series, whose meaning depends on that order, carries its dates in ascending order.
- The column dtypes pandas chooses (e.g. float months once a NaN is present) are not modelled. They do not change which rows group together.
