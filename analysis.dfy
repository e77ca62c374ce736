/**
 * The analysis pipeline of the script: merge the two event tables, add the derived
 * columns to the merged table in place, and tabulate it.
 *
 * A row keeps its timestamp already split into the parts the script reads from it
 * (month, day name, hour, calendar date as a day number); a missing timestamp (NaT)
 * has no parts at all. Loading the JSON files, parsing timestamps,
 * the CSV export, the charts and the chi-squared test are not part of this model.
 */
module Analysis {
  import opened Optional
  import opened Features
  import opened Counting
  import opened Cumulative
  import opened Popularity

  datatype Timestamp = Timestamp(month: int, dayName: string, hour: int, date: int)

  /** One row of an event table: its own cells, and the derived cells once their column exists. */
  datatype Row = Row(
    timestamp: Option<Timestamp>,
    itemUri: Option<string>,
    season: Option<Season>,
    isWeekend: Option<bool>,
    timeOfDay: Option<TimeOfDay>,
    popularity: Option<nat>)

  /**
   * A table: the names of its columns and its rows in order. The tables the script
   * handles are taken to be well-formed (`WellFormed` below): a row has no cell in a
   * column its table lacks. `CombineWellFormed` shows the merge keeps this.
   */
  datatype Table = Table(columns: set<string>, rows: seq<Row>)

  const ItemUriColumn: string := "message_item_uri"
  const SeasonColumn: string := "season"
  const WeekendColumn: string := "is_weekend"
  const TimeOfDayColumn: string := "time_of_day"
  const PopularityColumn: string := "popularity_score"

  /** A cell of a column the table does not have is missing (pandas fills it with NaN on concat). */
  predicate RowFits(columns: set<string>, r: Row)
  {
    && (ItemUriColumn !in columns ==> r.itemUri.None?)
    && (SeasonColumn !in columns ==> r.season.None?)
    && (WeekendColumn !in columns ==> r.isWeekend.None?)
    && (TimeOfDayColumn !in columns ==> r.timeOfDay.None?)
    && (PopularityColumn !in columns ==> r.popularity.None?)
  }

  predicate WellFormed(t: Table)
  {
    forall i :: 0 <= i < |t.rows| ==> RowFits(t.columns, t.rows[i])
  }

  /**
   * `pd.concat([collection_df, rootlist_df], ignore_index=True)`, done only when both
   * tables loaded; otherwise there is no combined table and the analysis is skipped.
   */
  function Combine(collection: Option<Table>, rootlist: Option<Table>): (combined: Option<Table>)
    ensures combined.Some? <==> collection.Some? && rootlist.Some?
    ensures combined.Some? ==>
      var c, r, t := collection.value.rows, rootlist.value.rows, combined.value;
      // the columns of either table; the collection rows in order, then the rootlist rows
      && t.columns == collection.value.columns + rootlist.value.columns
      && |t.rows| == |c| + |r|
      && (forall i :: 0 <= i < |c| ==> t.rows[i] == c[i])
      && (forall i :: 0 <= i < |r| ==> t.rows[|c| + i] == r[i])
  {
    match (collection, rootlist)
    case (Some(c), Some(r)) => Some(Table(c.columns + r.columns, c.rows + r.rows))
    case _ => None
  }

  /** Merging keeps every missing column's cells missing. */
  lemma CombineWellFormed(collection: Table, rootlist: Table)
    requires WellFormed(collection) && WellFormed(rootlist)
    ensures WellFormed(Combine(Some(collection), Some(rootlist)).value)
  {
    var t := Combine(Some(collection), Some(rootlist)).value;
    var n := |collection.rows|;
    forall i | 0 <= i < |t.rows| ensures RowFits(t.columns, t.rows[i]) {
      if i < n {
        assert t.rows[i] == collection.rows[i] && RowFits(collection.columns, collection.rows[i]);
      } else {
        assert t.rows[i] == rootlist.rows[i - n] && RowFits(rootlist.columns, rootlist.rows[i - n]);
      }
    }
  }

  // The timestamp parts the script reads (`.dt.month`, `.dt.day_name()`, `.dt.hour`, `.dt.date`).

  function Month(r: Row): Option<int>
  {
    if r.timestamp.Some? then Some(r.timestamp.value.month) else None
  }

  function DayOfWeek(r: Row): Option<string>
  {
    if r.timestamp.Some? then Some(r.timestamp.value.dayName) else None
  }

  function Hour(r: Row): Option<int>
  {
    if r.timestamp.Some? then Some(r.timestamp.value.hour) else None
  }

  function Date(r: Row): Option<int>
  {
    if r.timestamp.Some? then Some(r.timestamp.value.date) else None
  }

  function DayAndHour(r: Row): Option<(string, int)>
  {
    if r.timestamp.Some? then Some((r.timestamp.value.dayName, r.timestamp.value.hour)) else None
  }

  function SeasonOf(r: Row): Option<Season>
  {
    r.season
  }

  function WeekendOf(r: Row): Option<bool>
  {
    r.isWeekend
  }

  function TimeOfDayOf(r: Row): Option<TimeOfDay>
  {
    r.timeOfDay
  }

  function TimestampOf(r: Row): Option<Timestamp>
  {
    r.timestamp
  }

  function PopularityOf(r: Row): Option<nat>
  {
    r.popularity
  }

  /** The column of a table read through `cell`. */
  function Column<K>(t: Table, cell: Row -> Option<K>): seq<Option<K>>
  {
    seq(|t.rows|, i requires 0 <= i < |t.rows| => cell(t.rows[i]))
  }

  // The derived cells, one function per assignment of a new column.

  /** `combined_df['season'] = combined_df['month'].apply(get_season)` */
  function SeasonCell(r: Row): (u: Row)
    ensures u.season == Some(GetSeason(Month(r)))
    // every other cell of the row is left as it was
    ensures u.(season := r.season) == r
  {
    r.(season := Some(GetSeason(Month(r))))
  }

  /** `combined_df['is_weekend'] = combined_df['day_of_week'].isin(['Saturday', 'Sunday'])` */
  function WeekendCell(r: Row): (u: Row)
    ensures u.isWeekend == Some(IsWeekend(DayOfWeek(r)))
    // every other cell of the row is left as it was
    ensures u.(isWeekend := r.isWeekend) == r
  {
    r.(isWeekend := Some(IsWeekend(DayOfWeek(r))))
  }

  /** `combined_df['time_of_day'] = combined_df['timestamp_utc'].dt.hour.apply(get_time_of_day)` */
  function TimeOfDayCell(r: Row): (u: Row)
    ensures u.timeOfDay == Some(GetTimeOfDay(Hour(r)))
    // every other cell of the row is left as it was
    ensures u.(timeOfDay := r.timeOfDay) == r
  {
    r.(timeOfDay := Some(GetTimeOfDay(Hour(r))))
  }

  /** `combined_df['popularity_score'] = combined_df['message_item_uri'].str.extract(...)` */
  function PopularityCell(r: Row): (u: Row)
    ensures u.popularity == UriScore(r)
    // every other cell of the row is left as it was
    ensures u.(popularity := r.popularity) == r
  {
    r.(popularity := UriScore(r))
  }

  /** The score extracted from a row's item URI; missing when the URI is. */
  function UriScore(r: Row): Option<nat>
  {
    if r.itemUri.Some? then ExtractScore(r.itemUri.value) else None
  }

  /** The table after `t[name] = ...`: the column name is added and every row gets its cell. */
  function AddColumnTo(t: Table, name: string, cell: Row -> Row): (u: Table)
    ensures u.columns == t.columns + {name} && |u.rows| == |t.rows|
    ensures forall i :: 0 <= i < |t.rows| ==> u.rows[i] == cell(t.rows[i])
  {
    Table(t.columns + {name}, seq(|t.rows|, i requires 0 <= i < |t.rows| => cell(t.rows[i])))
  }

  /** The combined table after the season, weekend and time-of-day columns are added. */
  function WithCalendarColumns(t: Table): Table
  {
    var seasons := AddColumnTo(t, SeasonColumn, SeasonCell);
    var weekends := AddColumnTo(seasons, WeekendColumn, WeekendCell);
    AddColumnTo(weekends, TimeOfDayColumn, TimeOfDayCell)
  }

  /** The combined table after the popularity column, added only when the item URI column exists. */
  function WithPopularityColumn(t: Table): Table
  {
    if ItemUriColumn in t.columns then AddColumnTo(t, PopularityColumn, PopularityCell) else t
  }

  /**
   * The combined table (pandas' `combined_df`), which gains its derived columns one
   * assignment at a time.
   */
  class CombinedFrame {
    var columns: set<string>
    const rows: array<Row>

    /** The table the frame currently holds. */
    function Contents(): Table
      reads this, rows
    {
      Table(columns, rows[..])
    }

    constructor (t: Table)
      ensures Contents() == t && fresh(rows)
    {
      columns := t.columns;
      rows := new Row[|t.rows|](i requires 0 <= i < |t.rows| => t.rows[i]);
      new;
      assert rows[..] == t.rows;
    }

    /** `df[name] = ...`: computes every row's new cell in place and adds the column name. */
    method AddColumn(name: string, cell: Row -> Row)
      modifies this, rows
      ensures Contents() == AddColumnTo(old(Contents()), name, cell)
    {
      var i := 0;
      while i < rows.Length
        invariant 0 <= i <= rows.Length
        invariant columns == old(columns)
        invariant forall k :: 0 <= k < i ==> rows[k] == cell(old(rows[k]))
        invariant forall k :: i <= k < rows.Length ==> rows[k] == old(rows[k])
      {
        rows[i] := cell(rows[i]);
        i := i + 1;
      }
      columns := columns + {name};
      assert rows[..] == AddColumnTo(old(Contents()), name, cell).rows;
    }
  }

  /** A value occurs in a column exactly when some row's cell holds it. */
  lemma ColumnHas<K>(t: Table, cell: Row -> Option<K>)
    ensures forall k :: Some(k) in Column(t, cell) <==> exists i :: 0 <= i < |t.rows| && cell(t.rows[i]) == Some(k)
  {
    var keys := Column(t, cell);
    forall k | Some(k) in keys ensures exists i :: 0 <= i < |t.rows| && cell(t.rows[i]) == Some(k) {
      var i :| 0 <= i < |keys| && keys[i] == Some(k);
      assert cell(t.rows[i]) == Some(k);
    }
    forall k, i | 0 <= i < |t.rows| && cell(t.rows[i]) == Some(k) ensures Some(k) in keys {
      assert keys[i] == cell(t.rows[i]);
    }
  }

  // The count tables (`groupby(...).size()`), the heatmap grid and the cumulative series.

  function SeasonCounts(t: Table): (counts: map<Season, nat>)
    ensures forall s :: s in counts <==> exists i :: 0 <= i < |t.rows| && SeasonOf(t.rows[i]) == Some(s)
    ensures forall s :: s in counts ==> counts[s] == multiset(Column(t, SeasonOf))[Some(s)]
  {
    ColumnHas(t, SeasonOf);
    CountBy(Column(t, SeasonOf))
  }

  function MonthlyCounts(t: Table): (counts: map<int, nat>)
    ensures forall m :: m in counts <==> exists i :: 0 <= i < |t.rows| && Month(t.rows[i]) == Some(m)
    ensures forall m :: m in counts ==> counts[m] == multiset(Column(t, Month))[Some(m)]
  {
    ColumnHas(t, Month);
    CountBy(Column(t, Month))
  }

  function WeekdayCounts(t: Table): (counts: map<string, nat>)
    ensures forall d :: d in counts <==> exists i :: 0 <= i < |t.rows| && DayOfWeek(t.rows[i]) == Some(d)
    ensures forall d :: d in counts ==> counts[d] == multiset(Column(t, DayOfWeek))[Some(d)]
  {
    ColumnHas(t, DayOfWeek);
    CountBy(Column(t, DayOfWeek))
  }

  function WeekendCounts(t: Table): (counts: map<bool, nat>)
    ensures forall w :: w in counts <==> exists i :: 0 <= i < |t.rows| && WeekendOf(t.rows[i]) == Some(w)
    ensures forall w :: w in counts ==> counts[w] == multiset(Column(t, WeekendOf))[Some(w)]
  {
    ColumnHas(t, WeekendOf);
    CountBy(Column(t, WeekendOf))
  }

  function TimeOfDayCounts(t: Table): (counts: map<TimeOfDay, nat>)
    ensures forall p :: p in counts <==> exists i :: 0 <= i < |t.rows| && TimeOfDayOf(t.rows[i]) == Some(p)
    ensures forall p :: p in counts ==> counts[p] == multiset(Column(t, TimeOfDayOf))[Some(p)]
  {
    ColumnHas(t, TimeOfDayOf);
    CountBy(Column(t, TimeOfDayOf))
  }

  function HourlyCounts(t: Table): (counts: map<int, nat>)
    ensures forall h :: h in counts <==> exists i :: 0 <= i < |t.rows| && Hour(t.rows[i]) == Some(h)
    ensures forall h :: h in counts ==> counts[h] == multiset(Column(t, Hour))[Some(h)]
  {
    ColumnHas(t, Hour);
    CountBy(Column(t, Hour))
  }

  /** `groupby(['day_of_week', 'hour']).size().unstack(fill_value=0)` */
  function Heatmap(t: Table): (grid: map<string, map<int, nat>>)
    // a row for exactly the weekdays that have a count
    ensures forall d :: d in grid <==> d in WeekdayCounts(t)
    // every row has a column for exactly the hours observed on any weekday (`fill_value=0`) ...
    ensures forall d, h :: d in grid ==> (h in grid[d] <==> exists d' :: Some((d', h)) in Column(t, DayAndHour))
    // ... and cell (d, h) is the number of rows with weekday d and hour h, so 0 for a combination never observed
    ensures forall d, h :: d in grid && h in grid[d] ==> grid[d][h] == multiset(Column(t, DayAndHour))[Some((d, h))]
  {
    HeatmapGrid(t);
    Unstack(CountBy(Column(t, DayAndHour)))
  }

  /** `groupby('date').size().cumsum()` */
  function CumulativeByDate(t: Table): (series: seq<(int, nat)>)
    // exactly the observed dates, each once ...
    ensures forall d :: d in DatesOf(series) <==> Some(d) in Column(t, Date)
    // ... in strictly ascending order ...
    ensures forall i, j :: 0 <= i < j < |series| ==> series[i].0 < series[j].0
    // ... with strictly increasing values ...
    ensures forall i, j :: 0 <= i < j < |series| ==> series[i].1 < series[j].1
    // ... each the number of rows dated on or before its date ...
    ensures forall i :: 0 <= i < |series| ==> series[i].1 == CountUpTo(Column(t, Date), series[i].0)
    // ... ending at the number of rows that have a timestamp
    ensures series == [] <==> Unstamped(t) == |t.rows|
    ensures series != [] ==> series[|series| - 1].1 == |t.rows| - Unstamped(t)
  {
    DatedSeries(t);
    CumulativeCounts(Column(t, Date))
  }

  /** `dropna()`: the present values, in order. */
  function DropMissing(xs: seq<Option<nat>>): (present: seq<nat>)
    ensures |present| == |xs| - multiset(xs)[None]
    ensures forall n :: n in present <==> Some(n) in xs
    // each present value is kept exactly as often as it occurs
    ensures forall n :: multiset(present)[n] == multiset(xs)[Some(n)]
  {
    if xs == [] then []
    else
      var init, last := xs[..|xs| - 1], xs[|xs| - 1];
      assert xs == init + [last];
      assert multiset(xs) == multiset(init) + multiset{last};
      DropMissing(init) + (if last.Some? then [last.value] else [])
  }

  /**
   * The scores the popularity histogram is drawn from. The histogram is drawn only
   * when the table has the item URI column, from which the score column was just
   * derived.
   */
  function PopularityScores(t: Table): (scores: Option<seq<nat>>)
    ensures scores.Some? <==> ItemUriColumn in t.columns
    // one value per row whose score is present
    ensures scores.Some? ==> |scores.value| == |t.rows| - multiset(Column(t, PopularityOf))[None]
  {
    if ItemUriColumn in t.columns then Some(DropMissing(Column(t, PopularityOf))) else None
  }

  /** Everything the script tabulates from the combined table. */
  datatype Report = Report(
    seasonal: map<Season, nat>,
    monthly: map<int, nat>,
    weekday: map<string, nat>,
    weekend: map<bool, nat>,
    timeOfDay: map<TimeOfDay, nat>,
    hourly: map<int, nat>,
    cumulative: seq<(int, nat)>,
    heatmap: map<string, map<int, nat>>,
    popularity: Option<seq<nat>>)

  function Tabulate(t: Table): Report
  {
    Report(SeasonCounts(t), MonthlyCounts(t), WeekdayCounts(t), WeekendCounts(t),
           TimeOfDayCounts(t), HourlyCounts(t), CumulativeByDate(t), Heatmap(t),
           PopularityScores(t))
  }

  /** The whole analysis as a function of the two loaded tables. */
  function AnalysisOf(collection: Option<Table>, rootlist: Option<Table>): Option<Report>
  {
    var combined := Combine(collection, rootlist);
    if combined.None? then None
    else Some(Tabulate(Enriched(combined.value)))
  }

  /**
   * The script from the merge on: builds the combined frame, adds the derived columns
   * in the order the script does, and tabulates the result.
   */
  method Analyse(collection: Option<Table>, rootlist: Option<Table>) returns (report: Option<Report>)
    ensures report.Some? <==> collection.Some? && rootlist.Some?
    ensures report == AnalysisOf(collection, rootlist)
  {
    var combined := Combine(collection, rootlist);
    if combined.None? {
      return None;
    }
    var frame := new CombinedFrame(combined.value);
    frame.AddColumn(SeasonColumn, SeasonCell);
    frame.AddColumn(WeekendColumn, WeekendCell);
    frame.AddColumn(TimeOfDayColumn, TimeOfDayCell);
    if ItemUriColumn in frame.columns {
      frame.AddColumn(PopularityColumn, PopularityCell);
    }
    report := Some(Tabulate(frame.Contents()));
  }

  // What the tabulation promises.

  /** The number of rows whose timestamp is missing. */
  function Unstamped(t: Table): nat
  {
    multiset(Column(t, TimestampOf))[None]
  }

  /** The combined table with all its derived columns, as the script leaves it. */
  function Enriched(t: Table): (u: Table)
    ensures |u.rows| == |t.rows|
    ensures forall i :: 0 <= i < |t.rows| ==>
      && u.rows[i].timestamp == t.rows[i].timestamp
      && u.rows[i].season == Some(GetSeason(Month(t.rows[i])))
      && u.rows[i].isWeekend == Some(IsWeekend(DayOfWeek(t.rows[i])))
      && u.rows[i].timeOfDay == Some(GetTimeOfDay(Hour(t.rows[i])))
  {
    WithPopularityColumn(WithCalendarColumns(t))
  }

  /** The season counts sum to the row count: `get_season`'s else-branch takes the rows without a month. */
  lemma SeasonCountsTotal(t: Table)
    ensures Total(SeasonCounts(Enriched(t))) == |t.rows|
  {
    var keys := Column(Enriched(t), SeasonOf);
    assert forall i :: 0 <= i < |keys| ==> keys[i] == Enriched(t).rows[i].season;
    CountByTotalNoneMissing(keys);
  }

  /** The weekend counts sum to the row count: a missing day name is "not a weekend". */
  lemma WeekendCountsTotal(t: Table)
    ensures Total(WeekendCounts(Enriched(t))) == |t.rows|
  {
    var keys := Column(Enriched(t), WeekendOf);
    assert forall i :: 0 <= i < |keys| ==> keys[i] == Enriched(t).rows[i].isWeekend;
    CountByTotalNoneMissing(keys);
  }

  /** The time-of-day counts sum to the row count: `get_time_of_day`'s else-branch takes the rows without an hour. */
  lemma TimeOfDayCountsTotal(t: Table)
    ensures Total(TimeOfDayCounts(Enriched(t))) == |t.rows|
  {
    var keys := Column(Enriched(t), TimeOfDayOf);
    assert forall i :: 0 <= i < |keys| ==> keys[i] == Enriched(t).rows[i].timeOfDay;
    CountByTotalNoneMissing(keys);
  }

  /** The month counts sum to the number of rows that have a timestamp. */
  lemma MonthlyCountsTotal(t: Table)
    ensures Total(MonthlyCounts(Enriched(t))) == |t.rows| - Unstamped(t)
  {
    var keys, stamps := Column(Enriched(t), Month), Column(t, TimestampOf);
    forall i | 0 <= i < |keys| ensures keys[i].None? <==> stamps[i].None? {
      assert keys[i] == Month(Enriched(t).rows[i]) && stamps[i] == t.rows[i].timestamp;
    }
    CountByTotal(keys);
    SameMissing(keys, stamps);
  }

  /** The weekday counts sum to the number of rows that have a timestamp. */
  lemma WeekdayCountsTotal(t: Table)
    ensures Total(WeekdayCounts(Enriched(t))) == |t.rows| - Unstamped(t)
  {
    var keys, stamps := Column(Enriched(t), DayOfWeek), Column(t, TimestampOf);
    forall i | 0 <= i < |keys| ensures keys[i].None? <==> stamps[i].None? {
      assert keys[i] == DayOfWeek(Enriched(t).rows[i]) && stamps[i] == t.rows[i].timestamp;
    }
    CountByTotal(keys);
    SameMissing(keys, stamps);
  }

  /** The hour counts sum to the number of rows that have a timestamp. */
  lemma HourlyCountsTotal(t: Table)
    ensures Total(HourlyCounts(Enriched(t))) == |t.rows| - Unstamped(t)
  {
    var keys, stamps := Column(Enriched(t), Hour), Column(t, TimestampOf);
    forall i | 0 <= i < |keys| ensures keys[i].None? <==> stamps[i].None? {
      assert keys[i] == Hour(Enriched(t).rows[i]) && stamps[i] == t.rows[i].timestamp;
    }
    CountByTotal(keys);
    SameMissing(keys, stamps);
  }

  /** The zero-filled grid of the (day, hour) counts, row by row and cell by cell. */
  lemma HeatmapGrid(t: Table)
    ensures var grid := Unstack(CountBy(Column(t, DayAndHour)));
      && (forall d :: d in grid <==> d in CountBy(Column(t, DayOfWeek)))
      && (forall d, h :: d in grid && h in grid[d] ==> grid[d][h] == multiset(Column(t, DayAndHour))[Some((d, h))])
  {
    var pairs := Column(t, DayAndHour);
    HeatmapFirsts(t);
    UnstackRows(pairs);
    UnstackCells(pairs);
  }

  /** The first keys of the (day, hour) column are the day column. */
  lemma HeatmapFirsts(t: Table)
    ensures Firsts(Column(t, DayAndHour)) == Column(t, DayOfWeek)
  {
    var pairs, days := Column(t, DayAndHour), Column(t, DayOfWeek);
    var firsts := Firsts(pairs);
    assert |firsts| == |days|;
    forall i | 0 <= i < |days| ensures firsts[i] == days[i] {
      assert pairs[i] == DayAndHour(t.rows[i]) && days[i] == DayOfWeek(t.rows[i]);
    }
  }

  /** Each row of the heatmap sums to that weekday's entry in the weekday counts. */
  lemma HeatmapRowTotals(t: Table)
    ensures forall d :: d in Heatmap(t) ==> d in WeekdayCounts(t) && Total(Heatmap(t)[d]) == WeekdayCounts(t)[d]
  {
    var pairs := Column(t, DayAndHour);
    HeatmapFirsts(t);
    forall d | d in Heatmap(t) ensures Total(Heatmap(t)[d]) == WeekdayCounts(t)[d] {
      UnstackRowTotal(pairs, d);
    }
  }

  /**
   * The cumulative series over a table's dates: exactly the observed dates, ascending,
   * with strictly increasing values, each the count up to its date; empty exactly when
   * no row is stamped, and otherwise ending at the number of stamped rows.
   */
  lemma DatedSeries(t: Table)
    ensures var series := CumulativeCounts(Column(t, Date));
      && (forall d :: d in DatesOf(series) <==> Some(d) in Column(t, Date))
      && (forall i, j :: 0 <= i < j < |series| ==> series[i].0 < series[j].0)
      && (forall i, j :: 0 <= i < j < |series| ==> series[i].1 < series[j].1)
      && (forall i :: 0 <= i < |series| ==> series[i].1 == CountUpTo(Column(t, Date), series[i].0))
      && (series == [] <==> Unstamped(t) == |t.rows|)
      && (series != [] ==> series[|series| - 1].1 == |t.rows| - Unstamped(t))
  {
    var dates := Column(t, Date);
    assert |dates| == |t.rows|;
    CumulativeCountsIncreasing(dates);
    CumulativeCountsUpTo(dates);
    CumulativeCountsLast(dates);
    DatesUnstamped(t);
  }

  /** A row has no date exactly when it has no timestamp. */
  lemma DatesUnstamped(t: Table)
    ensures multiset(Column(t, Date))[None] == Unstamped(t)
  {
    var dates, stamps := Column(t, Date), Column(t, TimestampOf);
    forall i | 0 <= i < |dates| ensures dates[i].None? <==> stamps[i].None? {
      assert dates[i] == Date(t.rows[i]) && stamps[i] == t.rows[i].timestamp;
    }
    SameMissing(dates, stamps);
  }

  /**
   * The popularity scores exist exactly when the item URI column does, whether or not
   * the table already had a score column; they are then the scores extracted from the
   * URIs, with the missing ones dropped.
   */
  lemma PopularityScoresPresent(t: Table)
    ensures var scores := PopularityScores(WithPopularityColumn(t));
      && (scores.Some? <==> ItemUriColumn in t.columns)
      && (scores.Some? ==> scores.value == DropMissing(Column(t, UriScore)))
  {
    if ItemUriColumn in t.columns {
      var u := WithPopularityColumn(t);
      assert forall i :: 0 <= i < |t.rows| ==> u.rows[i].popularity == UriScore(t.rows[i]);
      assert Column(u, PopularityOf) == Column(t, UriScore);
    }
  }

  /** The calendar columns leave the item URI column, and so every row's URI score, as it was. */
  lemma CalendarKeepsUri(t: Table)
    ensures ItemUriColumn in WithCalendarColumns(t).columns <==> ItemUriColumn in t.columns
    ensures Column(WithCalendarColumns(t), UriScore) == Column(t, UriScore)
  {
    var w := WithCalendarColumns(t);
    assert |w.rows| == |t.rows|;
    var seasons := AddColumnTo(t, SeasonColumn, SeasonCell);
    var weekends := AddColumnTo(seasons, WeekendColumn, WeekendCell);
    forall i | 0 <= i < |t.rows| ensures Column(w, UriScore)[i] == Column(t, UriScore)[i] {
      assert seasons.rows[i] == SeasonCell(t.rows[i]);
      assert weekends.rows[i] == WeekendCell(seasons.rows[i]);
      assert w.rows[i] == TimeOfDayCell(weekends.rows[i]);
      assert w.rows[i].itemUri == t.rows[i].itemUri;
      assert Column(w, UriScore)[i] == UriScore(w.rows[i]) && Column(t, UriScore)[i] == UriScore(t.rows[i]);
    }
  }

  /**
   * The report's popularity field, on the merged table: present exactly when the merged
   * table has the item URI column, and then the scores of its URIs, missing ones dropped.
   */
  lemma EnrichedPopularity(t: Table)
    ensures PopularityScores(Enriched(t))
         == if ItemUriColumn in t.columns then Some(DropMissing(Column(t, UriScore))) else None
  {
    CalendarKeepsUri(t);
    PopularityScoresPresent(WithCalendarColumns(t));
  }

  /** Deriving the columns leaves the timestamps, and so the unstamped rows, alone. */
  lemma EnrichedUnstamped(t: Table)
    ensures Unstamped(Enriched(t)) == Unstamped(t)
  {
    var u := Enriched(t);
    var stampsT, stampsU := Column(t, TimestampOf), Column(u, TimestampOf);
    assert |stampsT| == |stampsU|;
    forall i | 0 <= i < |stampsU| ensures stampsU[i].None? <==> stampsT[i].None? {
      assert stampsU[i] == u.rows[i].timestamp && stampsT[i] == t.rows[i].timestamp;
    }
    SameMissing(stampsU, stampsT);
  }

  /** The cumulative series of the enriched table ends at the number of stamped rows. */
  lemma CumulativeEnd(t: Table)
    ensures var series := CumulativeByDate(Enriched(t));
      series != [] ==> series[|series| - 1].1 == |t.rows| - Unstamped(t)
  {
    var u := Enriched(t);
    var dates := Column(u, Date);
    assert |dates| == |t.rows|;
    CumulativeCountsLast(dates);
    DatesUnstamped(u);
    EnrichedUnstamped(t);
  }

  /**
   * The six count tables of a report: season, weekend and time-of-day counts sum to
   * the row count, month, weekday and hour counts to the number of stamped rows.
   */
  lemma {:induction false} ReportCountTotals(t: Table)
    ensures var rep := Tabulate(Enriched(t));
      && Total(rep.seasonal) == |t.rows|
      && Total(rep.weekend) == |t.rows|
      && Total(rep.timeOfDay) == |t.rows|
      && Total(rep.monthly) == |t.rows| - Unstamped(t)
      && Total(rep.weekday) == |t.rows| - Unstamped(t)
      && Total(rep.hourly) == |t.rows| - Unstamped(t)
  {
    SeasonCountsTotal(t);
    WeekendCountsTotal(t);
    TimeOfDayCountsTotal(t);
    MonthlyCountsTotal(t);
    WeekdayCountsTotal(t);
    HourlyCountsTotal(t);
  }

  /**
   * What the report on a combined table promises: the season, weekend and time-of-day
   * counts each sum to its row count, the month, weekday and hour counts agree on the
   * number of stamped rows, every heatmap row sums to its weekday count, and the
   * cumulative series ends at the total of the month counts.
   */
  lemma {:induction false} ReportTotals(t: Table)
    ensures var rep := Tabulate(Enriched(t));
      && Total(rep.seasonal) == |t.rows|
      && Total(rep.weekend) == |t.rows|
      && Total(rep.timeOfDay) == |t.rows|
      && Total(rep.monthly) == Total(rep.weekday) == Total(rep.hourly)
      && (forall d :: d in rep.heatmap ==> d in rep.weekday && Total(rep.heatmap[d]) == rep.weekday[d])
      && (rep.cumulative != [] ==> rep.cumulative[|rep.cumulative| - 1].1 == Total(rep.monthly))
  {
    ReportCountTotals(t);
    HeatmapRowTotals(Enriched(t));
    CumulativeEnd(t);
  }

  /**
   * The timestamps 2023-01-05 10:00 (a Thursday), 2023-01-06 22:00 (a Friday) and
   * 2023-06-15 08:00 (a Thursday), UTC, with dates as day numbers from 1970-01-01.
   */
  const ExampleStamps: seq<Option<Timestamp>> := [
    Some(Timestamp(1, "Thursday", 10, 19362)),
    Some(Timestamp(1, "Friday", 22, 19363)),
    Some(Timestamp(6, "Thursday", 8, 19523))]

  /** The example table has the three example rows, by index. */
  lemma ExampleRows(t: Table)
    requires Column(t, TimestampOf) == ExampleStamps
    ensures |t.rows| == 3
    ensures t.rows[0].timestamp == ExampleStamps[0]
    ensures t.rows[1].timestamp == ExampleStamps[1]
    ensures t.rows[2].timestamp == ExampleStamps[2]
  {
    var stamps := Column(t, TimestampOf);
    assert stamps[0] == TimestampOf(t.rows[0]);
    assert stamps[1] == TimestampOf(t.rows[1]);
    assert stamps[2] == TimestampOf(t.rows[2]);
  }

  /** The derived cells of a stamped row of the enriched table, by index. */
  lemma EnrichedCells(t: Table, i: int)
    requires 0 <= i < |t.rows| && t.rows[i].timestamp.Some?
    ensures var u, stamp := Enriched(t), t.rows[i].timestamp.value;
      && Column(u, Month)[i] == Some(stamp.month)
      && Column(u, SeasonOf)[i] == Some(GetSeason(Some(stamp.month)))
      && Column(u, TimeOfDayOf)[i] == Some(GetTimeOfDay(Some(stamp.hour)))
  {
    var u := Enriched(t);
    assert Column(u, Month)[i] == Month(u.rows[i]);
    assert Column(u, SeasonOf)[i] == u.rows[i].season;
    assert Column(u, TimeOfDayOf)[i] == u.rows[i].timeOfDay;
  }

  /** A column of three cells holds those three cells. */
  lemma ThreeKeys<K>(keys: seq<K>, a: K, b: K, c: K)
    requires |keys| == 3 && keys[0] == a && keys[1] == b && keys[2] == c
    ensures multiset(keys) == multiset{a, b, c}
  {
    assert keys == [a, b, c];
  }

  /** A column of three cells whose outer cells agree holds the outer cell twice. */
  lemma ThreeKeysOuter<K>(keys: seq<K>, outer: K, inner: K)
    requires |keys| == 3 && keys[0] == outer && keys[1] == inner && keys[2] == outer
    ensures multiset(keys) == multiset{outer, outer, inner}
  {
    assert keys == [outer, inner] + [outer];
    assert multiset([outer, inner]) == multiset{outer, inner};
  }

  /** A column holding one key twice and another once counts 2 and 1. */
  lemma ExampleCountBy<K(!new)>(keys: seq<Option<K>>, twice: K, once: K)
    requires twice != once
    requires multiset(keys) == multiset{Some(twice), Some(twice), Some(once)}
    ensures CountBy(keys) == map[twice := 2, once := 1]
  {
    var counts := CountBy(keys);
    forall k ensures k in counts <==> k == twice || k == once {
      assert Some(k) in keys <==> Some(k) in multiset(keys);
    }
    SameMap(counts, map[twice := 2, once := 1]);
  }

  /** Rows with the example timestamps give the month counts {1: 2, 6: 1}. */
  lemma ExampleMonthlyCounts(t: Table)
    requires Column(t, TimestampOf) == ExampleStamps
    ensures MonthlyCounts(Enriched(t)) == map[1 := 2, 6 := 1]
  {
    ExampleRows(t);
    EnrichedCells(t, 0);
    EnrichedCells(t, 1);
    EnrichedCells(t, 2);
    var months := Column(Enriched(t), Month);
    ThreeKeys(months, Some(1), Some(1), Some(6));
    ExampleCountBy(months, 1, 6);
  }

  /** Rows with the example timestamps give the season counts {Winter: 2, Summer: 1}. */
  lemma ExampleSeasonCounts(t: Table)
    requires Column(t, TimestampOf) == ExampleStamps
    ensures SeasonCounts(Enriched(t)) == map[Winter := 2, Summer := 1]
  {
    ExampleRows(t);
    EnrichedCells(t, 0);
    EnrichedCells(t, 1);
    EnrichedCells(t, 2);
    var seasons := Column(Enriched(t), SeasonOf);
    assert GetSeason(Some(1)) == Winter && GetSeason(Some(6)) == Summer;
    ThreeKeys(seasons, Some(Winter), Some(Winter), Some(Summer));
    ExampleCountBy(seasons, Winter, Summer);
  }

  /** Rows with the example timestamps give the time-of-day counts {Morning: 2, Night: 1}. */
  lemma ExampleTimeOfDayCounts(t: Table)
    requires Column(t, TimestampOf) == ExampleStamps
    ensures TimeOfDayCounts(Enriched(t)) == map[Morning := 2, Night := 1]
  {
    ExampleRows(t);
    EnrichedCells(t, 0);
    EnrichedCells(t, 1);
    EnrichedCells(t, 2);
    var parts := Column(Enriched(t), TimeOfDayOf);
    assert GetTimeOfDay(Some(10)) == Morning && GetTimeOfDay(Some(22)) == Night && GetTimeOfDay(Some(8)) == Morning;
    ThreeKeysOuter(parts, Some(Morning), Some(Night));
    ExampleCountBy(parts, Morning, Night);
  }
}
