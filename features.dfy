/**
 * The three bucketing rules that turn the parts of a timestamp into categorical
 * columns: `get_season`, the weekend flag and `get_time_of_day`.
 *
 * A missing timestamp (pandas' NaT) gives a missing month, hour and day name.
 * Every comparison with NaN is false and `isin` never matches it, so the missing
 * value falls through to the final `else` branch of each rule: Autumn, Night and
 * "not a weekend".
 */
module Features {
  import opened Optional

  datatype Season = Winter | Spring | Summer | Autumn

  /** Seasons in calendar order, starting with the one that contains December. */
  function SeasonOfQuarter(q: nat): Season
    requires q < 4
  {
    [Winter, Spring, Summer, Autumn][q]
  }

  /**
   * `get_season`: December, January and February are Winter, the next three months
   * Spring, the next three Summer, and everything else (September to November, but
   * also out-of-range numbers and a missing month) Autumn.
   */
  function GetSeason(month: Option<int>): (s: Season)
    // for a real month: its quarter counted from December
    ensures month.Some? && 1 <= month.value <= 12 ==> s == SeasonOfQuarter((month.value % 12) / 3)
    // the else-branch absorbs everything that is not a month
    ensures month.None? || month.value < 1 || 12 < month.value ==> s == Autumn
  {
    match month
    case None => Autumn
    case Some(m) =>
      if m in [12, 1, 2] then Winter
      else if m in [3, 4, 5] then Spring
      else if m in [6, 7, 8] then Summer
      else Autumn
  }

  /** The months of the year that `get_season` sends to season s. */
  function MonthsOf(s: Season): set<int>
  {
    set m | 1 <= m <= 12 && GetSeason(Some(m)) == s
  }

  /** The months listed for each season in `get_season`. */
  function SeasonMonths(s: Season): set<int>
  {
    match s
    case Winter => {12, 1, 2}
    case Spring => {3, 4, 5}
    case Summer => {6, 7, 8}
    case Autumn => {9, 10, 11}
  }

  /** A month of the year is listed for the season `get_season` gives it, and for no other. */
  lemma MonthInSeason(m: int)
    requires 1 <= m <= 12
    ensures m in SeasonMonths(GetSeason(Some(m)))
    ensures forall s :: m in SeasonMonths(s) ==> s == GetSeason(Some(m))
  {
  }

  /** The months `get_season` sends to s are exactly the ones listed for s. */
  lemma MonthsOfIs(s: Season)
    ensures MonthsOf(s) == SeasonMonths(s)
  {
    forall m | m in MonthsOf(s) ensures m in SeasonMonths(s) {
      MonthInSeason(m);
    }
    forall m | m in SeasonMonths(s) ensures m in MonthsOf(s) {
      MonthInSeason(m);
    }
  }

  /** Each season holds exactly its three listed months, so the four seasons partition the year. */
  lemma SeasonsAreQuarters()
    ensures MonthsOf(Winter) == {12, 1, 2}
    ensures MonthsOf(Spring) == {3, 4, 5}
    ensures MonthsOf(Summer) == {6, 7, 8}
    ensures MonthsOf(Autumn) == {9, 10, 11}
  {
    MonthsOfIs(Winter);
    MonthsOfIs(Spring);
    MonthsOfIs(Summer);
    MonthsOfIs(Autumn);
  }

  datatype TimeOfDay = Morning | Afternoon | Evening | Night

  /** The first hour of each part of the day. */
  function StartHour(b: TimeOfDay): int
  {
    match b
    case Morning => 5
    case Afternoon => 12
    case Evening => 17
    case Night => 21
  }

  /** The part of the day that follows b around the clock. */
  function NextPart(b: TimeOfDay): TimeOfDay
  {
    match b
    case Morning => Afternoon
    case Afternoon => Evening
    case Evening => Night
    case Night => Morning
  }

  /** How many hours b lasts: from its start to the start of the next part, around the clock. */
  function Span(b: TimeOfDay): int
  {
    (StartHour(NextPart(b)) - StartHour(b)) % 24
  }

  /** Hour h (0..23) lies in the clock interval [StartHour(b), StartHour(NextPart(b))). */
  predicate InPart(h: int, b: TimeOfDay)
  {
    (h - StartHour(b)) % 24 < Span(b)
  }

  /**
   * `get_time_of_day`: [5, 12) is Morning, [12, 17) Afternoon, [17, 21) Evening, and the
   * else-branch, Night, takes the rest of the clock, any out-of-range number and a
   * missing hour.
   */
  function GetTimeOfDay(hour: Option<int>): (b: TimeOfDay)
    // on the clock, b is the one and only part whose interval contains the hour
    ensures hour.Some? && 0 <= hour.value < 24 ==> forall c :: InPart(hour.value, c) <==> c == b
    ensures hour.None? || hour.value < 0 || 24 <= hour.value ==> b == Night
  {
    match hour
    case None => Night
    case Some(h) =>
      if 5 <= h < 12 then Morning
      else if 12 <= h < 17 then Afternoon
      else if 17 <= h < 21 then Evening
      else Night
  }

  /** The four parts of the day last 7, 5, 4 and 8 hours and together cover the 24-hour clock. */
  lemma PartsCoverTheClock()
    ensures Span(Morning) == 7 && Span(Afternoon) == 5 && Span(Evening) == 4 && Span(Night) == 8
    ensures Span(Morning) + Span(Afternoon) + Span(Evening) + Span(Night) == 24
  {
  }

  /** The day names pandas' `day_name()` produces, Monday first. */
  const DayNames: seq<string> :=
    ["Monday", "Tuesday", "Wednesday", "Thursday", "Friday", "Saturday", "Sunday"]

  /** The weekend flag: the day name is one of the last two days of the week. */
  function IsWeekend(day: Option<string>): (w: bool)
    ensures w <==> day.Some? && day.value in DayNames[5..]
  {
    day.Some? && day.value in ["Saturday", "Sunday"]
  }

  /** Of the seven day names, exactly the last two are weekend days. */
  lemma WeekendIsLastTwoDays()
    ensures forall i :: 0 <= i < 7 ==> (IsWeekend(Some(DayNames[i])) <==> 5 <= i)
  {
    assert DayNames[5..] == ["Saturday", "Sunday"];
  }
}
