/**
 * `groupby('date').size().cumsum()`: the number of rows per calendar date, with the
 * dates in ascending order (pandas sorts the group keys), turned into running totals.
 * A date is a day number; rows whose date is missing are dropped by the groupby.
 */
module Cumulative {
  import opened Optional
  import opened Counting

  predicate StrictlyAscending(xs: seq<int>)
  {
    forall i, j :: 0 <= i < j < |xs| ==> xs[i] < xs[j]
  }

  /** Adds d to a strictly ascending sequence, in its place, unless it is already there. */
  function InsertAscending(xs: seq<int>, d: int): (ys: seq<int>)
    requires StrictlyAscending(xs)
    ensures StrictlyAscending(ys)
    ensures forall e :: e in ys <==> e in xs || e == d
  {
    if xs == [] then [d]
    else if d < xs[0] then [d] + xs
    else if d == xs[0] then xs
    else
      var rest := InsertAscending(xs[1..], d);
      assert forall e :: e in rest ==> xs[0] < e by {
        assert forall k :: 0 < k < |xs| ==> xs[0] < xs[k];
      }
      assert forall k :: 0 <= k < |rest| ==> xs[0] < rest[k] by {
        assert forall k :: 0 <= k < |rest| ==> rest[k] in rest;
      }
      [xs[0]] + rest
  }

  /** The sorted group index of `groupby(key)`: each non-missing key once, ascending. */
  function AscendingKeys(keys: seq<Option<int>>): (ds: seq<int>)
    ensures StrictlyAscending(ds)
    ensures forall d :: d in ds <==> Some(d) in keys
  {
    if keys == [] then []
    else
      var init, last := keys[..|keys| - 1], keys[|keys| - 1];
      assert keys == init + [last];
      var ds := AscendingKeys(init);
      match last
      case None => ds
      case Some(d) => InsertAscending(ds, d)
  }

  /** `cumsum`: pairs each date of ds with acc plus the counts of all dates up to it. */
  function RunningTotals(counts: map<int, nat>, ds: seq<int>, acc: nat): (series: seq<(int, nat)>)
    requires forall i :: 0 <= i < |ds| ==> ds[i] in counts
    ensures |series| == |ds|
    ensures forall i :: 0 <= i < |ds| ==> series[i].0 == ds[i]
  {
    if ds == [] then []
    else
      var total := acc + counts[ds[0]];
      [(ds[0], total)] + RunningTotals(counts, ds[1..], total)
  }

  /** `groupby(date).size().cumsum()` over the date column `dates`. */
  function CumulativeCounts(dates: seq<Option<int>>): (series: seq<(int, nat)>)
    // one entry per distinct date: only dates that occur ...
    ensures forall i :: 0 <= i < |series| ==> Some(series[i].0) in dates
    // ... each occurring date ...
    ensures forall d :: Some(d) in dates ==> exists i :: 0 <= i < |series| && series[i].0 == d
    // ... in strictly ascending order
    ensures forall i, j :: 0 <= i < j < |series| ==> series[i].0 < series[j].0
    ensures DatesOf(series) == AscendingKeys(dates)
  {
    var ds := AscendingKeys(dates);
    var series := RunningTotals(CountBy(dates), ds, 0);
    SeriesDates(series, ds);
    assert DatesOf(series) == ds;
    series
  }

  /** A series indexed by ds holds the dates of ds, each one, in the order of ds. */
  lemma SeriesDates(series: seq<(int, nat)>, ds: seq<int>)
    requires |series| == |ds| && forall i :: 0 <= i < |ds| ==> series[i].0 == ds[i]
    ensures forall i :: 0 <= i < |series| ==> series[i].0 in ds
    ensures forall d :: d in ds ==> exists i :: 0 <= i < |series| && series[i].0 == d
    ensures StrictlyAscending(ds) ==> forall i, j :: 0 <= i < j < |series| ==> series[i].0 < series[j].0
  {
    forall d | d in ds ensures exists i :: 0 <= i < |series| && series[i].0 == d {
      var i :| 0 <= i < |ds| && ds[i] == d;
      assert series[i].0 == d;
    }
  }

  /** The dates a series lists, in its order. */
  function DatesOf(series: seq<(int, nat)>): seq<int>
  {
    seq(|series|, i requires 0 <= i < |series| => series[i].0)
  }

  /** The number of rows dated on or before day d. */
  function CountUpTo(dates: seq<Option<int>>, d: int): nat
  {
    if dates == [] then 0
    else
      var last := dates[|dates| - 1];
      CountUpTo(dates[..|dates| - 1], d) + (if last.Some? && last.value <= d then 1 else 0)
  }

  /** The rows dated up to d are those dated up to the day before, plus those dated d. */
  lemma {:induction false} CountUpToSplit(dates: seq<Option<int>>, d: int)
    ensures CountUpTo(dates, d) == CountUpTo(dates, d - 1) + multiset(dates)[Some(d)]
  {
    if dates != [] {
      var init, last := dates[..|dates| - 1], dates[|dates| - 1];
      assert dates == init + [last];
      CountUpToSplit(init, d);
    }
  }

  /** With no row dated strictly between a and b, the rows dated before b are those dated up to a. */
  lemma {:induction false} CountUpToGap(dates: seq<Option<int>>, a: int, b: int)
    requires a < b
    requires forall e :: Some(e) in dates ==> e <= a || b <= e
    ensures CountUpTo(dates, b - 1) == CountUpTo(dates, a)
  {
    if dates != [] {
      var init, last := dates[..|dates| - 1], dates[|dates| - 1];
      assert dates == init + [last];
      CountUpToGap(init, a, b);
    }
  }

  /** No row is dated before the first date that occurs. */
  lemma {:induction false} CountUpToNone(dates: seq<Option<int>>, d: int)
    requires forall e :: Some(e) in dates ==> d < e
    ensures CountUpTo(dates, d) == 0
  {
    if dates != [] {
      var init, last := dates[..|dates| - 1], dates[|dates| - 1];
      assert dates == init + [last];
      CountUpToNone(init, d);
    }
  }

  /** Every dated row is dated on or before the last date that occurs. */
  lemma {:induction false} CountUpToAll(dates: seq<Option<int>>, d: int)
    requires forall e :: Some(e) in dates ==> e <= d
    ensures CountUpTo(dates, d) == |dates| - multiset(dates)[None]
  {
    if dates != [] {
      var init, last := dates[..|dates| - 1], dates[|dates| - 1];
      assert dates == init + [last];
      assert multiset(dates) == multiset(init) + multiset{last};
      assert last in dates;
      CountUpToAll(init, d);
    }
  }

  /** More rows are dated up to a later day. */
  lemma {:induction false} CountUpToMonotone(dates: seq<Option<int>>, a: int, b: int)
    requires a <= b
    ensures CountUpTo(dates, a) <= CountUpTo(dates, b)
  {
    if dates != [] {
      CountUpToMonotone(dates[..|dates| - 1], a, b);
    }
  }

  /**
   * ds is a tail of the sorted distinct dates: strictly ascending, every date in it
   * occurs, and every date that occurs from ds[0] on is in it.
   */
  ghost predicate SortedTail(dates: seq<Option<int>>, ds: seq<int>)
  {
    && StrictlyAscending(ds)
    && (forall d :: d in ds ==> Some(d) in dates)
    && (forall e :: Some(e) in dates && ds != [] && ds[0] <= e ==> e in ds)
  }

  /**
   * The running totals over a tail ds of the sorted dates, started from the number of
   * rows dated before ds[0], are the numbers of rows dated up to each date of ds.
   */
  lemma {:induction false} RunningTotalsCountUpTo(dates: seq<Option<int>>, ds: seq<int>, acc: nat)
    requires SortedTail(dates, ds)
    requires ds != [] ==> acc == CountUpTo(dates, ds[0] - 1)
    ensures forall i :: 0 <= i < |ds| ==> ds[i] in CountBy(dates)
    ensures forall i :: 0 <= i < |ds| ==> RunningTotals(CountBy(dates), ds, acc)[i].1 == CountUpTo(dates, ds[i])
  {
    var counts := CountBy(dates);
    SortedTailCounted(dates, ds);
    if ds != [] {
      var total := acc + counts[ds[0]];
      CountUpToSplit(dates, ds[0]);
      var rest := ds[1..];
      if rest != [] {
        SortedTailRest(dates, ds);
      }
      RunningTotalsCountUpTo(dates, rest, total);
      RunningTotalsStep(counts, ds, acc, total);
      var tail := RunningTotals(counts, rest, total);
      var series := RunningTotals(counts, ds, acc);
      forall i | 0 <= i < |ds| ensures series[i].1 == CountUpTo(dates, ds[i]) {
        if i > 0 {
          assert series[i] == tail[i - 1];
          assert rest[i - 1] == ds[i];
        }
      }
    }
  }

  /** Every date of a sorted tail has a count. */
  lemma SortedTailCounted(dates: seq<Option<int>>, ds: seq<int>)
    requires SortedTail(dates, ds)
    ensures forall i :: 0 <= i < |ds| ==> ds[i] in CountBy(dates)
  {
    forall i | 0 <= i < |ds| ensures ds[i] in CountBy(dates) {
      assert ds[i] in ds;
    }
  }

  /** The first entry of the running totals, and the rest continuing from it. */
  lemma RunningTotalsStep(counts: map<int, nat>, ds: seq<int>, acc: nat, total: nat)
    requires ds != []
    requires forall i :: 0 <= i < |ds| ==> ds[i] in counts
    requires total == acc + counts[ds[0]]
    ensures RunningTotals(counts, ds, acc)[0].1 == total
    ensures forall i :: 1 <= i < |ds| ==> RunningTotals(counts, ds, acc)[i] == RunningTotals(counts, ds[1..], total)[i - 1]
  {
  }

  /**
   * Dropping the first date of a sorted tail leaves a sorted tail, and no row is dated
   * strictly between the first two dates.
   */
  lemma SortedTailRest(dates: seq<Option<int>>, ds: seq<int>)
    requires SortedTail(dates, ds) && |ds| >= 2
    ensures SortedTail(dates, ds[1..])
    ensures CountUpTo(dates, ds[1] - 1) == CountUpTo(dates, ds[0])
  {
    NextDateGap(dates, ds);
    CountUpToGap(dates, ds[0], ds[1]);
    assert forall d :: d in ds[1..] ==> d in ds;
  }

  /**
   * In the tail ds of the sorted dates, no row is dated strictly between ds[0] and
   * ds[1], and every date from ds[1] on is in ds[1..].
   */
  lemma NextDateGap(dates: seq<Option<int>>, ds: seq<int>)
    requires StrictlyAscending(ds) && |ds| >= 2
    requires forall e :: Some(e) in dates && ds[0] <= e ==> e in ds
    ensures forall e :: Some(e) in dates ==> e <= ds[0] || ds[1] <= e
    ensures forall e :: Some(e) in dates && ds[1] <= e ==> e in ds[1..]
  {
    forall e | Some(e) in dates && ds[0] < e
      ensures ds[1] <= e && e in ds[1..]
    {
      var k :| 0 <= k < |ds| && ds[k] == e;
      assert k >= 1;
      assert k == 1 || ds[1] < ds[k];
      assert ds[1..][k - 1] == e;
    }
  }

  /** The entry for date d in the cumulative series is the number of rows dated on or before d. */
  lemma CumulativeCountsUpTo(dates: seq<Option<int>>)
    ensures var series := CumulativeCounts(dates);
      forall i :: 0 <= i < |series| ==> series[i].1 == CountUpTo(dates, series[i].0)
  {
    var ds := AscendingKeys(dates);
    if ds != [] {
      forall e | Some(e) in dates ensures ds[0] <= e {
        var k :| 0 <= k < |ds| && ds[k] == e;
        assert k == 0 || ds[0] < ds[k];
      }
      CountUpToNone(dates, ds[0] - 1);
    }
    RunningTotalsCountUpTo(dates, ds, 0);
  }

  /** The cumulative series strictly increases: every date it lists has at least one row. */
  lemma CumulativeCountsIncreasing(dates: seq<Option<int>>)
    ensures var series := CumulativeCounts(dates);
      forall i, j :: 0 <= i < j < |series| ==> series[i].1 < series[j].1
  {
    CumulativeCountsUpTo(dates);
    var series := CumulativeCounts(dates);
    forall i, j | 0 <= i < j < |series|
      ensures series[i].1 < series[j].1
    {
      var a, b := series[i].0, series[j].0;
      CountUpToMonotone(dates, a, b - 1);
      CountUpToSplit(dates, b);
      assert Some(b) in dates;
    }
  }

  /**
   * The series is empty exactly when no row has a date, and otherwise its last value
   * is the number of rows that have one.
   */
  lemma CumulativeCountsLast(dates: seq<Option<int>>)
    ensures var series := CumulativeCounts(dates);
      && (series == [] <==> multiset(dates)[None] == |dates|)
      && (series != [] ==> series[|series| - 1].1 == |dates| - multiset(dates)[None])
  {
    CumulativeCountsUpTo(dates);
    var series := CumulativeCounts(dates);
    CountByTotal(dates);
    if series != [] {
      var last := series[|series| - 1].0;
      forall e | Some(e) in dates ensures e <= last {
        var k :| 0 <= k < |series| && series[k].0 == e;
        assert k == |series| - 1 || series[k].0 < last;
      }
      CountUpToAll(dates, last);
      assert Some(last) in dates;
      assert multiset(dates)[Some(last)] >= 1;
    } else {
      assert CountBy(dates) == map[];
    }
  }
}
