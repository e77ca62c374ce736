/**
 * `groupby(key).size()` and `unstack(fill_value=0)` over a column of optional keys.
 *
 * A count table maps each distinct non-missing key to the number of rows that carry
 * it; rows whose key is missing are dropped, as pandas' groupby does by default.
 * The order pandas gives the index only affects how a chart is drawn, so a count
 * table is a map.
 */
module Counting {
  import opened Optional

  /** `groupby(key).size()` over the key column `keys`. */
  function CountBy<K(==, !new)>(keys: seq<Option<K>>): (counts: map<K, nat>)
    // the keys of the table are exactly the non-missing keys of the column
    ensures forall k :: k in counts <==> Some(k) in keys
    // each count is the number of rows with that key, and so never zero
    ensures forall k :: k in counts ==> counts[k] == multiset(keys)[Some(k)] && counts[k] >= 1
  {
    if keys == [] then map[]
    else
      var init, last := keys[..|keys| - 1], keys[|keys| - 1];
      assert keys == init + [last];
      var counts := CountBy(init);
      match last
      case None => counts
      case Some(k) => counts[k := if k in counts then counts[k] + 1 else 1]
  }

  /** Some key of a non-empty table. */
  ghost function Pick<K>(m: map<K, nat>): (k: K)
    requires m != map[]
    ensures k in m
  {
    var k :| k in m; k
  }

  /** The sum of all counts in a table. */
  ghost function Total<K>(m: map<K, nat>): nat
    decreases |m|
  {
    if m == map[] then 0
    else
      var k := Pick(m);
      assert (m - {k}).Keys < m.Keys;
      m[k] + Total(m - {k})
  }

  /** The total does not depend on which key is taken out first. */
  lemma {:induction false} TotalRemove<K>(m: map<K, nat>, k: K)
    requires k in m
    ensures Total(m) == m[k] + Total(m - {k})
    decreases |m|
  {
    var j := Pick(m);
    if j != k {
      assert (m - {j}).Keys < m.Keys;
      assert (m - {k}).Keys < m.Keys;
      TotalRemove(m - {j}, k);
      TotalRemove(m - {k}, j);
      assert m - {j} - {k} == m - {k} - {j};
    }
  }

  /** Setting the count of k to v changes the total by v minus k's old count. */
  lemma TotalUpdate<K>(m: map<K, nat>, k: K, v: nat)
    ensures Total(m[k := v]) == Total(m - {k}) + v
    ensures k in m ==> Total(m) == Total(m - {k}) + m[k]
    ensures k !in m ==> Total(m[k := v]) == Total(m) + v
  {
    TotalRemove(m[k := v], k);
    assert m[k := v] - {k} == m - {k};
    if k in m {
      TotalRemove(m, k);
    } else {
      SameMap(m - {k}, m);
    }
  }

  /** The counts of a table sum to the number of rows whose key is not missing. */
  lemma {:induction false} CountByTotal<K(!new)>(keys: seq<Option<K>>)
    ensures Total(CountBy(keys)) == |keys| - multiset(keys)[None]
  {
    if keys != [] {
      var init, last := keys[..|keys| - 1], keys[|keys| - 1];
      assert keys == init + [last];
      CountByTotal(init);
      var counts := CountBy(init);
      assert multiset(keys) == multiset(init) + multiset{last};
      match last
      case None =>
        assert CountBy(keys) == counts;
        assert multiset(keys)[None] == multiset(init)[None] + 1;
      case Some(k) =>
        var v := if k in counts then counts[k] + 1 else 1;
        assert CountBy(keys) == counts[k := v];
        TotalUpdate(counts, k, v);
        assert Total(counts[k := v]) == Total(counts) + 1;
        assert multiset(keys)[None] == multiset(init)[None];
    }
  }

  /** Every row is counted when no key is missing: the table's counts sum to the row count. */
  lemma CountByTotalNoneMissing<K(!new)>(keys: seq<Option<K>>)
    requires forall i :: 0 <= i < |keys| ==> keys[i].Some?
    ensures Total(CountBy(keys)) == |keys|
  {
    CountByTotal(keys);
    assert None !in keys;
  }

  /** Two columns that are missing in the same rows have the same number of missing cells. */
  lemma {:induction false} SameMissing<A, B>(xs: seq<Option<A>>, ys: seq<Option<B>>)
    requires |xs| == |ys|
    requires forall i :: 0 <= i < |xs| ==> (xs[i].None? <==> ys[i].None?)
    ensures multiset(xs)[None] == multiset(ys)[None]
  {
    if xs != [] {
      var n := |xs| - 1;
      assert xs == xs[..n] + [xs[n]];
      assert ys == ys[..n] + [ys[n]];
      SameMissing(xs[..n], ys[..n]);
    }
  }

  /**
   * `size().unstack(fill_value=0)` on a two-key count table: one row per first key,
   * one column per second key, both as observed; an unobserved combination is 0.
   */
  function Unstack<R(==, !new), C(==, !new)>(pairs: map<(R, C), nat>): (grid: map<R, map<C, nat>>)
    ensures forall r :: r in grid <==> exists c :: (r, c) in pairs
    // every row has one column per observed second key
    ensures forall r, c :: r in grid ==> (c in grid[r] <==> exists r' :: (r', c) in pairs)
    ensures forall r, c :: r in grid && c in grid[r] ==>
      grid[r][c] == (if (r, c) in pairs then pairs[(r, c)] else 0)
  {
    var rows := set p | p in pairs :: p.0;
    var cols := set p | p in pairs :: p.1;
    map r | r in rows :: map c | c in cols :: if (r, c) in pairs then pairs[(r, c)] else 0
  }

  /** A table whose counts are all zero sums to zero. */
  lemma {:induction false} TotalOfZeros<K>(m: map<K, nat>)
    requires forall k :: k in m ==> m[k] == 0
    ensures Total(m) == 0
    decreases |m|
  {
    if m != map[] {
      var k := Pick(m);
      assert (m - {k}).Keys < m.Keys;
      TotalOfZeros(m - {k});
    }
  }

  /** The first component of each pair of a two-key column, missing where the pair is. */
  function Firsts<R, C>(pairs: seq<Option<(R, C)>>): seq<Option<R>>
  {
    seq(|pairs|, i requires 0 <= i < |pairs| => if pairs[i].Some? then Some(pairs[i].value.0) else None)
  }

  /** One grid row, filled for every column in cols: the number of rows with first key r and second key c. */
  ghost function GridRow<R, C>(pairs: seq<Option<(R, C)>>, r: R, cols: set<C>): map<C, nat>
  {
    map c | c in cols :: multiset(pairs)[Some((r, c))]
  }

  /**
   * When cols holds every second key that occurs, a grid row sums to the number of
   * rows whose first key is r.
   */
  lemma {:induction false} GridRowTotal<R, C>(pairs: seq<Option<(R, C)>>, r: R, cols: set<C>)
    requires forall i :: 0 <= i < |pairs| && pairs[i].Some? ==> pairs[i].value.1 in cols
    ensures Total(GridRow(pairs, r, cols)) == multiset(Firsts(pairs))[Some(r)]
  {
    if pairs == [] {
      TotalOfZeros(GridRow(pairs, r, cols));
    } else {
      var init, last := pairs[..|pairs| - 1], pairs[|pairs| - 1];
      assert pairs == init + [last];
      GridRowTotal(init, r, cols);
      FirstsSnoc(init, last, r);
      var before := GridRow(init, r, cols);
      if last.Some? && last.value.0 == r {
        var c := last.value.1;
        GridRowSnoc(init, last, r, cols);
        TotalUpdate(before, c, before[c] + 1);
      } else {
        GridRowSnoc(init, last, r, cols);
      }
    }
  }

  lemma FirstsSnoc<R, C>(init: seq<Option<(R, C)>>, last: Option<(R, C)>, r: R)
    ensures multiset(Firsts(init + [last]))[Some(r)]
      == multiset(Firsts(init))[Some(r)] + (if last.Some? && last.value.0 == r then 1 else 0)
  {
    var first := if last.Some? then Some(last.value.0) else None;
    assert Firsts(init + [last]) == Firsts(init) + [first];
  }

  lemma GridRowSnoc<R, C>(init: seq<Option<(R, C)>>, last: Option<(R, C)>, r: R, cols: set<C>)
    requires last.Some? ==> last.value.1 in cols
    ensures var before := GridRow(init, r, cols);
      GridRow(init + [last], r, cols)
        == if last.Some? && last.value.0 == r then before[last.value.1 := before[last.value.1] + 1] else before
  {
    var before, after := GridRow(init, r, cols), GridRow(init + [last], r, cols);
    assert multiset(init + [last]) == multiset(init) + multiset{last};
    if last.Some? && last.value.0 == r {
      var c := last.value.1;
      forall c' | c' in cols
        ensures after[c'] == before[c := before[c] + 1][c']
      {
      }
      assert after == before[c := before[c] + 1];
    } else {
      forall c' | c' in cols
        ensures after[c'] == before[c']
      {
      }
      assert after == before;
    }
  }

  /** Two maps with the same keys and the same value at each key are equal. */
  lemma SameMap<K, V>(a: map<K, V>, b: map<K, V>)
    requires a.Keys == b.Keys
    requires forall k :: k in a ==> a[k] == b[k]
    ensures a == b
  {
  }

  /** The grid has a row for exactly the first keys that occur. */
  lemma UnstackRows<R(!new), C(!new)>(pairs: seq<Option<(R, C)>>)
    ensures forall r :: r in Unstack(CountBy(pairs)) <==> r in CountBy(Firsts(pairs))
  {
    forall r | r in Unstack(CountBy(pairs)) ensures r in CountBy(Firsts(pairs)) {
      UnstackRowObserved(pairs, r);
    }
    forall r | r in CountBy(Firsts(pairs)) ensures r in Unstack(CountBy(pairs)) {
      ObservedUnstackRow(pairs, r);
    }
  }

  /** Cell (r, c) of the grid is the number of (r, c) pairs in the column; 0 when there is none. */
  lemma UnstackCells<R(!new), C(!new)>(pairs: seq<Option<(R, C)>>)
    ensures var grid := Unstack(CountBy(pairs));
      forall r, c :: r in grid && c in grid[r] ==> grid[r][c] == multiset(pairs)[Some((r, c))]
  {
    var grid := Unstack(CountBy(pairs));
    forall r, c | r in grid && c in grid[r]
      ensures grid[r][c] == multiset(pairs)[Some((r, c))]
    {
      if (r, c) !in CountBy(pairs) {
        assert Some((r, c)) !in pairs;
      }
    }
  }

  lemma UnstackRowObserved<R(!new), C(!new)>(pairs: seq<Option<(R, C)>>, r: R)
    requires r in Unstack(CountBy(pairs))
    ensures r in CountBy(Firsts(pairs))
  {
    var counts := CountBy(pairs);
    var c :| (r, c) in counts;
    assert Some((r, c)) in pairs;
    var i :| 0 <= i < |pairs| && pairs[i] == Some((r, c));
    var firsts := Firsts(pairs);
    assert firsts[i] == Some(r);
    assert Some(r) in firsts;
  }

  lemma ObservedUnstackRow<R(!new), C(!new)>(pairs: seq<Option<(R, C)>>, r: R)
    requires r in CountBy(Firsts(pairs))
    ensures r in Unstack(CountBy(pairs))
  {
    var firsts := Firsts(pairs);
    assert Some(r) in firsts;
    var i :| 0 <= i < |firsts| && firsts[i] == Some(r);
    var c := pairs[i].value.1;
    assert pairs[i] == Some((r, c));
    assert Some((r, c)) in pairs;
    var counts := CountBy(pairs);
    assert (r, c) in counts;
  }

  /**
   * Each row of the unstacked grid sums to the number of rows whose first key is r:
   * the zero-filled cells add nothing and every observed pair is in some column.
   */
  lemma UnstackRowTotal<R(!new), C(!new)>(pairs: seq<Option<(R, C)>>, r: R)
    requires r in Unstack(CountBy(pairs))
    ensures Total(Unstack(CountBy(pairs))[r]) == multiset(Firsts(pairs))[Some(r)]
  {
    var counts := CountBy(pairs);
    var grid := Unstack(counts);
    var cols := set p | p in counts :: p.1;
    forall i | 0 <= i < |pairs| && pairs[i].Some?
      ensures pairs[i].value.1 in cols
    {
      assert pairs[i].value in counts;
    }
    forall c ensures c in grid[r] <==> c in cols {
      if c in cols {
        var p :| p in counts && p.1 == c;
        assert (p.0, c) in counts;
      }
    }
    forall c | c in cols ensures grid[r][c] == multiset(pairs)[Some((r, c))] {
      if (r, c) !in counts {
        assert Some((r, c)) !in pairs;
      }
    }
    var row := GridRow(pairs, r, cols);
    assert grid[r].Keys == row.Keys;
    SameMap(grid[r], row);
    GridRowTotal(pairs, r, cols);
  }
}
