/**
 * The statistics the category and author endpoints compute in the handler
 * rather than in the database: the view total, the article count, the rounded
 * average, and the per-key counts built by a `reduce` that bumps
 * `acc[key] = (acc[key] || 0) + 1` in an accumulator dictionary.
 */
module Tally {
  import Seqs

  /** `acc[key] || 0`: the count stored for `key`, or 0 when there is none. */
  function Get(acc: map<string, nat>, key: string): nat {
    if key in acc then acc[key] else 0
  }

  /** The dictionary the counting `reduce` leaves after visiting `keys` in order. */
  function Histogram(keys: seq<string>): map<string, nat> {
    if keys == [] then map[]
    else
      var acc := Histogram(keys[..|keys| - 1]);
      var key := keys[|keys| - 1];
      acc[key := Get(acc, key) + 1]
  }

  /** Each key is counted as often as it occurs, and only keys that occur are present. */
  lemma {:induction false} HistogramCounts(keys: seq<string>)
    ensures forall key :: Get(Histogram(keys), key) == multiset(keys)[key]
    ensures forall key :: key in Histogram(keys) <==> key in keys
  {
    if keys != [] {
      var init := keys[..|keys| - 1];
      HistogramCounts(init);
      assert keys == init + [keys[|keys| - 1]];
    }
  }

  /** The sum of the counts in a dictionary. */
  ghost function Total(acc: map<string, nat>): nat
    decreases |acc.Keys|
  {
    if acc == map[] then 0
    else
      var key :| key in acc;
      acc[key] + Total(acc - {key})
  }

  /** The sum does not depend on which key is taken out first. */
  lemma {:induction false} TotalWithout(acc: map<string, nat>, key: string)
    requires key in acc
    ensures Total(acc) == acc[key] + Total(acc - {key})
    decreases |acc.Keys|
  {
    var first :| first in acc && Total(acc) == acc[first] + Total(acc - {first});
    if first != key {
      var rest := acc - {first};
      var other := acc - {key};
      assert |rest.Keys| < |acc.Keys| by { assert rest.Keys < acc.Keys; }
      assert |other.Keys| < |acc.Keys| by { assert other.Keys < acc.Keys; }
      TotalWithout(rest, key);
      TotalWithout(other, first);
      assert rest - {key} == other - {first};
    }
  }

  /** Counting one more key raises the sum of the counts by one. */
  lemma TotalBump(acc: map<string, nat>, key: string)
    ensures Total(acc[key := Get(acc, key) + 1]) == Total(acc) + 1
  {
    var after := acc[key := Get(acc, key) + 1];
    TotalWithout(after, key);
    if key in acc {
      TotalWithout(acc, key);
      assert after - {key} == acc - {key};
    } else {
      assert after - {key} == acc;
    }
  }

  /** The counts sum to the number of keys visited. */
  lemma {:induction false} HistogramTotal(keys: seq<string>)
    ensures Total(Histogram(keys)) == |keys|
  {
    if keys != [] {
      HistogramTotal(keys[..|keys| - 1]);
      TotalBump(Histogram(keys[..|keys| - 1]), keys[|keys| - 1]);
    }
  }

  /** The counting `reduce`, one bump per key, in order. */
  method CountBy(keys: seq<string>) returns (acc: map<string, nat>)
    ensures acc == Histogram(keys)
  {
    acc := map[];
    for i := 0 to |keys|
      invariant acc == Histogram(keys[..i])
    {
      Seqs.PrefixSnoc(keys, i);
      assert keys[..i + 1][..i] == keys[..i];
      acc := acc[keys[i] := Get(acc, keys[i]) + 1];
    }
    assert keys[..|keys|] == keys;
  }

  /** `reduce((sum, x) => sum + x, 0)`. */
  function Sum(values: seq<nat>): nat {
    if values == [] then 0 else Sum(values[..|values| - 1]) + values[|values| - 1]
  }

  /** No single value exceeds the sum. */
  lemma {:induction false} SumBounds(values: seq<nat>, i: nat)
    requires i < |values|
    ensures values[i] <= Sum(values)
  {
    if i < |values| - 1 {
      SumBounds(values[..|values| - 1], i);
    }
  }

  /** `Math.round(total / count)` for natural operands: the nearest integer, halves rounded up. */
  function RoundedMean(total: nat, count: nat): (r: nat)
    requires count > 0
    ensures 2 * total < 2 * r * count + count
    ensures 2 * r * count <= 2 * total + count
  {
    var r := (2 * total + count) / (2 * count);
    assert 2 * total + count == r * (2 * count) + (2 * total + count) % (2 * count);
    r
  }

  /** `count > 0 ? Math.round(total / count) : 0`. */
  function AverageViews(total: nat, count: nat): (avg: nat)
    ensures count == 0 ==> avg == 0
    ensures count > 0 ==> 2 * total < 2 * avg * count + count && 2 * avg * count <= 2 * total + count
  {
    if count > 0 then RoundedMean(total, count) else 0
  }

  /** One published article as the stats query selects it. */
  datatype StatRow = StatRow(viewCount: nat, month: string, group: string)

  function ViewCount(r: StatRow): nat { r.viewCount }
  function MonthOf(r: StatRow): string { r.month }
  function GroupOf(r: StatRow): string { r.group }

  /** The `data` object of a stats response; `groupCounts` is by author name or by category name. */
  datatype Stats = Stats(
    totalArticles: nat,
    totalViews: nat,
    avgViews: nat,
    groupCounts: map<string, nat>,
    monthlyStats: map<string, nat>)

  /**
   * `stats` is what the handlers report for `rows`: the article count, the view
   * total and its rounded mean, and two dictionaries holding, for each group
   * name and each month key that occurs, the number of rows that carry it, so
   * that the counts of either dictionary add up to the article count.
   */
  ghost predicate Describes(stats: Stats, rows: seq<StatRow>) {
    && stats.totalArticles == |rows|
    && stats.totalViews == Sum(Seqs.Map(ViewCount, rows))
    && stats.avgViews == AverageViews(stats.totalViews, stats.totalArticles)
    && (forall g :: Get(stats.groupCounts, g) == multiset(Seqs.Map(GroupOf, rows))[g])
    && (forall m :: Get(stats.monthlyStats, m) == multiset(Seqs.Map(MonthOf, rows))[m])
    && (forall g :: g in stats.groupCounts <==> g in Seqs.Map(GroupOf, rows))
    && (forall m :: m in stats.monthlyStats <==> m in Seqs.Map(MonthOf, rows))
    && Total(stats.groupCounts) == |rows|
    && Total(stats.monthlyStats) == |rows|
  }

  /** The statistics of the selected articles, computed as the handlers do. */
  method Summarize(rows: seq<StatRow>) returns (stats: Stats)
    ensures Describes(stats, rows)
  {
    var totalViews := Sum(Seqs.Map(ViewCount, rows));
    var totalArticles := |rows|;
    var groups := Seqs.Map(GroupOf, rows);
    var months := Seqs.Map(MonthOf, rows);
    var groupCounts := CountBy(groups);
    var monthlyStats := CountBy(months);
    HistogramCounts(groups);
    HistogramCounts(months);
    HistogramTotal(groups);
    HistogramTotal(months);
    stats := Stats(totalArticles, totalViews, AverageViews(totalViews, totalArticles), groupCounts, monthlyStats);
  }
}
