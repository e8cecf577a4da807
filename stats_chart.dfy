/**
 * The running-balance series of the balance chart: the trades sorted by
 * date, each point carrying the balance after that trade, and the range and
 * colour the chart derives from the series.
 */
module StatsChart {
  import opened Js
  import opened Calendar
  import opened Folds
  import opened Sorting
  import opened TradeModel

  /** One point of the chart. */
  datatype ChartPoint = ChartPoint(date: string, balance: real, result: real, pair: string)

  /**
   * `new Date(a) - new Date(b) <= 0` for two date strings: chronological
   * when both parse; a date that does not parse gives `NaN`, which the sort
   * reads as "equal".
   */
  predicate DateStrLe(a: string, b: string)
  {
    var da, db := ParseIsoDate(a), ParseIsoDate(b);
    da.Some? && db.Some? ==> DayOrdinal(da.value) <= DayOrdinal(db.value)
  }

  /** The chart's comparator on trades. */
  predicate DateLe(a: Trade, b: Trade)
  {
    DateStrLe(a.date, b.date)
  }

  /** The comparator decides every pair of trades one way or the other. */
  lemma DateLeTotal()
    ensures Total(DateLe)
  {
  }

  /** `[...trades].sort(...)`: a sorted copy. */
  function ByDate(trades: seq<Trade>): seq<Trade>
  {
    SortBy(trades, DateLe)
  }

  /**
   * The series over already sorted trades, carrying the running balance:
   * each point takes one trade's date, result and pair, and the balance
   * after adding that result.
   */
  function Series(sorted: seq<Trade>, balance: real): (r: seq<ChartPoint>)
    ensures |r| == |sorted|
    decreases |sorted|
  {
    if sorted == [] then []
    else
      var t := sorted[0];
      var next := balance + t.finalResult;
      [ChartPoint(t.date, next, t.finalResult, t.pair)] + Series(sorted[1..], next)
  }

  /** Point `i` shows trade `i`'s date, result and pair. */
  lemma {:induction false} SeriesFields(sorted: seq<Trade>, balance: real)
    ensures forall i :: 0 <= i < |sorted| ==>
              Series(sorted, balance)[i].date == sorted[i].date
              && Series(sorted, balance)[i].result == sorted[i].finalResult
              && Series(sorted, balance)[i].pair == sorted[i].pair
    decreases |sorted|
  {
    if sorted != [] {
      var next := balance + sorted[0].finalResult;
      SeriesFields(sorted[1..], next);
      forall i | 1 <= i < |sorted|
        ensures Series(sorted, balance)[i] == Series(sorted[1..], next)[i - 1] && sorted[i] == sorted[1..][i - 1]
      {
      }
    }
  }

  /** One step of the series: the first trade's point, then the series of the rest from the new balance. */
  lemma SeriesCons(sorted: seq<Trade>, balance: real)
    requires sorted != []
    ensures Series(sorted, balance) ==
              [ChartPoint(sorted[0].date, balance + sorted[0].finalResult, sorted[0].finalResult, sorted[0].pair)]
              + Series(sorted[1..], balance + sorted[0].finalResult)
  {
  }

  /** Point `i` carries the starting balance plus the results of the first `i + 1` trades. */
  lemma {:induction false} SeriesBalances(sorted: seq<Trade>, start: real)
    ensures forall i :: 0 <= i < |sorted| ==>
              Series(sorted, start)[i].balance == start + Sum(sorted[..i + 1], FinalResultOf)
    decreases |sorted|
  {
    if sorted != [] {
      var t := sorted[0];
      var next := start + t.finalResult;
      var r, rest := Series(sorted, start), Series(sorted[1..], next);
      SeriesBalances(sorted[1..], next);
      forall i | 0 <= i < |sorted|
        ensures r[i].balance == start + Sum(sorted[..i + 1], FinalResultOf)
      {
        assert sorted[..i + 1][1..] == sorted[1..][..i];
        if i > 0 {
          assert r[i] == rest[i - 1];
        }
      }
    }
  }

  /** Each point's balance is the previous one's plus its own result; the first starts from the starting balance. */
  lemma {:induction false} SeriesSteps(sorted: seq<Trade>, start: real)
    ensures var r := Series(sorted, start);
            (r != [] ==> r[0].balance == start + r[0].result)
            && forall i :: 0 < i < |r| ==> r[i].balance == r[i - 1].balance + r[i].result
    decreases |sorted|
  {
    if sorted != [] {
      var next := start + sorted[0].finalResult;
      var r, rest := Series(sorted, start), Series(sorted[1..], next);
      SeriesSteps(sorted[1..], next);
      forall i | 0 < i < |r| ensures r[i].balance == r[i - 1].balance + r[i].result {
        assert r[i] == rest[i - 1];
        if i > 1 {
          assert r[i - 1] == rest[i - 2];
        }
      }
    }
  }

  /** The last point's balance is the starting balance plus every net result. */
  lemma SeriesLast(sorted: seq<Trade>, start: real)
    requires sorted != []
    ensures Series(sorted, start)[|sorted| - 1].balance == start + Sum(sorted, FinalResultOf)
  {
    SeriesBalances(sorted, start);
    assert sorted[..|sorted|] == sorted;
  }

  /**
   * `chartData`: no trades (or none given) give no points; otherwise the
   * sorted copy is walked once, adding each trade's net result to the
   * running balance.
   */
  method ChartData(trades: Option<seq<Trade>>, startingBalance: real) returns (points: seq<ChartPoint>)
    ensures points == [] <==> trades.None? || trades.value == []
    ensures trades.Some? ==> points == Series(ByDate(trades.value), startingBalance)
    ensures points != [] ==> points[0].balance == startingBalance + points[0].result
    ensures forall i :: 0 < i < |points| ==> points[i].balance == points[i - 1].balance + points[i].result
    ensures forall i :: 0 < i < |points| ==> DateStrLe(points[i - 1].date, points[i].date)
    ensures points != [] ==> points[|points| - 1].balance == startingBalance + Sum(trades.value, FinalResultOf)
  {
    if trades.None? || |trades.value| == 0 {
      return [];
    }
    points := RunningBalances(ByDate(trades.value), startingBalance);
    ChartOrder(trades.value, startingBalance);
    SeriesSteps(ByDate(trades.value), startingBalance);
    ChartLast(trades.value, startingBalance);
  }

  /** The chart's points run in date order. */
  lemma ChartOrder(trades: seq<Trade>, start: real)
    ensures var points := Series(ByDate(trades), start);
            forall i :: 0 < i < |points| ==> DateStrLe(points[i - 1].date, points[i].date)
  {
    var sorted := ByDate(trades);
    DateLeTotal();
    SortByOrdered(trades, DateLe);
    SeriesFields(sorted, start);
  }

  /** The chart's last point is the starting balance plus every net result, in any order of the trades. */
  lemma ChartLast(trades: seq<Trade>, start: real)
    requires trades != []
    ensures Series(ByDate(trades), start)[|trades| - 1].balance == start + Sum(trades, FinalResultOf)
  {
    var sorted := ByDate(trades);
    SeriesLast(sorted, start);
    SumPermutation(sorted, trades, FinalResultOf);
  }

  /** The `map` over the sorted copy, adding each net result to `runningBalance` in turn. */
  method RunningBalances(sorted: seq<Trade>, startingBalance: real) returns (points: seq<ChartPoint>)
    ensures points == Series(sorted, startingBalance)
  {
    var running := startingBalance;
    points := [];
    var i := 0;
    while i < |sorted|
      invariant 0 <= i <= |sorted|
      invariant points + Series(sorted[i..], running) == Series(sorted, startingBalance)
    {
      var t := sorted[i];
      var point := ChartPoint(t.date, running + t.finalResult, t.finalResult, t.pair);
      SeriesCons(sorted[i..], running);
      assert sorted[i..][0] == t && sorted[i..][1..] == sorted[i + 1..];
      assert points + Series(sorted[i..], running) == (points + [point]) + Series(sorted[i + 1..], running + t.finalResult);
      running := running + t.finalResult;
      points := points + [point];
      i := i + 1;
    }
    assert sorted[i..] == [];
  }

  /** `Math.min(startingBalance, ...balances)`. */
  function MinBalance(start: real, points: seq<ChartPoint>): (r: real)
    ensures r <= start && forall i :: 0 <= i < |points| ==> r <= points[i].balance
    ensures r == start || exists i :: 0 <= i < |points| && points[i].balance == r
    decreases |points|
  {
    if points == [] then start
    else
      var m := MinBalance(start, points[1..]);
      assert forall i :: 1 <= i < |points| ==> points[i] == points[1..][i - 1];
      if points[0].balance < m then points[0].balance else m
  }

  /** `Math.max(startingBalance, ...balances)`. */
  function MaxBalance(start: real, points: seq<ChartPoint>): (r: real)
    ensures start <= r && forall i :: 0 <= i < |points| ==> points[i].balance <= r
    ensures r == start || exists i :: 0 <= i < |points| && points[i].balance == r
    decreases |points|
  {
    if points == [] then start
    else
      var m := MaxBalance(start, points[1..]);
      assert forall i :: 1 <= i < |points| ==> points[i] == points[1..][i - 1];
      if points[0].balance > m then points[0].balance else m
  }

  /** `chartData[chartData.length - 1]?.balance >= startingBalance`. */
  predicate IsProfit(start: real, points: seq<ChartPoint>)
  {
    points != [] && points[|points| - 1].balance >= start
  }

  /** The chart is green exactly when there are trades and their net results add up to zero or more. */
  lemma IsProfitIffNonNegative(trades: seq<Trade>, start: real)
    ensures IsProfit(start, Series(ByDate(trades), start)) <==> trades != [] && Sum(trades, FinalResultOf) >= 0.0
  {
    var sorted := ByDate(trades);
    if trades != [] {
      SeriesLast(sorted, start);
      SumPermutation(sorted, trades, FinalResultOf);
    }
  }
}
