/**
 * The monthly statistics bundle: the win/loss split, totals and averages,
 * the three-way profit factor, the long/short split, the per-pair counters
 * and the month's capital and ending balance.
 */
module Statistics {
  import opened Js
  import opened Calendar
  import opened Folds
  import opened TradeModel
  import opened Ledger

  /** `totalProfit / totalLoss`, or `Infinity`; the application's plain `0` is `Finite(0.0)`. */
  datatype ProfitFactor = Finite(value: real) | PosInf

  /** One pair's counters in `byPair`. */
  datatype PairStats = PairStats(trades: nat, profit: real, wins: nat)

  /**
   * The `byPair` object: counters by pair name, with the names in the order
   * they were first added (the order `Object.entries` lists them in).
   */
  datatype PairTable = PairTable(order: seq<string>, stats: map<string, PairStats>)

  predicate IsWinner(t: Trade) { t.balanceTrade > 0.0 }
  predicate IsLoser(t: Trade) { t.balanceTrade < 0.0 }
  predicate IsLong(t: Trade) { t.direction == Long }
  predicate IsShort(t: Trade) { t.direction == Short }

  function PairIs(p: string): Trade -> bool
  {
    (t: Trade) => t.pair == p
  }

  /** The month's trades on pair `p`. */
  function PairTrades(s: seq<Trade>, p: string): seq<Trade>
  {
    Filter(s, PairIs(p))
  }

  /** The reducer's body for one trade: one more trade, its net result, and a win if its gross amount is positive. */
  function CountTrade(st: PairStats, t: Trade): PairStats
  {
    PairStats(st.trades + 1, st.profit + t.finalResult, if IsWinner(t) then st.wins + 1 else st.wins)
  }

  /** One step of the `byPair` reduce: create the pair's counters on first sight, then count the trade. */
  function AddToTable(tbl: PairTable, t: Trade): PairTable
  {
    if t.pair in tbl.stats then PairTable(tbl.order, tbl.stats[t.pair := CountTrade(tbl.stats[t.pair], t)])
    else PairTable(tbl.order + [t.pair], tbl.stats[t.pair := CountTrade(PairStats(0, 0.0, 0), t)])
  }

  /** `monthTrades.reduce(..., {})`: the per-pair counters, folded from the first trade to the last. */
  function ByPair(s: seq<Trade>): PairTable
    decreases |s|
  {
    if s == [] then PairTable([], map[]) else AddToTable(ByPair(s[..|s| - 1]), s[|s| - 1])
  }

  /** The `byPair` reduce as the application runs it, updating one accumulator dictionary in place. */
  method AccumulateByPair(s: seq<Trade>) returns (tbl: PairTable)
    ensures tbl == ByPair(s)
  {
    var order: seq<string> := [];
    var acc: map<string, PairStats> := map[];
    var i := 0;
    while i < |s|
      invariant 0 <= i <= |s|
      invariant PairTable(order, acc) == ByPair(s[..i])
    {
      var t := s[i];
      if t.pair !in acc {
        acc := acc[t.pair := PairStats(0, 0.0, 0)];
        order := order + [t.pair];
      }
      var st := acc[t.pair];
      acc := acc[t.pair := PairStats(st.trades + 1, st.profit + t.finalResult, st.wins)];
      if t.balanceTrade > 0.0 {
        acc := acc[t.pair := acc[t.pair].(wins := acc[t.pair].wins + 1)];
      }
      assert s[..i + 1][..i] == s[..i];
      i := i + 1;
    }
    assert s[..i] == s;
    tbl := PairTable(order, acc);
  }

  /** Every name listed once, and the listed names are exactly the keys. */
  ghost predicate WellFormed(tbl: PairTable)
  {
    (forall i, j :: 0 <= i < j < |tbl.order| ==> tbl.order[i] != tbl.order[j])
    && (forall p :: p in tbl.stats <==> p in tbl.order)
  }

  /** One reduce step, seen from one pair: only the traded pair's counters change. */
  lemma AddToTableAt(tbl: PairTable, t: Trade, p: string)
    ensures p in AddToTable(tbl, t).stats <==> p in tbl.stats || p == t.pair
    ensures p == t.pair ==>
              AddToTable(tbl, t).stats[p] == CountTrade(if p in tbl.stats then tbl.stats[p] else PairStats(0, 0.0, 0), t)
    ensures p != t.pair && p in tbl.stats ==> AddToTable(tbl, t).stats[p] == tbl.stats[p]
  {
  }

  /** Splitting off the last trade of the month. */
  lemma PairTradesSnoc(s: seq<Trade>, p: string)
    requires s != []
    ensures var s', t := s[..|s| - 1], s[|s| - 1];
            PairTrades(s, p) == if t.pair == p then PairTrades(s', p) + [t] else PairTrades(s', p)
  {
    var s', t := s[..|s| - 1], s[|s| - 1];
    assert s == s' + [t];
    FilterAppend(s', [t], PairIs(p));
    if t.pair == p {
      assert Filter([t], PairIs(p)) == [t];
    } else {
      assert Filter([t], PairIs(p)) == [];
    }
  }

  /** Some trade of the month is on pair `p`. */
  ghost predicate Traded(s: seq<Trade>, p: string)
  {
    exists i :: 0 <= i < |s| && s[i].pair == p
  }

  lemma TradedSnoc(s: seq<Trade>, p: string)
    requires s != []
    ensures Traded(s, p) <==> Traded(s[..|s| - 1], p) || s[|s| - 1].pair == p
  {
    var s' := s[..|s| - 1];
    if Traded(s, p) && s[|s| - 1].pair != p {
      var i :| 0 <= i < |s| && s[i].pair == p;
      assert s'[i] == s[i];
    }
    if Traded(s', p) {
      var i :| 0 <= i < |s'| && s'[i].pair == p;
      assert s[i] == s'[i];
    }
  }

  /** The table has counters for exactly the pairs that were traded. */
  lemma {:induction false} ByPairKeys(s: seq<Trade>, p: string)
    ensures p in ByPair(s).stats <==> Traded(s, p)
    ensures p !in ByPair(s).stats ==> PairTrades(s, p) == []
    decreases |s|
  {
    if s != [] {
      var s', t := s[..|s| - 1], s[|s| - 1];
      ByPairKeys(s', p);
      AddToTableAt(ByPair(s'), t, p);
      PairTradesSnoc(s, p);
      TradedSnoc(s, p);
    }
  }

  /** The counters a list of trades should have. */
  function CountersOf(trades: seq<Trade>): PairStats
  {
    PairStats(|trades|, Sum(trades, FinalResultOf), |Filter(trades, IsWinner)|)
  }

  /** Counting one more trade gives the counters of the longer list. */
  lemma CountTradeSnoc(before: seq<Trade>, t: Trade)
    ensures CountTrade(CountersOf(before), t) == CountersOf(before + [t])
  {
    SumAppend(before, [t], FinalResultOf);
    assert Sum([t], FinalResultOf) == t.finalResult;
    FilterAppend(before, [t], IsWinner);
    assert Filter([t], IsWinner) == if IsWinner(t) then [t] else [];
  }

  /** The counters of a pair are its trade count, the sum of its net results and its number of winners. */
  lemma {:induction false} ByPairEntry(s: seq<Trade>, p: string)
    requires p in ByPair(s).stats
    ensures ByPair(s).stats[p] == CountersOf(PairTrades(s, p))
    decreases |s|
  {
    var s', t := s[..|s| - 1], s[|s| - 1];
    AddToTableAt(ByPair(s'), t, p);
    PairTradesSnoc(s, p);
    if t.pair == p {
      var before := PairTrades(s', p);
      if p in ByPair(s').stats {
        ByPairEntry(s', p);
      } else {
        ByPairKeys(s', p);
        assert CountersOf(before) == PairStats(0, 0.0, 0);
      }
      CountTradeSnoc(before, t);
    } else {
      ByPairEntry(s', p);
    }
  }

  /** The reduce lists each pair once, and lists exactly the pairs it has counters for. */
  lemma {:induction false} ByPairWellFormed(s: seq<Trade>)
    ensures WellFormed(ByPair(s))
    decreases |s|
  {
    if s != [] {
      ByPairWellFormed(s[..|s| - 1]);
    }
  }

  /** Every pair in the table traded at least once and won at most as often as it traded. */
  lemma ByPairBounds(s: seq<Trade>, p: string)
    requires p in ByPair(s).stats
    ensures 1 <= ByPair(s).stats[p].trades
    ensures ByPair(s).stats[p].wins <= ByPair(s).stats[p].trades
  {
    ByPairKeys(s, p);
    ByPairEntry(s, p);
    var i :| 0 <= i < |s| && s[i].pair == p;
    FilterMembers(s, PairIs(p), s[i]);
  }

  /** The counters do not depend on the order of the trades; only the listing order does. */
  lemma ByPairPermutation(a: seq<Trade>, b: seq<Trade>)
    requires multiset(a) == multiset(b)
    ensures ByPair(a).stats == ByPair(b).stats
    ensures forall p :: p in ByPair(a).order <==> p in ByPair(b).order
  {
    ByPairWellFormed(a);
    ByPairWellFormed(b);
    forall p ensures p in ByPair(a).stats <==> p in ByPair(b).stats {
      ByPairKeys(a, p);
      ByPairKeys(b, p);
      if Traded(a, p) {
        var i :| 0 <= i < |a| && a[i].pair == p;
        assert a[i] in multiset(b);
        var j :| 0 <= j < |b| && b[j] == a[i];
      }
      if Traded(b, p) {
        var j :| 0 <= j < |b| && b[j].pair == p;
        assert b[j] in multiset(a);
        var i :| 0 <= i < |a| && a[i] == b[j];
      }
    }
    forall p | p in ByPair(a).stats ensures ByPair(a).stats[p] == ByPair(b).stats[p] {
      ByPairEntry(a, p);
      ByPairEntry(b, p);
      FilterPermutation(a, b, PairIs(p));
      SumPermutation(PairTrades(a, p), PairTrades(b, p), FinalResultOf);
      FilterPermutation(PairTrades(a, p), PairTrades(b, p), IsWinner);
    }
  }

  /** A sum over the listed pairs of one of their counters; names without counters add nothing. */
  function TableSum(order: seq<string>, stats: map<string, PairStats>, f: PairStats -> real): real
    decreases |order|
  {
    if order == [] then 0.0
    else
      var p := order[|order| - 1];
      TableSum(order[..|order| - 1], stats, f) + (if p in stats then f(stats[p]) else 0.0)
  }

  /** Changing the counters of a pair that is not listed changes no listed sum. */
  lemma {:induction false} TableSumUnlisted(order: seq<string>, stats: map<string, PairStats>, p: string, v: PairStats,
                                           f: PairStats -> real)
    requires p !in order
    ensures TableSum(order, stats[p := v], f) == TableSum(order, stats, f)
    decreases |order|
  {
    if order != [] {
      TableSumUnlisted(order[..|order| - 1], stats, p, v, f);
    }
  }

  /** Changing the counters of a pair listed once changes the sum by the difference. */
  lemma {:induction false} TableSumListed(order: seq<string>, stats: map<string, PairStats>, p: string, v: PairStats,
                                         f: PairStats -> real)
    requires forall i, j :: 0 <= i < j < |order| ==> order[i] != order[j]
    requires p in order && p in stats
    ensures TableSum(order, stats[p := v], f) == TableSum(order, stats, f) - f(stats[p]) + f(v)
    decreases |order|
  {
    var init := order[..|order| - 1];
    if order[|order| - 1] == p {
      assert forall i :: 0 <= i < |init| ==> init[i] == order[i];
      TableSumUnlisted(init, stats, p, v, f);
    } else {
      assert p in init by {
        var i :| 0 <= i < |order| && order[i] == p;
        assert init[i] == p;
      }
      TableSumListed(init, stats, p, v, f);
    }
  }

  function TradesOf(st: PairStats): real { st.trades as real }
  function ProfitOf(st: PairStats): real { st.profit }
  function WinsOf(st: PairStats): real { st.wins as real }

  /**
   * Conservation: over all pairs, the trade counts add up to the number of
   * trades, the profits to the month's net result and the wins to the
   * number of winners.
   */
  lemma {:induction false} ByPairConservation(s: seq<Trade>)
    ensures TableSum(ByPair(s).order, ByPair(s).stats, TradesOf) == |s| as real
    ensures TableSum(ByPair(s).order, ByPair(s).stats, ProfitOf) == Sum(s, FinalResultOf)
    ensures TableSum(ByPair(s).order, ByPair(s).stats, WinsOf) == |Filter(s, IsWinner)| as real
    decreases |s|
  {
    if s != [] {
      var s', t := s[..|s| - 1], s[|s| - 1];
      assert s == s' + [t];
      ByPairConservation(s');
      ByPairWellFormed(s');
      SumAppend(s', [t], FinalResultOf);
      FilterAppend(s', [t], IsWinner);
      var tbl := ByPair(s');
      if t.pair in tbl.stats {
        TableSumListed(tbl.order, tbl.stats, t.pair, CountTrade(tbl.stats[t.pair], t), TradesOf);
        TableSumListed(tbl.order, tbl.stats, t.pair, CountTrade(tbl.stats[t.pair], t), ProfitOf);
        TableSumListed(tbl.order, tbl.stats, t.pair, CountTrade(tbl.stats[t.pair], t), WinsOf);
      } else {
        var v := CountTrade(PairStats(0, 0.0, 0), t);
        var order := tbl.order + [t.pair];
        assert order[..|order| - 1] == tbl.order;
        TableSumUnlisted(tbl.order, tbl.stats, t.pair, v, TradesOf);
        TableSumUnlisted(tbl.order, tbl.stats, t.pair, v, ProfitOf);
        TableSumUnlisted(tbl.order, tbl.stats, t.pair, v, WinsOf);
      }
    }
  }

  /** The statistics bundle of a month. */
  datatype Stats = Stats(
    totalTrades: nat,
    winningTrades: nat,
    losingTrades: nat,
    winRate: real,
    totalProfit: real,
    totalLoss: real,
    netResult: real,
    totalCommissions: real,
    averageWin: real,
    averageLoss: real,
    profitFactor: ProfitFactor,
    largestWin: real,
    largestLoss: real,
    monthStartingBalance: real,
    monthDeposit: real,
    operatingCapital: real,
    monthEndingBalance: real,
    monthPnL: real,
    monthPnLPercent: real,
    longTrades: nat,
    shortTrades: nat,
    longWinRate: real,
    shortWinRate: real,
    byPair: PairTable)

  /** `whole > 0 ? (part / whole) * 100 : 0`. */
  function Rate(part: nat, whole: nat): real
  {
    if whole > 0 then (part as real / whole as real) * 100.0 else 0.0
  }

  /** The three-way profit factor. */
  function ProfitFactorOf(totalProfit: real, totalLoss: real): ProfitFactor
  {
    if totalLoss > 0.0 then Finite(totalProfit / totalLoss)
    else if totalProfit > 0.0 then PosInf
    else Finite(0.0)
  }

  /** Of non-negative totals: `+∞` exactly when there is profit and no loss, `0` exactly when there is no profit. */
  lemma ProfitFactorCases(totalProfit: real, totalLoss: real)
    requires totalProfit >= 0.0 && totalLoss >= 0.0
    ensures ProfitFactorOf(totalProfit, totalLoss) == PosInf <==> totalLoss == 0.0 && totalProfit > 0.0
    ensures ProfitFactorOf(totalProfit, totalLoss) == Finite(0.0) <==> totalProfit == 0.0
    ensures totalLoss > 0.0 ==> ProfitFactorOf(totalProfit, totalLoss) == Finite(totalProfit / totalLoss)
  {
    if totalLoss > 0.0 && totalProfit > 0.0 {
      assert totalProfit / totalLoss > 0.0;
    }
  }

  /** `n > 0 ? total / n : 0`. */
  function Average(total: real, n: nat): real
  {
    if n > 0 then total / n as real else 0.0
  }

  /** An average times the count gives back the total, and a positive total has a positive average. */
  lemma AverageTimesCount(total: real, n: nat)
    ensures n > 0 ==> Average(total, n) * n as real == total
    ensures n > 0 && total > 0.0 ==> Average(total, n) > 0.0
    ensures n == 0 ==> Average(total, n) == 0.0
  {
  }

  /** `base > 0 ? (x / base) * 100 : 0`: a result as a percentage of a positive capital. */
  function PercentOf(x: real, base: real): real
  {
    if base > 0.0 then (x / base) * 100.0 else 0.0
  }

  /** The local constants of the `stats` memo for a month with trades. */
  datatype Tally = Tally(
    count: nat,
    winners: nat,
    losers: nat,
    totalProfit: real,
    totalLoss: real,
    netResult: real,
    totalCommissions: real,
    largestWin: real,
    largestLoss: real,
    longs: nat,
    shorts: nat,
    longWins: nat,
    shortWins: nat)

  /**
   * The win/loss and long/short splits and their totals. The source's
   * `t.commission || 0` is the commission itself, as a stored commission is
   * a number.
   */
  function TallyOf(s: seq<Trade>): Tally
  {
    var winners := Filter(s, IsWinner);
    var losers := Filter(s, IsLoser);
    var longs := Filter(s, IsLong);
    var shorts := Filter(s, IsShort);
    Tally(
      |s|,
      |winners|,
      |losers|,
      Sum(winners, BalanceTradeOf),
      Abs(Sum(losers, BalanceTradeOf)),
      Sum(s, FinalResultOf),
      Sum(s, CommissionOf),
      if |winners| > 0 then Max(winners, BalanceTradeOf) else 0.0,
      if |losers| > 0 then Min(losers, BalanceTradeOf) else 0.0,
      |longs|,
      |shorts|,
      |Filter(longs, IsWinner)|,
      |Filter(shorts, IsWinner)|)
  }

  /** The returned object of a month with trades, built from its tally, its pair table and its capital. */
  function Assemble(t: Tally, byPair: PairTable, startingBalance: real, deposit: real): Stats
  {
    var operatingCapital := startingBalance + deposit;
    Stats(
      t.count,
      t.winners,
      t.losers,
      Rate(t.winners, t.count),
      t.totalProfit,
      t.totalLoss,
      t.netResult,
      t.totalCommissions,
      Average(t.totalProfit, t.winners),
      Average(t.totalLoss, t.losers),
      ProfitFactorOf(t.totalProfit, t.totalLoss),
      t.largestWin,
      t.largestLoss,
      startingBalance,
      deposit,
      operatingCapital,
      operatingCapital + t.netResult,
      t.netResult,
      PercentOf(t.netResult, operatingCapital),
      t.longs,
      t.shorts,
      Rate(t.longWins, t.longs),
      Rate(t.shortWins, t.shorts),
      byPair)
  }

  /**
   * The `stats` memo for the trades of one month, its starting balance and
   * its deposit. A month without trades gets zeros and its capital as its
   * ending balance.
   */
  function ComputeStats(monthTrades: seq<Trade>, startingBalance: real, deposit: real): Stats
  {
    var operatingCapital := startingBalance + deposit;
    if |monthTrades| == 0 then
      Stats(0, 0, 0, 0.0, 0.0, 0.0, 0.0, 0.0, 0.0, 0.0, Finite(0.0), 0.0, 0.0,
        startingBalance, deposit, operatingCapital, operatingCapital, 0.0, 0.0,
        0, 0, 0.0, 0.0, PairTable([], map[]))
    else
      Assemble(TallyOf(monthTrades), ByPair(monthTrades), startingBalance, deposit)
  }

  /** A rate of a part of a whole lies in [0, 100], is 0 exactly when the part is empty or the whole is, and 100 exactly when the part is all of a non-empty whole. */
  lemma RateBounds(part: nat, whole: nat)
    requires part <= whole
    ensures 0.0 <= Rate(part, whole) <= 100.0
    ensures Rate(part, whole) == 0.0 <==> part == 0
    ensures Rate(part, whole) == 100.0 <==> 0 < part == whole
  {
    if whole > 0 {
      var w, p := whole as real, part as real;
      var q := p / w;
      assert q * w == p;
      assert (1.0 - q) * w == w - p;
      FactorSign(q, w);
      FactorSign(1.0 - q, w);
    }
  }

  /** Times a positive number, a factor keeps its sign. */
  lemma FactorSign(a: real, w: real)
    requires w > 0.0
    ensures a * w >= 0.0 ==> a >= 0.0
    ensures a * w == 0.0 ==> a == 0.0
  {
    if a < 0.0 {
      assert a * w < 0.0;
    } else if a > 0.0 {
      assert a * w > 0.0;
    }
  }

  /**
   * The counts: winners and losers are disjoint trades of the month, and
   * every trade is long or short.
   */
  lemma StatsCounts(s: seq<Trade>, start: real, deposit: real)
    ensures var r := ComputeStats(s, start, deposit);
            r.totalTrades == |s|
            && r.winningTrades + r.losingTrades <= r.totalTrades
            && r.longTrades + r.shortTrades == r.totalTrades
            && r.winningTrades == |Filter(s, IsWinner)| && r.losingTrades == |Filter(s, IsLoser)|
  {
    FilterDisjointCount(s, IsWinner, IsLoser);
    FilterDisjointCount(s, IsLong, IsShort);
  }

  /** Each rate lies in [0, 100] and is 0 when its subset of trades is empty. */
  lemma StatsRates(s: seq<Trade>, start: real, deposit: real)
    ensures var r := ComputeStats(s, start, deposit);
            0.0 <= r.winRate <= 100.0 && 0.0 <= r.longWinRate <= 100.0 && 0.0 <= r.shortWinRate <= 100.0
            && (r.winRate == 0.0 <==> r.winningTrades == 0)
            && (r.winRate == 100.0 <==> 0 < r.winningTrades == r.totalTrades)
            && (r.longTrades == 0 ==> r.longWinRate == 0.0)
            && (r.shortTrades == 0 ==> r.shortWinRate == 0.0)
  {
    if |s| > 0 {
      var longs := Filter(s, IsLong);
      var shorts := Filter(s, IsShort);
      RateBounds(|Filter(s, IsWinner)|, |s|);
      RateBounds(|Filter(longs, IsWinner)|, |longs|);
      RateBounds(|Filter(shorts, IsWinner)|, |shorts|);
    }
  }

  function LossOf(t: Trade): real { -t.balanceTrade }

  /** The winners' gross amounts sum to a non-negative total, positive exactly when there is a winner. */
  lemma ProfitSign(s: seq<Trade>)
    ensures Sum(Filter(s, IsWinner), BalanceTradeOf) >= 0.0
    ensures Sum(Filter(s, IsWinner), BalanceTradeOf) > 0.0 <==> |Filter(s, IsWinner)| > 0
  {
    var w := Filter(s, IsWinner);
    SumNonNegative(w, BalanceTradeOf);
    if |w| > 0 {
      assert BalanceTradeOf(w[0]) > 0.0;
    }
  }

  /** The losers' gross amounts sum to a non-positive total, negative exactly when there is a loser. */
  lemma LossSign(s: seq<Trade>)
    ensures Sum(Filter(s, IsLoser), BalanceTradeOf) <= 0.0
    ensures Sum(Filter(s, IsLoser), BalanceTradeOf) < 0.0 <==> |Filter(s, IsLoser)| > 0
  {
    var l := Filter(s, IsLoser);
    SumNonNegative(l, LossOf);
    SumZero(l, ZeroOf);
    SumDifference(l, BalanceTradeOf, ZeroOf, LossOf);
    if |l| > 0 {
      assert LossOf(l[0]) > 0.0;
    }
  }

  function ZeroOf(t: Trade): real { 0.0 }

  /**
   * The profit factor: the ratio of the totals when there is a loss; `+∞`
   * exactly when there is no loser but some winner; `0` exactly when there
   * is no winner. Neither total is ever negative.
   */
  lemma StatsProfitFactor(s: seq<Trade>, start: real, deposit: real)
    ensures var r := ComputeStats(s, start, deposit);
            r.totalProfit >= 0.0 && r.totalLoss >= 0.0
            && (r.totalProfit > 0.0 <==> r.winningTrades > 0)
            && (r.totalLoss > 0.0 <==> r.losingTrades > 0)
            && (r.totalLoss > 0.0 ==> r.profitFactor == Finite(r.totalProfit / r.totalLoss))
            && (r.profitFactor == PosInf <==> r.losingTrades == 0 && r.winningTrades > 0)
            && (r.profitFactor == Finite(0.0) <==> r.winningTrades == 0)
  {
    if |s| > 0 {
      ProfitSign(s);
      LossSign(s);
      var totalProfit := Sum(Filter(s, IsWinner), BalanceTradeOf);
      var totalLoss := Abs(Sum(Filter(s, IsLoser), BalanceTradeOf));
      ProfitFactorCases(totalProfit, totalLoss);
    }
  }

  /** Every trade of the month is a winner, a loser or neither. */
  lemma {:induction false} GrossSplit(s: seq<Trade>)
    ensures Sum(s, BalanceTradeOf) == Sum(Filter(s, IsWinner), BalanceTradeOf) + Sum(Filter(s, IsLoser), BalanceTradeOf)
    decreases |s|
  {
    if s != [] {
      GrossSplit(s[1..]);
    }
  }

  /**
   * When every trade's net result is its gross amount less its commission,
   * the month's net result is the profit less the loss less the commissions.
   */
  lemma StatsNetResult(s: seq<Trade>, start: real, deposit: real)
    requires forall i :: 0 <= i < |s| ==> Consistent(s[i])
    ensures var r := ComputeStats(s, start, deposit);
            r.netResult == r.totalProfit - r.totalLoss - r.totalCommissions
  {
    if |s| > 0 {
      SumDifference(s, FinalResultOf, BalanceTradeOf, CommissionOf);
      GrossSplit(s);
      LossSign(s);
    }
  }

  /** The largest gross amount among the winners is the largest of the month, when some trade won. */
  lemma LargestWin(s: seq<Trade>)
    requires |Filter(s, IsWinner)| > 0
    ensures Max(Filter(s, IsWinner), BalanceTradeOf) > 0.0
    ensures forall i :: 0 <= i < |s| ==> s[i].balanceTrade <= Max(Filter(s, IsWinner), BalanceTradeOf)
    ensures exists i :: 0 <= i < |s| && s[i].balanceTrade == Max(Filter(s, IsWinner), BalanceTradeOf)
  {
    var w := Filter(s, IsWinner);
    var m := Max(w, BalanceTradeOf);
    var k :| 0 <= k < |w| && BalanceTradeOf(w[k]) == m;
    assert w[k] in multiset(s);
    assert IsWinner(w[k]);
    forall i | 0 <= i < |s| ensures s[i].balanceTrade <= m {
      if IsWinner(s[i]) {
        FilterMembers(s, IsWinner, s[i]);
        var j :| 0 <= j < |w| && w[j] == s[i];
        assert BalanceTradeOf(w[j]) <= m;
      } else {
        assert BalanceTradeOf(w[0]) <= m;
        assert IsWinner(w[0]);
      }
    }
  }

  /** The smallest gross amount among the losers is the smallest of the month, when some trade lost. */
  lemma LargestLoss(s: seq<Trade>)
    requires |Filter(s, IsLoser)| > 0
    ensures Min(Filter(s, IsLoser), BalanceTradeOf) < 0.0
    ensures forall i :: 0 <= i < |s| ==> Min(Filter(s, IsLoser), BalanceTradeOf) <= s[i].balanceTrade
    ensures exists i :: 0 <= i < |s| && s[i].balanceTrade == Min(Filter(s, IsLoser), BalanceTradeOf)
  {
    var l := Filter(s, IsLoser);
    var m := Min(l, BalanceTradeOf);
    var k :| 0 <= k < |l| && BalanceTradeOf(l[k]) == m;
    assert l[k] in multiset(s);
    assert IsLoser(l[k]);
    forall i | 0 <= i < |s| ensures m <= s[i].balanceTrade {
      if IsLoser(s[i]) {
        FilterMembers(s, IsLoser, s[i]);
        var j :| 0 <= j < |l| && l[j] == s[i];
        assert m <= BalanceTradeOf(l[j]);
      } else {
        assert m <= BalanceTradeOf(l[0]);
        assert IsLoser(l[0]);
      }
    }
  }

  /**
   * The largest win is the largest gross amount of the month when some trade
   * won, and 0 otherwise; the largest loss is the smallest gross amount when
   * some trade lost, and 0 otherwise.
   */
  lemma StatsExtremes(s: seq<Trade>, start: real, deposit: real)
    ensures var r := ComputeStats(s, start, deposit);
            (r.winningTrades > 0 ==>
               (r.largestWin > 0.0
                && (forall i :: 0 <= i < |s| ==> s[i].balanceTrade <= r.largestWin)
                && (exists i :: 0 <= i < |s| && s[i].balanceTrade == r.largestWin)))
            && (r.winningTrades == 0 ==> r.largestWin == 0.0)
            && (r.losingTrades > 0 ==>
                  (r.largestLoss < 0.0
                   && (forall i :: 0 <= i < |s| ==> r.largestLoss <= s[i].balanceTrade)
                   && (exists i :: 0 <= i < |s| && s[i].balanceTrade == r.largestLoss)))
            && (r.losingTrades == 0 ==> r.largestLoss == 0.0)
  {
    if |s| > 0 {
      var r := ComputeStats(s, start, deposit);
      var w := Filter(s, IsWinner);
      var l := Filter(s, IsLoser);
      assert r.winningTrades == |w| && r.losingTrades == |l|;
      if |w| > 0 {
        assert r.largestWin == Max(w, BalanceTradeOf);
        LargestWin(s);
      }
      if |l| > 0 {
        assert r.largestLoss == Min(l, BalanceTradeOf);
        LargestLoss(s);
      }
    }
  }

  /** The averages times the counts give back the totals, and are positive when anything is counted. */
  predicate AveragesRecoverTotals(r: Stats)
  {
    (r.winningTrades > 0 ==> r.averageWin * r.winningTrades as real == r.totalProfit && r.averageWin > 0.0)
    && (r.losingTrades > 0 ==> r.averageLoss * r.losingTrades as real == r.totalLoss && r.averageLoss > 0.0)
    && (r.winningTrades == 0 ==> r.averageWin == 0.0)
    && (r.losingTrades == 0 ==> r.averageLoss == 0.0)
  }

  /** Assembled from non-negative totals that are positive exactly when counted, the averages recover the totals. */
  lemma AssembleAverages(t: Tally, byPair: PairTable, start: real, deposit: real)
    requires t.totalProfit >= 0.0 && (t.totalProfit > 0.0 <==> t.winners > 0)
    requires t.totalLoss >= 0.0 && (t.totalLoss > 0.0 <==> t.losers > 0)
    ensures AveragesRecoverTotals(Assemble(t, byPair, start, deposit))
  {
    AverageTimesCount(t.totalProfit, t.winners);
    AverageTimesCount(t.totalLoss, t.losers);
  }

  /** The month's average win and loss times their counts give back the total profit and loss. */
  lemma StatsAverages(s: seq<Trade>, start: real, deposit: real)
    ensures AveragesRecoverTotals(ComputeStats(s, start, deposit))
  {
    if |s| > 0 {
      ProfitSign(s);
      LossSign(s);
      AssembleAverages(TallyOf(s), ByPair(s), start, deposit);
    }
  }

  /**
   * The month's capital and balances: operating capital is the starting
   * balance plus the deposit; the month's result is the sum of its trades'
   * net results; the ending balance adds that to the capital, with or
   * without trades; the percentage is taken of a positive capital only.
   */
  lemma StatsBalances(s: seq<Trade>, start: real, deposit: real)
    ensures var r := ComputeStats(s, start, deposit);
            r.monthStartingBalance == start && r.monthDeposit == deposit
            && r.operatingCapital == start + deposit
            && r.monthPnL == Sum(s, FinalResultOf) && r.netResult == r.monthPnL
            && r.monthEndingBalance == r.operatingCapital + r.monthPnL
            && r.monthPnLPercent == (if r.operatingCapital > 0.0 then r.monthPnL / r.operatingCapital * 100.0 else 0.0)
            && (s == [] ==> r.monthEndingBalance == r.operatingCapital)
  {
  }

  /**
   * The per-pair counters of the bundle add up to its totals, and every
   * listed pair traded at least once and won at most as often.
   */
  lemma StatsByPair(s: seq<Trade>, start: real, deposit: real)
    ensures var r := ComputeStats(s, start, deposit);
            WellFormed(r.byPair)
            && TableSum(r.byPair.order, r.byPair.stats, TradesOf) == r.totalTrades as real
            && TableSum(r.byPair.order, r.byPair.stats, ProfitOf) == r.netResult
            && TableSum(r.byPair.order, r.byPair.stats, WinsOf) == r.winningTrades as real
            && forall p :: p in r.byPair.stats ==> 1 <= r.byPair.stats[p].trades && r.byPair.stats[p].wins <= r.byPair.stats[p].trades
  {
    if |s| > 0 {
      ByPairWellFormed(s);
      ByPairConservation(s);
      forall p | p in ByPair(s).stats
        ensures 1 <= ByPair(s).stats[p].trades && ByPair(s).stats[p].wins <= ByPair(s).stats[p].trades
      {
        ByPairBounds(s, p);
      }
    }
  }

  /** Reordering the month's trades keeps every count, sum and extreme the bundle is built from. */
  lemma TallyPermutation(a: seq<Trade>, b: seq<Trade>)
    requires multiset(a) == multiset(b)
    ensures TallyOf(a) == TallyOf(b)
  {
    assert |a| == |multiset(a)| == |multiset(b)| == |b|;
    FilterPermutation(a, b, IsWinner);
    FilterPermutation(a, b, IsLoser);
    FilterPermutation(a, b, IsLong);
    FilterPermutation(a, b, IsShort);
    var wa, wb := Filter(a, IsWinner), Filter(b, IsWinner);
    var la, lb := Filter(a, IsLoser), Filter(b, IsLoser);
    SumPermutation(wa, wb, BalanceTradeOf);
    SumPermutation(la, lb, BalanceTradeOf);
    SumPermutation(a, b, FinalResultOf);
    SumPermutation(a, b, CommissionOf);
    FilterPermutation(Filter(a, IsLong), Filter(b, IsLong), IsWinner);
    FilterPermutation(Filter(a, IsShort), Filter(b, IsShort), IsWinner);
    if |wa| > 0 {
      MaxMinPermutation(wa, wb, BalanceTradeOf);
    }
    if |la| > 0 {
      MaxMinPermutation(la, lb, BalanceTradeOf);
    }
  }

  /**
   * Reordering the month's trades changes nothing in the bundle but the
   * order in which `byPair` lists its pairs.
   */
  lemma StatsPermutation(a: seq<Trade>, b: seq<Trade>, start: real, deposit: real)
    requires multiset(a) == multiset(b)
    ensures ComputeStats(a, start, deposit).(byPair := ComputeStats(b, start, deposit).byPair) == ComputeStats(b, start, deposit)
    ensures ComputeStats(a, start, deposit).byPair.stats == ComputeStats(b, start, deposit).byPair.stats
  {
    assert |a| == |multiset(a)| == |multiset(b)| == |b|;
    if |a| > 0 {
      TallyPermutation(a, b);
      ByPairPermutation(a, b);
    }
  }

  /** The bundle for month `m` of the books, as the context computes it. */
  function MonthStats(b: Books, now: MonthIndex, m: MonthIndex): Stats
  {
    ComputeStats(MonthlyTrades(b.trades, m), StartingBalance(b, now, m), Deposit(b.deposits, m))
  }

  /**
   * The bundle agrees with the balance resolver: its result is the month's
   * result, its ending balance is the month's ending balance, and from the
   * anchor on the next month starts from it.
   */
  lemma MonthStatsMatchLedger(b: Books, now: MonthIndex, m: MonthIndex)
    ensures MonthStats(b, now, m).monthPnL == MonthPnL(b.trades, m)
    ensures MonthStats(b, now, m).monthEndingBalance == EndingBalance(b, now, m)
    ensures m >= BaseMonth(b, now) ==> StartingBalance(b, now, m + 1) == MonthStats(b, now, m).monthEndingBalance
  {
    MonthStatsEnding(b, now, m);
    if m >= BaseMonth(b, now) {
      EndingBalanceCarriesForward(b, now, m);
    }
  }

  /** The bundle's result and ending balance for a month of the books. */
  lemma MonthStatsEnding(b: Books, now: MonthIndex, m: MonthIndex)
    ensures MonthStats(b, now, m).monthPnL == MonthPnL(b.trades, m)
    ensures MonthStats(b, now, m).monthEndingBalance == EndingBalance(b, now, m)
  {
    StatsEnding(MonthlyTrades(b.trades, m), StartingBalance(b, now, m), Deposit(b.deposits, m));
  }

  /** The bundle's result is the sum of net results, and its ending balance adds it to the operating capital. */
  lemma StatsEnding(s: seq<Trade>, start: real, deposit: real)
    ensures ComputeStats(s, start, deposit).monthPnL == Sum(s, FinalResultOf)
    ensures ComputeStats(s, start, deposit).monthEndingBalance == start + deposit + Sum(s, FinalResultOf)
  {
    StatsBalances(s, start, deposit);
  }
}
