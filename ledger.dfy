/**
 * The balance resolver: which month anchors the account, what each month
 * realised, and the starting and ending balance of any month, derived by
 * walking back one month at a time to the anchor. Also the all-time totals,
 * a flat sum that must agree with the walk.
 */
module Ledger {
  import opened Js
  import opened Calendar
  import opened Folds
  import opened TradeModel

  /** What the resolver reads: the trade list, the month-to-deposit map and the settings. */
  datatype Books = Books(trades: seq<Trade>, deposits: map<MonthIndex, real>, settings: Settings)

  /**
   * `monthlyDeposits[k]?.deposit || 0`. A stored deposit is never NaN
   * (`setMonthDeposit` stores `parseFloat(x) || 0`), so it is read back as is.
   */
  function Deposit(deposits: map<MonthIndex, real>, k: MonthIndex): real
  {
    if k in deposits then deposits[k] else 0.0
  }

  /** The earliest month among trades whose date parses (`tradeMonths.sort()[0]`), if any. */
  function EarliestTradeMonth(trades: seq<Trade>): (r: Option<MonthIndex>)
    ensures r.None? <==> forall i :: 0 <= i < |trades| ==> TradeMonth(trades[i]).None?
    ensures r.Some? ==> exists i :: 0 <= i < |trades| && TradeMonth(trades[i]) == r
    ensures r.Some? ==> forall i :: 0 <= i < |trades| && TradeMonth(trades[i]).Some? ==>
                          r.value <= TradeMonth(trades[i]).value
    decreases |trades|
  {
    if trades == [] then None
    else
      var rest := EarliestTradeMonth(trades[1..]);
      var here := TradeMonth(trades[0]);
      assert forall i :: 1 <= i < |trades| ==> trades[i] == trades[1..][i - 1];
      if here.None? then rest
      else if rest.None? || here.value <= rest.value then here
      else rest
  }

  /** `getBaseMonth`: the configured month, else the earliest trade month, else the current month. */
  function BaseMonth(b: Books, now: MonthIndex): MonthIndex
  {
    if b.settings.baseMonth.Some? then b.settings.baseMonth.value
    else
      var e := EarliestTradeMonth(b.trades);
      if e.Some? then e.value else now
  }

  /** The three ways the anchor month is chosen. */
  lemma BaseMonthChoice(b: Books, now: MonthIndex)
    ensures b.settings.baseMonth.Some? ==> BaseMonth(b, now) == b.settings.baseMonth.value
    ensures b.settings.baseMonth.None? && (exists i :: 0 <= i < |b.trades| && TradeMonth(b.trades[i]).Some?) ==>
              (exists i :: 0 <= i < |b.trades| && TradeMonth(b.trades[i]) == Some(BaseMonth(b, now)))
              && forall i :: 0 <= i < |b.trades| && TradeMonth(b.trades[i]).Some? ==>
                   BaseMonth(b, now) <= TradeMonth(b.trades[i]).value
    ensures b.settings.baseMonth.None? && (forall i :: 0 <= i < |b.trades| ==> TradeMonth(b.trades[i]).None?) ==>
              BaseMonth(b, now) == now
  {
  }

  /** `getMonthPnL`: the sum of `final_result` over the trades dated inside month `m`. */
  function MonthPnL(trades: seq<Trade>, m: MonthIndex): real
  {
    Sum(MonthlyTrades(trades, m), FinalResultOf)
  }

  /** A month's result does not depend on the order of the trade list. */
  lemma MonthPnLPermutation(a: seq<Trade>, b: seq<Trade>, m: MonthIndex)
    requires multiset(a) == multiset(b)
    ensures MonthPnL(a, m) == MonthPnL(b, m)
  {
    FilterPermutation(a, b, InMonthOf(m));
    SumPermutation(MonthlyTrades(a, m), MonthlyTrades(b, m), FinalResultOf);
  }

  /**
   * `getMonthStartingBalance`: the initial balance up to and including the
   * anchor month; after it, the previous month's starting balance plus that
   * month's deposit and result (the month right after the anchor is computed
   * directly from the anchor, as the application does).
   */
  function StartingBalance(b: Books, now: MonthIndex, m: MonthIndex): real
    decreases m - BaseMonth(b, now)
  {
    var base := BaseMonth(b, now);
    if m <= base then InitialBalance(b.settings)
    else
      var prev := m - 1;
      if prev == base then
        InitialBalance(b.settings) + Deposit(b.deposits, base) + MonthPnL(b.trades, base)
      else
        StartingBalance(b, now, prev) + Deposit(b.deposits, prev) + MonthPnL(b.trades, prev)
  }

  /** `calculateMonthEndingBalance`. */
  function EndingBalance(b: Books, now: MonthIndex, m: MonthIndex): real
  {
    StartingBalance(b, now, m) + Deposit(b.deposits, m) + MonthPnL(b.trades, m)
  }

  /** Up to the anchor the starting balance is the initial balance, whatever the month's trades. */
  lemma StartingBalanceUpToBase(b: Books, now: MonthIndex, m: MonthIndex)
    requires m <= BaseMonth(b, now)
    ensures StartingBalance(b, now, m) == InitialBalance(b.settings)
  {
  }

  /**
   * After the anchor, every month starts where the previous one ended; the
   * source's shortcut for the month after the anchor gives the same value.
   */
  lemma StartingBalanceStep(b: Books, now: MonthIndex, m: MonthIndex)
    requires m > BaseMonth(b, now)
    ensures StartingBalance(b, now, m) == EndingBalance(b, now, m - 1)
  {
    if m - 1 == BaseMonth(b, now) {
      StartingBalanceUpToBase(b, now, m - 1);
    }
  }

  /** The next month starts with this month's ending balance, from the anchor on. */
  lemma EndingBalanceCarriesForward(b: Books, now: MonthIndex, m: MonthIndex)
    requires m >= BaseMonth(b, now)
    ensures StartingBalance(b, now, m + 1) == EndingBalance(b, now, m)
  {
    StartingBalanceStep(b, now, m + 1);
  }

  /** What month `k` adds to the balance: its deposit plus its result. */
  function MonthFlow(b: Books, k: MonthIndex): real
  {
    Deposit(b.deposits, k) + MonthPnL(b.trades, k)
  }

  function FlowOf(b: Books): int -> real
  {
    k => MonthFlow(b, k)
  }

  /**
   * The starting balance as a forward sum: the initial balance plus every
   * month's deposit and result from the anchor up to the month before.
   */
  lemma {:induction false} StartingBalanceClosedForm(b: Books, now: MonthIndex, m: MonthIndex)
    requires m >= BaseMonth(b, now)
    ensures StartingBalance(b, now, m) == InitialBalance(b.settings) + RangeSum(BaseMonth(b, now), m, FlowOf(b))
    decreases m - BaseMonth(b, now)
  {
    var base := BaseMonth(b, now);
    if m == base {
      StartingBalanceUpToBase(b, now, m);
    } else {
      StartingBalanceClosedForm(b, now, m - 1);
      StartingBalanceStep(b, now, m);
    }
  }

  /** `totalBalance`. */
  datatype Totals = Totals(initialCapital: real, totalDeposits: real, allTimePnL: real, currentBalance: real)

  /** `Object.values(monthlyDeposits).reduce((sum, m) => sum + m.deposit, 0)`. */
  ghost function SumDeposits(d: map<MonthIndex, real>): real
  {
    SumOver(d.Keys, DepositOf(d))
  }

  /** `totalBalance`: initial balance, all deposits and all results, summed flat. */
  ghost function ComputeTotals(b: Books): Totals
  {
    var pnl := Sum(b.trades, FinalResultOf);
    var deposits := SumDeposits(b.deposits);
    var initial := InitialBalance(b.settings);
    Totals(initial, deposits, pnl, initial + deposits + pnl)
  }

  function DepositOf(d: map<MonthIndex, real>): int -> real
  {
    k => Deposit(d, k)
  }

  function PnLOf(trades: seq<Trade>): int -> real
  {
    k => MonthPnL(trades, k)
  }

  /** Summed over a span of months holding every deposit, the monthly deposits give the deposit total. */
  lemma DepositRangeTotal(d: map<MonthIndex, real>, lo: int, hi: int)
    requires forall k :: k in d ==> lo <= k < hi
    ensures RangeSum(lo, hi, DepositOf(d)) == SumDeposits(d)
  {
    RangeSumOverKeys(lo, hi, d.Keys, DepositOf(d));
  }

  /** A month's result over a list with one more trade in front. */
  lemma MonthPnLCons(t: Trade, rest: seq<Trade>, k: MonthIndex)
    ensures MonthPnL([t] + rest, k) == (if InMonth(t, k) then t.finalResult else 0.0) + MonthPnL(rest, k)
  {
    assert ([t] + rest)[1..] == rest;
    assert MonthlyTrades([t] + rest, k) == (if InMonth(t, k) then [t] + MonthlyTrades(rest, k) else MonthlyTrades(rest, k));
    if InMonth(t, k) {
      assert ([t] + MonthlyTrades(rest, k))[1..] == MonthlyTrades(rest, k);
    }
  }

  /** What one trade adds to each month's result. */
  function TradeSpike(t: Trade): int -> real
  {
    k => if InMonth(t, k) then t.finalResult else 0.0
  }

  /** Month by month, the results of a list with one more trade in front gain that trade's spike. */
  lemma MonthPnLConsPointwise(t: Trade, rest: seq<Trade>, lo: int, hi: int)
    ensures forall k :: lo <= k < hi ==> PnLOf([t] + rest)(k) == TradeSpike(t)(k) + PnLOf(rest)(k)
  {
    forall k | lo <= k < hi
      ensures PnLOf([t] + rest)(k) == TradeSpike(t)(k) + PnLOf(rest)(k)
    {
      MonthPnLCons(t, rest, k);
    }
  }

  /** Summed over a span holding the trade's month, one trade's spike is its result. */
  lemma SpikeTotal(t: Trade, lo: int, hi: int)
    requires TradeMonth(t).Some? && lo <= TradeMonth(t).value < hi
    ensures RangeSum(lo, hi, TradeSpike(t)) == t.finalResult
  {
    RangeSumSingle(lo, hi, TradeSpike(t), TradeMonth(t).value, t.finalResult);
  }

  /** Over a span holding the trade's month, one more trade in front adds its result to the monthly total. */
  lemma PnLRangeCons(t: Trade, rest: seq<Trade>, lo: int, hi: int)
    requires TradeMonth(t).Some? && lo <= TradeMonth(t).value < hi
    ensures RangeSum(lo, hi, PnLOf([t] + rest)) == t.finalResult + RangeSum(lo, hi, PnLOf(rest))
  {
    MonthPnLConsPointwise(t, rest, lo, hi);
    RangeSumAdd(lo, hi, PnLOf([t] + rest), TradeSpike(t), PnLOf(rest));
    SpikeTotal(t, lo, hi);
  }

  /** Summed over a span of months holding every trade's month, the monthly results give the all-time result. */
  lemma {:induction false} PnLRangeTotal(trades: seq<Trade>, lo: int, hi: int)
    requires forall i :: 0 <= i < |trades| ==> TradeMonth(trades[i]).Some? && lo <= TradeMonth(trades[i]).value < hi
    ensures RangeSum(lo, hi, PnLOf(trades)) == Sum(trades, FinalResultOf)
    decreases |trades|
  {
    if trades == [] {
      RangeSumSingle(lo, hi, PnLOf(trades), lo, 0.0);
    } else {
      var t, rest := trades[0], trades[1..];
      assert trades == [t] + rest;
      assert forall i :: 0 <= i < |rest| ==> rest[i] == trades[i + 1];
      PnLRangeTotal(rest, lo, hi);
      PnLRangeCons(t, rest, lo, hi);
    }
  }

  /** The ending balance as a forward sum: the initial balance plus every month's flow from the anchor through `m`. */
  lemma EndingBalanceClosedForm(b: Books, now: MonthIndex, m: MonthIndex)
    requires m >= BaseMonth(b, now)
    ensures EndingBalance(b, now, m) == InitialBalance(b.settings) + RangeSum(BaseMonth(b, now), m + 1, FlowOf(b))
  {
    var base := BaseMonth(b, now);
    StartingBalanceClosedForm(b, now, m);
    RangeSumSnoc(base, m, FlowOf(b));
    assert FlowOf(b)(m) == Deposit(b.deposits, m) + MonthPnL(b.trades, m);
  }

  /** Over a span holding every deposit and every trade's month, the monthly flows add up to all deposits plus all results. */
  lemma FlowRangeTotal(b: Books, lo: int, hi: int)
    requires forall i :: 0 <= i < |b.trades| ==> TradeMonth(b.trades[i]).Some? && lo <= TradeMonth(b.trades[i]).value < hi
    requires forall k :: k in b.deposits ==> lo <= k < hi
    ensures RangeSum(lo, hi, FlowOf(b)) == SumDeposits(b.deposits) + Sum(b.trades, FinalResultOf)
  {
    RangeSumAdd(lo, hi, FlowOf(b), DepositOf(b.deposits), PnLOf(b.trades));
    DepositRangeTotal(b.deposits, lo, hi);
    PnLRangeTotal(b.trades, lo, hi);
  }

  /**
   * The flat all-time total agrees with the month-by-month walk: when every
   * trade is dated and every trade and deposit lies between the anchor and
   * month `m`, the current balance is the ending balance of `m`.
   */
  lemma TotalsMatchEndingBalance(b: Books, now: MonthIndex, m: MonthIndex)
    requires BaseMonth(b, now) <= m
    requires forall i :: 0 <= i < |b.trades| ==>
               TradeMonth(b.trades[i]).Some? && BaseMonth(b, now) <= TradeMonth(b.trades[i]).value <= m
    requires forall k :: k in b.deposits ==> BaseMonth(b, now) <= k <= m
    ensures ComputeTotals(b).currentBalance == EndingBalance(b, now, m)
  {
    EndingBalanceClosedForm(b, now, m);
    FlowRangeTotal(b, BaseMonth(b, now), m + 1);
  }
}
