/**
 * The records the ledger works on: a trade, the fields the trade form
 * submits, the partial record an edit spreads over a stored trade, and the
 * settings record. The month a trade belongs to is derived from its date.
 */
module TradeModel {
  import opened Js
  import opened Calendar
  import opened Folds

  datatype Direction = Long | Short

  /**
   * A stored trade. `finalResult` is stored alongside the two amounts it is
   * derived from; the form computes it, the store does not (see Merge).
   * A missing `notes` behaves as the empty string for every use below.
   */
  datatype Trade = Trade(
    id: string,
    date: string,
    pair: string,
    direction: Direction,
    balanceTrade: real,
    commission: real,
    finalResult: real,
    notes: string,
    createdAt: string)

  /** The record the trade form submits: a trade without its id and creation time. */
  datatype TradeData = TradeData(
    date: string,
    pair: string,
    direction: Direction,
    balanceTrade: real,
    commission: real,
    finalResult: real,
    notes: string)

  /** A partial trade: the fields present are spread over a stored trade. */
  datatype TradeUpdate = TradeUpdate(
    id: Option<string>,
    date: Option<string>,
    pair: Option<string>,
    direction: Option<Direction>,
    balanceTrade: Option<real>,
    commission: Option<real>,
    finalResult: Option<real>,
    notes: Option<string>,
    createdAt: Option<string>)

  function Pick<T>(u: Option<T>, old_: T): T
  {
    if u.Some? then u.value else old_
  }

  /** `{ ...t, ...u }`: each field of `u` that is present overrides the stored one; nothing is recomputed. */
  function Merge(t: Trade, u: TradeUpdate): Trade
  {
    Trade(Pick(u.id, t.id), Pick(u.date, t.date), Pick(u.pair, t.pair), Pick(u.direction, t.direction),
      Pick(u.balanceTrade, t.balanceTrade), Pick(u.commission, t.commission),
      Pick(u.finalResult, t.finalResult), Pick(u.notes, t.notes), Pick(u.createdAt, t.createdAt))
  }

  /** `{ ...trade, id, created_at }`: the record `addTrade` stores. */
  function NewTrade(data: TradeData, id: string, createdAt: string): Trade
  {
    Trade(id, data.date, data.pair, data.direction, data.balanceTrade, data.commission,
      data.finalResult, data.notes, createdAt)
  }

  /** The submitted form record used as an update: every form field present, id and creation time absent. */
  function UpdateOf(data: TradeData): TradeUpdate
  {
    TradeUpdate(None, Some(data.date), Some(data.pair), Some(data.direction), Some(data.balanceTrade),
      Some(data.commission), Some(data.finalResult), Some(data.notes), None)
  }

  /** The stored net result agrees with the amounts it is derived from. */
  predicate Consistent(t: Trade)
  {
    t.finalResult == t.balanceTrade - t.commission
  }

  predicate DataConsistent(d: TradeData)
  {
    d.finalResult == d.balanceTrade - d.commission
  }

  /**
   * Editing through the form: the stored trade keeps its id and creation
   * time and takes every other field from the form, so it is consistent
   * exactly when the form's record is.
   */
  lemma MergeFormRecord(t: Trade, data: TradeData)
    ensures Merge(t, UpdateOf(data)) == NewTrade(data, t.id, t.createdAt)
    ensures Consistent(Merge(t, UpdateOf(data))) <==> DataConsistent(data)
  {
  }

  /**
   * The merge does not recompute the net result: an update that changes
   * only the gross amount leaves a previously consistent trade stale.
   */
  lemma MergeLeavesFinalResultStale(t: Trade, gross: real)
    requires Consistent(t) && gross != t.balanceTrade
    ensures !Consistent(Merge(t, TradeUpdate(None, None, None, None, Some(gross), None, None, None, None)))
  {
  }

  function FinalResultOf(t: Trade): real { t.finalResult }
  function BalanceTradeOf(t: Trade): real { t.balanceTrade }
  function CommissionOf(t: Trade): real { t.commission }

  /** `format(parseISO(t.date), 'yyyy-MM')`, or `None` when the date does not parse. */
  function TradeMonth(t: Trade): Option<MonthIndex>
  {
    var d := ParseIsoDate(t.date);
    if d.Some? then Some(MonthOfDate(d.value)) else None
  }

  /** `isWithinInterval(parseISO(t.date), { start: startOfMonth, end: endOfMonth })`. */
  predicate InMonth(t: Trade, m: MonthIndex)
  {
    TradeMonth(t) == Some(m)
  }

  function InMonthOf(m: MonthIndex): Trade -> bool
  {
    t => InMonth(t, m)
  }

  /** The trades dated inside month `m` (`monthlyTrades`, and the filter inside `getMonthPnL`). */
  function MonthlyTrades(trades: seq<Trade>, m: MonthIndex): seq<Trade>
  {
    Filter(trades, InMonthOf(m))
  }

  /** A trade is in the month's list exactly when it is stored and its date falls in that month. */
  lemma MonthlyTradesMembers(trades: seq<Trade>, m: MonthIndex, t: Trade)
    ensures t in MonthlyTrades(trades, m) <==>
              t in trades && ParseIsoDate(t.date).Some? && MonthOfDate(ParseIsoDate(t.date).value) == m
  {
    FilterMembers(trades, InMonthOf(m), t);
  }

  /**
   * The settings record. Every number may be missing (a settings object
   * saved before a field existed, or imported); `baseMonth` is the optional
   * `yyyy-MM` anchor, as a month index.
   */
  datatype Settings = Settings(
    accountCapital: Option<real>,
    riskPerTrade: Option<real>,
    maxDailyRisk: Option<real>,
    defaultLeverage: Option<real>,
    maxMarginPercent: Option<real>,
    initialAccountBalance: Option<real>,
    baseMonth: Option<MonthIndex>)

  /** The settings used when none were saved. */
  const DefaultSettings := Settings(Some(170.0), Some(0.01), Some(0.03), Some(3.0), Some(0.25), Some(0.0), None)

  /** `settings.initialAccountBalance || 0`. */
  function InitialBalance(s: Settings): real
  {
    Or(s.initialAccountBalance, 0.0)
  }
}
