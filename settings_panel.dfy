/**
 * The settings panel: the form it opens with, the settings it saves, the
 * risk amounts it previews, and the backup it exports and imports.
 * Percentages are shown ×100 and stored as fractions.
 */
module SettingsPanel {
  import opened Js
  import opened Calendar
  import opened TradeModel
  import opened Ledger

  /**
   * The panel's text fields; `Some(x)` is text that `parseFloat` reads as
   * `x`, `None` text it cannot read (empty included).
   */
  datatype SettingsForm = SettingsForm(
    accountCapital: Option<real>,
    riskPerTrade: Option<real>,
    maxDailyRisk: Option<real>,
    defaultLeverage: Option<real>,
    maxMarginPercent: Option<real>,
    initialAccountBalance: Option<real>)

  /** `settings.x?.toString() || text`: a stored number is shown as is, a missing one as the fallback. */
  function ShownOr(x: Option<real>, fallback: real): Option<real>
  {
    if x.Some? then x else Some(fallback)
  }

  /** The form the panel opens with: amounts as stored, fractions ×100, each with its fallback. */
  function InitialSettingsForm(s: Settings): SettingsForm
  {
    SettingsForm(
      ShownOr(s.accountCapital, 170.0),
      Some(Or(s.riskPerTrade, 0.01) * 100.0),
      Some(Or(s.maxDailyRisk, 0.03) * 100.0),
      ShownOr(s.defaultLeverage, 3.0),
      Some(Or(s.maxMarginPercent, 0.25) * 100.0),
      ShownOr(s.initialAccountBalance, 0.0))
  }

  /**
   * `handleSave`: the six fields parsed, each falling back when empty, zero
   * or unreadable (170, 1 %, 3 %, 3, 25 %, 0), percentages divided by 100;
   * every other setting (the anchor month) is kept.
   */
  function HandleSave(s: Settings, f: SettingsForm): (r: Settings)
    ensures r.baseMonth == s.baseMonth
    ensures f.accountCapital.None? || f.accountCapital == Some(0.0) ==> r.accountCapital == Some(170.0)
    ensures f.riskPerTrade.None? || f.riskPerTrade == Some(0.0) ==> r.riskPerTrade == Some(0.01)
    ensures f.maxDailyRisk.None? || f.maxDailyRisk == Some(0.0) ==> r.maxDailyRisk == Some(0.03)
    ensures f.defaultLeverage.None? || f.defaultLeverage == Some(0.0) ==> r.defaultLeverage == Some(3.0)
    ensures f.maxMarginPercent.None? || f.maxMarginPercent == Some(0.0) ==> r.maxMarginPercent == Some(0.25)
    ensures f.initialAccountBalance.None? ==> r.initialAccountBalance == Some(0.0)
    ensures f.accountCapital.Some? && f.accountCapital.value != 0.0 ==> r.accountCapital == f.accountCapital
    ensures f.riskPerTrade.Some? && f.riskPerTrade.value != 0.0 ==> r.riskPerTrade == Some(f.riskPerTrade.value / 100.0)
    ensures f.maxDailyRisk.Some? && f.maxDailyRisk.value != 0.0 ==> r.maxDailyRisk == Some(f.maxDailyRisk.value / 100.0)
    ensures f.defaultLeverage.Some? && f.defaultLeverage.value != 0.0 ==> r.defaultLeverage == f.defaultLeverage
    ensures f.maxMarginPercent.Some? && f.maxMarginPercent.value != 0.0 ==>
              r.maxMarginPercent == Some(f.maxMarginPercent.value / 100.0)
    ensures f.initialAccountBalance.Some? ==> r.initialAccountBalance == f.initialAccountBalance
  {
    s.(accountCapital := Some(Or(f.accountCapital, 170.0)),
       riskPerTrade := Some(Or(f.riskPerTrade, 1.0) / 100.0),
       maxDailyRisk := Some(Or(f.maxDailyRisk, 3.0) / 100.0),
       defaultLeverage := Some(Or(f.defaultLeverage, 3.0)),
       maxMarginPercent := Some(Or(f.maxMarginPercent, 25.0) / 100.0),
       initialAccountBalance := Some(Or(f.initialAccountBalance, 0.0)))
  }

  /** Every number is set and every one but the initial balance is non-zero. */
  predicate FullySet(s: Settings)
  {
    s.accountCapital.Some? && s.accountCapital.value != 0.0
    && s.riskPerTrade.Some? && s.riskPerTrade.value != 0.0
    && s.maxDailyRisk.Some? && s.maxDailyRisk.value != 0.0
    && s.defaultLeverage.Some? && s.defaultLeverage.value != 0.0
    && s.maxMarginPercent.Some? && s.maxMarginPercent.value != 0.0
    && s.initialAccountBalance.Some?
  }

  /** Opening the panel and saving without changes keeps settings whose numbers are all set and non-zero. */
  lemma SaveUnchangedKeepsSettings(s: Settings)
    requires FullySet(s)
    ensures HandleSave(s, InitialSettingsForm(s)) == s
  {
    OrZeroIsValueOrZero(s.initialAccountBalance);
  }

  /** Opening the panel and saving without changes fills every missing number with its default. */
  lemma SaveUnchangedFillsDefaults(s: Settings)
    requires s.accountCapital.None? && s.riskPerTrade.None? && s.maxDailyRisk.None?
    requires s.defaultLeverage.None? && s.maxMarginPercent.None? && s.initialAccountBalance.None?
    ensures HandleSave(s, InitialSettingsForm(s)) == DefaultSettings.(baseMonth := s.baseMonth)
  {
  }

  /**
   * A stored capital of 0 is shown as "0", which `parseFloat(...) || 170`
   * saves as 170: saving without changes does not keep it.
   */
  lemma SaveUnchangedResetsZeroCapital(s: Settings)
    requires s.accountCapital == Some(0.0)
    ensures HandleSave(s, InitialSettingsForm(s)).accountCapital == Some(170.0)
  {
  }

  /** `riskAmount`: capital times the risk percentage, unreadable fields counting as 0. */
  function RiskAmount(f: SettingsForm): real
  {
    Or(f.accountCapital, 0.0) * (Or(f.riskPerTrade, 0.0) / 100.0)
  }

  /** `maxDailyRiskAmount`: capital times the daily risk percentage, unreadable fields counting as 0. */
  function MaxDailyRiskAmount(f: SettingsForm): real
  {
    Or(f.accountCapital, 0.0) * (Or(f.maxDailyRisk, 0.0) / 100.0)
  }

  /**
   * On the form as opened, the previews are the stored capital times the
   * stored fractions; on any form they are 0 when the capital or the
   * percentage is unreadable.
   */
  lemma RiskAmountsOfSettings(s: Settings, f: SettingsForm)
    ensures FullySet(s) ==>
              RiskAmount(InitialSettingsForm(s)) == s.accountCapital.value * s.riskPerTrade.value
              && MaxDailyRiskAmount(InitialSettingsForm(s)) == s.accountCapital.value * s.maxDailyRisk.value
    ensures f.accountCapital.None? ==> RiskAmount(f) == 0.0 && MaxDailyRiskAmount(f) == 0.0
    ensures f.riskPerTrade.None? ==> RiskAmount(f) == 0.0
    ensures f.maxDailyRisk.None? ==> MaxDailyRiskAmount(f) == 0.0
  {
  }

  /** The exported backup: the settings, the trades, the deposits and the export time, nothing else. */
  datatype Snapshot = Snapshot(settings: Settings, trades: seq<Trade>, monthlyDeposits: map<MonthIndex, real>, exportDate: string)

  /** `handleExportData`'s record. */
  function Export(b: Books, exportDate: string): (r: Snapshot)
    ensures r.settings == b.settings && r.trades == b.trades && r.monthlyDeposits == b.deposits
    ensures r.exportDate == exportDate
  {
    Snapshot(b.settings, b.trades, b.deposits, exportDate)
  }

  /** What `data.trades` turned out to be in an imported file. */
  datatype TradesField = NoTrades | NotAnArray | TradeArray(trades: seq<Trade>)

  /** An imported file's fields; a field that is missing or falsy is `None`. */
  datatype Payload = Payload(settings: Option<Settings>, trades: TradesField, monthlyDeposits: Option<map<MonthIndex, real>>)

  /** The file a snapshot is written as, read back. */
  function PayloadOf(s: Snapshot): Payload
  {
    Payload(Some(s.settings), TradeArray(s.trades), Some(s.monthlyDeposits))
  }

  /**
   * After an import: the books the provider holds, and the deposits written
   * to storage for the next start (the deposits held in memory are not
   * reloaded).
   */
  datatype ImportOutcome = ImportOutcome(books: Books, savedDeposits: Option<map<MonthIndex, real>>)

  /**
   * `handleImportData`, for a provider whose stored trades are the ones it
   * holds. A file that does not parse (`None`) changes nothing. Otherwise
   * each field is applied on its own: the settings when present, the trades
   * when an array (then reloaded), the deposits when present, to storage.
   */
  function Import(b: Books, parsed: Option<Payload>): (r: ImportOutcome)
    ensures parsed.None? ==> r == ImportOutcome(b, None)
    ensures r.books.deposits == b.deposits
    ensures parsed.Some? ==> r.savedDeposits == parsed.value.monthlyDeposits
    ensures parsed.Some? && parsed.value.settings.Some? ==> r.books.settings == parsed.value.settings.value
    ensures parsed.None? || parsed.value.settings.None? ==> r.books.settings == b.settings
    ensures parsed.Some? && parsed.value.trades.TradeArray? ==> r.books.trades == parsed.value.trades.trades
    ensures parsed.None? || !parsed.value.trades.TradeArray? ==> r.books.trades == b.trades
  {
    match parsed
    case None => ImportOutcome(b, None)
    case Some(p) =>
      var settings := if p.settings.Some? then p.settings.value else b.settings;
      var trades := if p.trades.TradeArray? then p.trades.trades else b.trades;
      ImportOutcome(Books(trades, b.deposits, settings), p.monthlyDeposits)
  }

  /**
   * Importing a backup gives back the exported settings and trades and
   * stores the exported deposits; importing one's own backup changes nothing.
   */
  lemma ExportImportRoundTrip(b: Books, c: Books, exportDate: string)
    ensures Import(c, Some(PayloadOf(Export(b, exportDate)))).books == Books(b.trades, c.deposits, b.settings)
    ensures Import(c, Some(PayloadOf(Export(b, exportDate)))).savedDeposits == Some(b.deposits)
    ensures Import(b, Some(PayloadOf(Export(b, exportDate)))).books == b
  {
  }

  /** A file whose trades field is not an array leaves the trades alone, whatever else it holds. */
  lemma ImportIgnoresNonArrayTrades(b: Books, p: Payload)
    requires !p.trades.TradeArray?
    ensures Import(b, Some(p)).books.trades == b.trades
    ensures Import(b, Some(p)).books == Import(b, Some(p.(trades := TradeArray(b.trades)))).books
  {
  }
}
