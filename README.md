# Trading-risk ledger in Dafny

This project models the ledger and statistics engine of the trading-risk
journal. It is a single-page application where a trader records closed
trades, and each trade has:

- a date, a currency pair and a direction;
- a gross result (`balance_trade`) and a commission;
- the net result (`final_result`).

The trader also records a deposit for any month. The application derives:

- each month's starting and ending balance, carried forward month by month
  from a base month;
- the month's statistics: win and loss counts, win rates, profit and loss
  totals, averages, the profit factor, the long/short split and per-pair
  figures;
- all-time totals;
- the running-balance chart;
- the sortable, filterable trade table;
- the figures and labels shown on the dashboard.

The model is organised by the program's own structure:

| file | module | models |
|---|---|---|
| `js.dfy` | `Js` | `Option` for a number that may be `NaN`/missing; `x \|\| d` on numbers |
| `text.dfy` | `Text` | ASCII case mapping, `includes`, `split`, decimal digits, string order |
| `calendar.dfy` | `Calendar` | parsing `yyyy-MM-dd`, month indices, the `yyyy-MM` month key and its order |
| `folds.dfy` | `Folds` | `reduce` sums, `filter`, `Math.max`/`Math.min`, sums over month ranges |
| `sorting.dfy` | `Sorting` | `Array.prototype.sort` as a stable sort by a comparator |
| `trade_model.dfy` | `TradeModel` | trade, form record, partial update, settings, the month filter |
| `ledger.dfy` | `Ledger` | base month, month P&L, starting/ending balance, all-time totals |
| `statistics.dfy` | `Statistics` | the monthly `stats` bundle and its per-pair table |
| `trade_store.dfy` | `TradeStore` | the in-memory store: add, update, delete, month deposits |
| `stats_chart.dfy` | `StatsChart` | the running-balance series, its range and colour |
| `trades_table.dfy` | `TradesTable` | search, direction filter, column sort, the sort toggle |
| `trade_form.dfy` | `TradeForm` | the submitted trade record, the net-result preview, the date display |
| `settings_panel.dfy` | `SettingsPanel` | the settings form, saving, risk amounts, export and import |
| `dashboard.dfy` | `Dashboard` | rentability, currency/percent text, profit-factor text and label, bars, pair ranking |

## Modelling choices

- **Month keys.** A month key `yyyy-MM` is the integer `year * 12 + month - 1`.
  `Calendar.MonthKeyOrder` proves that the application's string comparison of
  keys (`monthKey <= baseMonth`) is the integer comparison, for four-digit
  years. The recursion of the starting balance then terminates on
  `m - base`. The ledger's month arithmetic matches the application only
  for years 100 to 9999; see "Left out" for years 0 to 99.
- **Money.** Money is `real`.
  - A number that `parseFloat` could not read (`NaN`) is `None` of an `Option<real>`.
  - `x || d` (`Js.Or`) falls back to `d` both for `NaN` and for `0`.
  - The profit factor is `Finite(r) | PosInf`.
- **Dates.**
  - A trade's date is kept as its stored string.
  - `parseISO` is modelled for the stored `yyyy-MM-dd` form, and a string
    that is not a real calendar day is an Invalid Date.
  - Instants compare by a day ordinal (`Calendar.DayOrdinal`), which is
    proved chronological.
- **Sorting.** `sort` is modelled as a stable insertion sort. JavaScript's
  sort is stable, so it yields the same order whenever the comparator is
  consistent. That holds for the table's comparator. It holds for the
  chart's date comparator when every date parses, as it does for the
  month's trades that the dashboard passes to the chart.
- **The store.**
  - It is a class whose `trades`, `deposits` and `settings` fields its
    methods reassign.
  - Identifiers and creation times are parameters; a fresh identifier is a
    precondition of `AddTrade`.
  - The current month (`new Date()`) is the parameter `now`.
- **The chart.** `chartData` is a method with a loop carrying the running
  balance. It is proved against the function `Series`.
- **The table.** `filteredTrades` is a method that reassigns `result` through
  the two filters and then sorts it.
- **Imports.** The import handler writes the payload to storage and reloads
  the trades. The model returns the new in-memory books together with the
  deposits it saved for the next load.

Where the code does something a reader might not expect, the model follows
the code:

- A pair's win count can be 0, for a pair whose trades all lost money. Only
  `1 <= trades` and `wins <= trades` hold (`Statistics.ByPairBounds`).
- `updateTrade` spreads the caller's fields over the stored trade and does
  not recompute `final_result`. A gross amount changed on its own leaves a
  stale net result (`TradeModel.MergeLeavesFinalResultStale`).
- Import decides each field on its own:
  - settings are applied when present;
  - trades only when they form an array;
  - deposits are saved when present.

  A payload that is partly malformed is not rejected as a whole. The deposits
  in memory are not reloaded by the import itself.
- Saving the settings form with a capital of `0` stores `170`: `0 || 170` is
  `170`. `SettingsPanel.SaveUnchangedResetsZeroCapital` states this.

## Model

| member | source | states |
|---|---|---|
| Calendar.ParseIsoDate | src/context/TradesContext.jsx:103-104 | a string parses iff it has the `yyyy-MM-dd` shape and its fields name a real calendar day, and the date is then those fields with a four-digit year; any other string is an Invalid Date |
| Calendar.ParseIsoDateRejectsNonDay | src/context/TradesContext.jsx:103-104 | `2024-02-30` and `2023-02-29` are Invalid Dates, while the leap day `2024-02-29` parses |
| Calendar.DayOrdinalChronological | src/context/TradesContext.jsx:126-131 | comparing day ordinals is comparing (year, month, day); equal ordinals mean the same date; an earlier month means an earlier day |
| Calendar.MonthKey | src/context/TradesContext.jsx:89-91 | `format(date, 'yyyy-MM')` is seven characters with a dash at position 4 |
| Calendar.MonthKeyOrder | src/context/TradesContext.jsx:144 | for four-digit years, month keys compare as strings exactly as the months compare in time, and equal keys mean equal months |
| Calendar.MonthKeyInjective | src/context/TradesContext.jsx:152-155 | distinct months have distinct keys, so the `prevMonthKey === baseMonth` test is a test on months |
| Text.ToLower | src/components/TradesTable.jsx:32-35 | `toLowerCase` keeps the length and maps each character on its own, `A`–`Z` to `a`–`z` |
| Text.ToLowerIdempotent | src/components/TradesTable.jsx:32-35 | lower-casing twice is lower-casing once, so the already lower-cased term matches as intended |
| Text.ContainsAt | src/components/TradesTable.jsx:34-35 | `includes` holds exactly when the term occurs at some position |
| Text.Split | src/components/TradeForm.jsx:96 | `split('-')` yields at least one piece and no piece contains a dash |
| Text.SplitFirst | src/components/TradeForm.jsx:96 | splitting `a-b` with no dash in `a` gives `a` followed by the pieces of `b` |
| Text.NatToStringValue | src/components/Dashboard.jsx:44 | the decimal digits of a whole number read back as that number |
| Text.PadDigitsOrder | src/context/TradesContext.jsx:144 | zero-padded numbers of one width compare as strings exactly as the numbers compare |
| Folds.SumPermutation | src/context/TradesContext.jsx:135 | a `reduce` sum does not depend on the order of the list |
| Folds.FilterPermutation | src/context/TradesContext.jsx:126-133 | filtering lists that are permutations of each other gives permutations of each other |
| Folds.Max | src/context/TradesContext.jsx:533 | `Math.max(...xs)` is at least every element and is one of them |
| Folds.Min | src/context/TradesContext.jsx:534 | `Math.min(...xs)` is at most every element and is one of them |
| Sorting.SortBy | src/components/StatsChart.jsx:17-19 | sorting keeps the length and the multiset of elements |
| Sorting.SortByOrdered | src/components/TradesTable.jsx:45-57 | with a comparator that decides every pair, the sorted copy is ordered and a permutation of the input |
| TradeModel.Merge | src/context/TradesContext.jsx:365 | `{ ...t, ...updates }`: each field the update carries replaces the stored one; `MergeFormRecord` and `MergeLeavesFinalResultStale` state what this keeps and what it leaves stale |
| TradeModel.MonthlyTrades | src/context/TradesContext.jsx:434-446 | the trades whose date parses to a day of the selected month, in stored order; `MonthlyTradesMembers` states membership in both directions |
| TradeModel.MergeFormRecord | src/context/TradesContext.jsx:365 | spreading a full form record over a trade gives that record with the trade's id and creation time; the result is consistent iff the record is |
| TradeModel.MergeLeavesFinalResultStale | src/context/TradesContext.jsx:365 | spreading a new gross amount alone over a consistent trade leaves `final_result` out of step with it |
| TradeModel.MonthlyTradesMembers | src/context/TradesContext.jsx:434-446 | a trade is in the selected month's list iff it is stored and its date parses to a day in that month |
| Ledger.BaseMonth | src/context/TradesContext.jsx:94-117 | `getBaseMonth`; `BaseMonthChoice` states which of the configured month, the earliest trade month and the current month it is |
| Ledger.MonthPnL | src/context/TradesContext.jsx:120-136 | `getMonthPnL`: the sum of the net results of the trades dated in the month; `MonthPnLPermutation` and `PnLRangeTotal` state its order independence and its sum over a range |
| Ledger.StartingBalance | src/context/TradesContext.jsx:140-168 | `getMonthStartingBalanceInternal`, recursing back to the base month; `StartingBalanceUpToBase`, `StartingBalanceStep` and `StartingBalanceClosedForm` state its value |
| Ledger.EndingBalance | src/context/TradesContext.jsx:171-177 | `calculateMonthEndingBalance`: start plus deposit plus P&L; `EndingBalanceCarriesForward` and `EndingBalanceClosedForm` state its value |
| Ledger.ComputeTotals | src/context/TradesContext.jsx:550-561 | `totalBalance`: initial capital, deposit total, all-time P&L and their sum; `TotalsMatchEndingBalance` and `DepositRangeTotal` relate it to the monthly ledger |
| Ledger.EarliestTradeMonth | src/context/TradesContext.jsx:101-112 | none iff no trade date parses; otherwise the month of some trade and no later than the month of any trade that parses |
| Ledger.BaseMonthChoice | src/context/TradesContext.jsx:94-117 | the base month is the configured one when set, else the earliest month among trades that parse, else the current month |
| Ledger.MonthPnLPermutation | src/context/TradesContext.jsx:120-136 | a month's P&L is the same for any order of the trade list |
| Ledger.StartingBalanceUpToBase | src/context/TradesContext.jsx:144-146 | every month up to the base month starts at `initialAccountBalance \|\| 0`, whatever its trades |
| Ledger.StartingBalanceStep | src/context/TradesContext.jsx:149-167 | after the base month, a month starts at the previous month's ending balance; the base-month shortcut agrees with the recursion |
| Ledger.EndingBalanceCarriesForward | src/context/TradesContext.jsx:163-177 | from the base month on, the next month starts at this month's ending balance |
| Ledger.StartingBalanceClosedForm | src/context/TradesContext.jsx:140-168 | a month's starting balance is the initial balance plus every deposit and P&L from the base month up to the month before |
| Ledger.EndingBalanceClosedForm | src/context/TradesContext.jsx:171-177 | a month's ending balance is the initial balance plus every deposit and P&L from the base month through that month |
| Ledger.TotalsMatchEndingBalance | src/context/TradesContext.jsx:550-561 | when every trade and deposit lies between the base month and `m`, the all-time current balance equals the ending balance of `m` |
| Ledger.PnLRangeTotal | src/context/TradesContext.jsx:551 | summing month P&L over a range of months that holds every trade gives the sum of every net result |
| Ledger.DepositRangeTotal | src/context/TradesContext.jsx:552 | summing month deposits over a range that holds every deposit key gives the total of the deposit map |
| Statistics.ByPair | src/context/TradesContext.jsx:506-514 | the `byPair` table as a fold over the trades; `ByPairKeys`, `ByPairEntry`, `ByPairWellFormed`, `ByPairBounds`, `ByPairConservation` and `ByPairPermutation` state its contents |
| Statistics.AccumulateByPair | src/context/TradesContext.jsx:506-514 | the in-place accumulation into the pair dictionary computes `ByPair` |
| Statistics.ByPairKeys | src/context/TradesContext.jsx:506-514 | a pair has an entry iff some trade is in that pair |
| Statistics.ByPairEntry | src/context/TradesContext.jsx:506-514 | a pair's entry counts that pair's trades, sums their net results and counts their winners |
| Statistics.ByPairWellFormed | src/context/TradesContext.jsx:506-514 | the entry order lists each pair once and exactly the pairs with entries |
| Statistics.ByPairBounds | src/context/TradesContext.jsx:506-514 | every entry has at least one trade and no more wins than trades |
| Statistics.ByPairConservation | src/context/TradesContext.jsx:506-514 | the entries' trade counts add up to the number of trades, their profits to the net result and their wins to the winners |
| Statistics.ByPairPermutation | src/context/TradesContext.jsx:506-514 | reordering the trades leaves every entry and the set of listed pairs unchanged |
| Statistics.ProfitFactorCases | src/context/TradesContext.jsx:532 | the profit factor is the ratio when there is a loss, `+∞` iff there is no loss but some profit, and 0 iff there is no profit |
| Statistics.AverageTimesCount | src/context/TradesContext.jsx:530-531 | an average times its count gives back the total; no count gives 0 |
| Statistics.RateBounds | src/context/TradesContext.jsx:525 | a rate of a part in a whole lies in [0, 100], is 0 iff the part is empty and 100 iff the part is everything |
| Statistics.ComputeStats | src/context/TradesContext.jsx:452-547 | the `stats` memo for the month's trades, start and deposit; `StatsCounts`, `StatsRates`, `StatsProfitFactor`, `StatsNetResult`, `StatsExtremes`, `StatsAverages`, `StatsBalances`, `StatsByPair`, `StatsPermutation` and `StatsEnding` state each field |
| Statistics.StatsCounts | src/context/TradesContext.jsx:492-503 | total trades are the month's trades; winners and losers are the trades with positive and negative gross amount and together at most the total; long plus short is the total |
| Statistics.StatsRates | src/context/TradesContext.jsx:525-544 | the three win rates lie in [0, 100]; the win rate is 0 iff no winner and 100 iff every trade won; a side with no trades has rate 0 |
| Statistics.ProfitSign | src/context/TradesContext.jsx:495 | the winners' gross total is non-negative and positive iff there is a winner |
| Statistics.LossSign | src/context/TradesContext.jsx:496 | the losers' gross total is non-positive and negative iff there is a loser |
| Statistics.StatsProfitFactor | src/context/TradesContext.jsx:495-532 | total profit and loss are never negative; the profit factor is their ratio when there is a loss, `+∞` iff no loser but some winner, 0 iff no winner |
| Statistics.GrossSplit | src/context/TradesContext.jsx:495-496 | the gross amounts of all trades are the winners' plus the losers' |
| Statistics.StatsNetResult | src/context/TradesContext.jsx:495-503 | for trades whose net result is gross minus commission, the net result is profit minus loss minus commissions |
| Statistics.LargestWin | src/context/TradesContext.jsx:533 | with a winner, the largest win is positive, at least every trade's gross amount and one of them |
| Statistics.LargestLoss | src/context/TradesContext.jsx:534 | with a loser, the largest loss is negative, at most every trade's gross amount and one of them |
| Statistics.StatsExtremes | src/context/TradesContext.jsx:533-534 | the bundle's largest win and loss are the extremes above, or 0 without winners or losers |
| Statistics.AssembleAverages | src/context/TradesContext.jsx:530-531 | the bundle's average win and loss times their counts give the totals back |
| Statistics.StatsAverages | src/context/TradesContext.jsx:530-531 | the month's averages times the counts give the profit and loss totals back, and are 0 without winners or losers |
| Statistics.StatsBalances | src/context/TradesContext.jsx:517-519 | operating capital is start plus deposit; the ending balance is capital plus the month's net results, which is the capital when the month has no trades; the percent is P&L over capital when capital is positive, else 0 |
| Statistics.StatsByPair | src/context/TradesContext.jsx:506-514 | the bundle's pair table is well formed, conserves trades, profit and wins, and keeps 1 <= trades and wins <= trades per pair |
| Statistics.StatsPermutation | src/context/TradesContext.jsx:452-547 | reordering the month's trades changes nothing in the bundle except the order of the pair listing |
| Statistics.MonthStatsMatchLedger | src/context/TradesContext.jsx:517 | the month's bundle reports the ledger's P&L and ending balance, and from the base month on the next month starts at that ending balance |
| Statistics.StatsEnding | src/context/TradesContext.jsx:517 | the bundle's P&L is the sum of the net results and its ending balance is start plus deposit plus that sum |
| TradeStore.Store.constructor | src/context/TradesContext.jsx:16-23 | a new store has no trades, no deposits and the default settings |
| TradeStore.Store.AddTrade | src/context/TradesContext.jsx:320-337 | the new trade is prepended with the fresh id and time; deposits and settings are unchanged; unique ids stay unique |
| TradeStore.Store.UpdateTrade | src/context/TradesContext.jsx:362-374 | every trade with the id has the update spread over it, the others are unchanged |
| TradeStore.Store.DeleteTrade | src/context/TradesContext.jsx:398-409 | the trades with the id are removed and nothing else changes |
| TradeStore.Store.SetMonthDeposit | src/context/TradesContext.jsx:185-194 | the month's deposit becomes the parsed amount, or 0 when it does not parse |
| TradeStore.Store.GetMonthDeposit | src/context/TradesContext.jsx:196-198 | the stored deposit of the month, or 0 when there is none |
| TradeStore.UpdateById | src/context/TradesContext.jsx:365 | the list keeps its length and each trade is merged iff it has the id |
| TradeStore.AddKeepsIdsUnique | src/context/TradesContext.jsx:321-328 | prepending a trade with a fresh id keeps the ids unique |
| TradeStore.RemoveByIdSpec | src/context/TradesContext.jsx:400 | no trade with the id survives, every other trade keeps its count |
| TradeStore.AddThenDelete | src/context/TradesContext.jsx:320-409 | deleting a freshly added trade restores the list |
| TradeStore.UpdateMissingId | src/context/TradesContext.jsx:365 | updating an id that is not stored changes nothing |
| TradeStore.UpdateKeepsIds | src/context/TradesContext.jsx:365 | an update without an id keeps every id, so ids stay unique |
| TradeStore.UpdateWithForm | src/context/TradesContext.jsx:365 | updating with a form record stores that record with the trade's id and time, consistent iff the record is |
| TradeStore.SetThenGetDeposit | src/context/TradesContext.jsx:185-198 | reading back a set month gives the amount set (0 for an unreadable one); other months are unchanged |
| TradeStore.DepositChangeCarriesForward | src/context/TradesContext.jsx:140-168 | changing a month's deposit leaves the starting balance of that month and every earlier one unchanged |
| StatsChart.DateLeTotal | src/components/StatsChart.jsx:17-19 | the date comparator decides every pair of trades |
| StatsChart.Series | src/components/StatsChart.jsx:21-31 | one point per sorted trade |
| StatsChart.SeriesFields | src/components/StatsChart.jsx:23-30 | point `i` shows trade `i`'s date, net result and pair |
| StatsChart.SeriesBalances | src/components/StatsChart.jsx:21-31 | point `i`'s balance is the starting balance plus the net results of the first `i + 1` trades |
| StatsChart.SeriesSteps | src/components/StatsChart.jsx:24-26 | the first balance is start plus its result; each later balance is the previous one plus its result |
| StatsChart.SeriesLast | src/components/StatsChart.jsx:21-31 | the last balance is the start plus every net result |
| StatsChart.ChartData | src/components/StatsChart.jsx:13-32 | no points iff no trades; otherwise the series of the sorted copy, in date order, each balance the previous plus its result, the last the start plus every result |
| StatsChart.ChartOrder | src/components/StatsChart.jsx:17-19 | the chart's points run in date order |
| StatsChart.ChartLast | src/components/StatsChart.jsx:21-31 | the last point's balance is the start plus every net result, whatever the input order |
| StatsChart.RunningBalances | src/components/StatsChart.jsx:20-31 | the loop that adds each result to `runningBalance` produces exactly the series |
| StatsChart.MinBalance | src/components/StatsChart.jsx:42 | the minimum is at most the start and every balance, and is the start or one of the balances |
| StatsChart.MaxBalance | src/components/StatsChart.jsx:43 | the maximum is at least the start and every balance, and is the start or one of the balances |
| StatsChart.IsProfitIffNonNegative | src/components/StatsChart.jsx:44 | the chart is green iff there are trades and their net results add up to zero or more |
| TradesTable.HandleSort | src/components/TradesTable.jsx:62-67 | the key becomes the clicked one; the direction becomes descending iff that key was ascending |
| TradesTable.HandleSortAlternates | src/components/TradesTable.jsx:62-67 | clicking the current column flips the direction, and twice restores it |
| TradesTable.HandleSortNewColumn | src/components/TradesTable.jsx:62-67 | clicking another column sorts it ascending |
| TradesTable.MatchesSearch | src/components/TradesTable.jsx:31-36 | the search filter: the lower-cased pair or notes include the lower-cased term; `Text.ContainsAt` and `FilteredTrades` state what is kept |
| TradesTable.Compare | src/components/TradesTable.jsx:45-57 | the sort comparator: -1, 1 or 0 by the column, reversed for descending; `KeyLessAsymmetric`, `ComparatorTotal` and `OrderedByColumn` state that it orders the rows |
| TradesTable.KeyLessAsymmetric | src/components/TradesTable.jsx:48-55 | no two trades are each less than the other on a column |
| TradesTable.ComparatorTotal | src/components/TradesTable.jsx:45-57 | the table's comparator decides every pair of trades |
| TradesTable.OrderedByColumn | src/components/TradesTable.jsx:45-57 | in a list ordered by the comparator, no trade is less than its predecessor (ascending) or greater (descending) on the column |
| TradesTable.FilteredTrades | src/components/TradesTable.jsx:27-60 | the result holds each kept trade as often as the month does and no other; the direction filter holds for every row; no term and no filter keep everything; rows are in column order |
| TradeForm.InitialForm | src/components/TradeForm.jsx:19-26 | the form opened on a trade or on today; `EditWithoutChanges` states that submitting it unchanged stores the same trade |
| TradeForm.CalculateFinalResult | src/components/TradeForm.jsx:51-55 | the preview of the net result; `SubmittedRecord` states that it is gross minus commission and equals the submitted record's net result |
| TradeForm.BuildTradeData | src/components/TradeForm.jsx:61-74 | the record `handleSubmit` sends; `SubmittedRecord` states its pair and amounts |
| TradeForm.FormatDisplayDate | src/components/TradeForm.jsx:94-101 | `dd/MM/yyyy` from the dash-separated pieces; `FormatDisplayDateFields`, `FormatDisplayDateIso` and `FormatDisplayDateNoDash` state its output |
| TradeForm.Amount | src/components/TradeForm.jsx:63-64 | an amount that does not parse counts as 0 |
| TradeForm.SubmittedRecord | src/components/TradeForm.jsx:57-76 | the submitted record's net result is gross minus commission and equals the preview; unreadable amounts are 0; the pair is the upper-cased custom text when shown, else the selected pair |
| TradeForm.Submit | src/components/TradeForm.jsx:77-81 | editing updates the edited trade's id, otherwise a trade is added, with the built record |
| TradeForm.EditWithoutChanges | src/components/TradeForm.jsx:19-26 | opening a consistent trade in the form and submitting it unchanged stores the same trade |
| TradeForm.FormatDisplayDateFields | src/components/TradeForm.jsx:94-101 | a date `y-m-d` is shown as `d/m/y` |
| TradeForm.FormatDisplayDateIso | src/components/TradeForm.jsx:94-101 | a stored `yyyy-MM-dd` date is shown as `dd/MM/yyyy` |
| TradeForm.FormatDisplayDateNoDash | src/components/TradeForm.jsx:94-101 | a string without dashes is shown after two `undefined` fields |
| SettingsPanel.InitialSettingsForm | src/components/SettingsPanel.jsx:18-25 | the form shown for the stored settings, percentages times 100; `SaveUnchangedKeepsSettings`, `SaveUnchangedFillsDefaults` and `SaveUnchangedResetsZeroCapital` state what saving it unchanged stores |
| SettingsPanel.HandleSave | src/components/SettingsPanel.jsx:32-41 | settings not on the form are kept; an empty, unreadable or zero field falls back to 170, 1%, 3%, 3 and 25%; the balance falls back to 0; a readable nonzero capital or leverage is saved as entered, a readable balance as entered, and a readable nonzero percentage divided by 100 |
| SettingsPanel.SaveUnchangedKeepsSettings | src/components/SettingsPanel.jsx:18-41 | saving the form as shown for fully set, nonzero settings stores the same settings |
| SettingsPanel.SaveUnchangedFillsDefaults | src/components/SettingsPanel.jsx:18-41 | saving the form as shown for empty settings stores the defaults, keeping the base month |
| SettingsPanel.SaveUnchangedResetsZeroCapital | src/components/SettingsPanel.jsx:19-35 | a stored capital of 0 is saved back as 170 |
| SettingsPanel.RiskAmount | src/components/SettingsPanel.jsx:94 | capital times the risk percentage over 100, unreadable fields as 0; `RiskAmountsOfSettings` states its value for the stored settings |
| SettingsPanel.MaxDailyRiskAmount | src/components/SettingsPanel.jsx:95 | capital times the daily risk percentage over 100, unreadable fields as 0; `RiskAmountsOfSettings` states its value for the stored settings |
| SettingsPanel.RiskAmountsOfSettings | src/components/SettingsPanel.jsx:94-95 | for settings as shown, the risk amounts are capital times the stored fractions; a missing capital or percentage gives 0 |
| SettingsPanel.Export | src/components/SettingsPanel.jsx:46-52 | the snapshot holds exactly the settings, trades, deposits and the export date |
| SettingsPanel.Import | src/components/SettingsPanel.jsx:63-90 | unreadable input changes nothing; settings are replaced iff present, trades iff an array; deposits are saved as given and not changed in memory |
| SettingsPanel.ExportImportRoundTrip | src/components/SettingsPanel.jsx:46-90 | importing an export restores its settings and trades and saves its deposits; importing one's own export changes nothing |
| SettingsPanel.ImportIgnoresNonArrayTrades | src/components/SettingsPanel.jsx:76-78 | a payload whose trades are not an array leaves the trades alone |
| Dashboard.RentabilityPercent | src/components/Dashboard.jsx:52-54 | P&L over operating capital times 100, or 0; `PercentSign` and `RentabilityMatchesStats` state its sign and that it is the bundle's percent |
| Dashboard.PercentSign | src/components/Dashboard.jsx:52-54 | with a positive base the percentage has the sign of the amount; without one it is 0 |
| Dashboard.RentabilityMatchesStats | src/components/Dashboard.jsx:52-54 | rentability is the bundle's P&L percent, non-negative iff the month's results add up to zero or more, and 0 without operating capital |
| Dashboard.CentsNearest | src/components/Dashboard.jsx:44 | `toFixed(2)` picks the nearest hundredth, the larger one on a tie |
| Dashboard.RenderCentsReadsBack | src/components/Dashboard.jsx:44 | the rendered amount is digits, a point and two digits that read back as the cents |
| Dashboard.RenderCentsInjective | src/components/Dashboard.jsx:44 | different cent amounts render differently |
| Dashboard.ToFixed2 | src/components/Dashboard.jsx:42-49 | a negative number renders as a minus before its absolute value; others render their cents |
| Dashboard.FormatCurrency | src/components/Dashboard.jsx:42-45 | a sign, `$` and `toFixed(2)` of the absolute value; `FormatCurrencySign` states its text |
| Dashboard.FormatPercent | src/components/Dashboard.jsx:47-49 | a `+` for non-negative values, then `toFixed(2)` and `%`; `FormatPercentSign` states its text |
| Dashboard.ProfitFactorText | src/components/Dashboard.jsx:247 | `∞` or the factor's `toFixed(2)`; `ProfitFactorTextInfinite` states when it is `∞` |
| Dashboard.ProfitFactorLabel | src/components/Dashboard.jsx:250 | the verdict under the profit factor; `ProfitFactorLabelBands`, `ProfitFactorLabelOfTotals` and `ProfitFactorLabelOfStats` state its bands |
| Dashboard.FormatCurrencySign | src/components/Dashboard.jsx:42-45 | the text starts with `-` iff the value is negative, followed by the text of the absolute value; otherwise it is `$` and the cents |
| Dashboard.FormatPercentSign | src/components/Dashboard.jsx:47-49 | the text starts with `+` iff the value is non-negative and `-` iff negative, then the absolute value and `%` |
| Dashboard.ProfitFactorTextInfinite | src/components/Dashboard.jsx:247 | the profit factor reads `∞` iff it is infinite |
| Dashboard.ProfitFactorLabelBands | src/components/Dashboard.jsx:250 | `Excelente` iff at least 1.5 or infinite, `Bueno` iff in [1, 1.5), `Mejorar` iff below 1 |
| Dashboard.ProfitFactorLabelOfTotals | src/components/Dashboard.jsx:250 | in terms of the totals: `Mejorar` iff no winner or profit below loss; `Excelente` iff a winner and no loser or profit at least 1.5 times loss |
| Dashboard.RatioAtLeast | src/components/Dashboard.jsx:250 | with a positive loss, the ratio reaches a bound iff the profit reaches the bound times the loss |
| Dashboard.ProfitFactorLabelOfStats | src/context/TradesContext.jsx:532 | the month's label is `Mejorar` iff no winner or profit below loss, `Excelente` iff a winner and no loser or profit at least 1.5 times loss |
| Dashboard.WinRateBar | src/components/Dashboard.jsx:227 | the bar width is at most 100 and at most the rate, and is the rate or 100, so it is exactly `Math.min(rate, 100)` |
| Dashboard.WinRateBarsOfStats | src/components/Dashboard.jsx:423-445 | the cap never changes the month's three rates |
| Dashboard.Entries | src/components/Dashboard.jsx:456 | `Object.entries` lists one card per listed pair with its figures |
| Dashboard.RankPairs | src/components/Dashboard.jsx:456-457 | the pair cards sorted by descending profit; `RankPairsSorted`, `RankPairsOfTable` and `RankPairsOfStats` state their order and contents |
| Dashboard.RankPairsSorted | src/components/Dashboard.jsx:456-457 | the ranked cards are a permutation of the entries, hold exactly the listed pairs with their figures, and run by non-increasing profit |
| Dashboard.OrderedDescending | src/components/Dashboard.jsx:457 | a list ordered by the profit comparator has non-increasing profit between any two positions |
| Dashboard.RankPairsOfStats | src/components/Dashboard.jsx:451-457 | the month's cards, one per pair, run by non-increasing profit, each with at least one trade and no more wins than trades, and there are none iff the month has no trades |
| Dashboard.RankPairsOfTable | src/components/Dashboard.jsx:456-457 | for any well-formed pair table, the ranking has one card per pair, non-increasing profit, and sound counts |
| Dashboard.ByPairNonEmpty | src/components/Dashboard.jsx:451 | a month with trades has at least one pair card |

## Left out

- Persistence and the network are not modelled: the Supabase client, every `localStorage` read and write, the remote branches of add, update and delete, and the fallback from remote to local on error. Import returns the deposits it would save instead of writing them.
- Asynchrony, React state, effects, memoisation and context wiring are not modelled. Derived values are functions of explicit inputs, and the store is a class.
- Calendar helpers: `parseISO`, `format`, `subMonths`, `startOfMonth`/`endOfMonth` and `isWithinInterval` are replaced by `Calendar`. Only the stored `yyyy-MM-dd` form is parsed. Other ISO forms `parseISO` accepts (with a time, a week date, an expanded year) are read as Invalid Dates.
- Month keys are indices. `Calendar.MonthKeyOrder` ties them to the strings for four-digit years only. Years beyond 9999 or before 0 are not related to their keys.
- Ledger.BaseMonth and Ledger.ComputeTotals: the base month and the deposit keys are typed as month indices, so text that is not a `yyyy-MM` key is not modelled. The application never writes `baseMonth` itself, but an imported backup can carry any settings and any deposit map. A base month such as `"2024-1"` is still compared as a string: `"2024-05" <= "2024-1"` holds, so May 2024 starts at the initial balance, while `"2024-10"` is greater and builds on September. A base month that is not a string makes `<=` and `===` false for every month, so the application's recursion never ends. A deposit key such as `"foo"` is added into the all-time total but into no month, so `Ledger.TotalsMatchEndingBalance` has no counterpart for it.
- Text.StrLt: orders strings by code point, while JavaScript's `<` (used for the table's pair column) orders by UTF-16 code unit. The two differ only for characters beyond U+FFFF.
- Ledger.MonthPnL and Ledger.StartingBalance: years 0 to 99 are not modelled as the application treats them. The application rebuilds a month from its key with `new Date(year, month - 1, 1)`, which maps years 0 to 99 to 1900 to 1999. For a trade dated `0050-03-15` with no base month set, the application's P&L for `0050-03` looks at March 1950 and is 0, while `MonthPnL` counts the trade. For `0050-04` the application's recursion walks back through 1950 and never reaches the base month, so it does not terminate. The model's recursion terminates for every month. Both functions are faithful for years 100 to 9999.
- StatsChart.ChartData: the order among trades whose dates do not parse is not modelled as JavaScript would give it. The chart's comparator returns `NaN` for such a date, which reads as "equal" to every trade, so the comparator is not transitive and JavaScript's order is then implementation-defined. The insertion sort gives one possible order. The dashboard passes only the month's trades, whose dates all parse, so this case does not arise there.
- Direction: a stored direction other than `Long` or `Short` is not modelled, because `Direction` has only those two values. The trade form writes only those two, but an imported backup can carry any text. With another direction, a trade is counted in neither the long nor the short filter, and long plus short is then less than the total that `Statistics.StatsCounts` states.
- Floating point is not modelled. Money is exact `real`, so IEEE rounding, `NaN` arithmetic and `-0` are out. `toFixed(2)` is modelled on exact values; its exponential form for values of `1e21` and above is not.
- A stored `NaN` amount is not modelled. Trade amounts are always numbers.
- The win rate's `toFixed(1)` display and the chart's axis labels (`toFixed(0)`, `dd/MM`) are not modelled.
- `parseFloat`'s reading of text is not modelled. A form field is either a number or unreadable (`None`).
- Case mapping covers ASCII letters only. `toLowerCase`/`toUpperCase` on other Unicode letters are not modelled.
- Object key order: `Object.entries` lists integer-like keys first in JavaScript. The model keeps insertion order for every pair name, and pair names are not integer-like in practice. Inherited prototype keys are not modelled.
- The sort in the trade table works in place on the copied array. The model sorts a sequence as a value, so the in-place update and the aliasing of the copy are not captured. The input list is never modified in either case.
- Identifiers (`crypto.randomUUID()`), creation times and the current month are parameters, not generated.
- Toasts, console logging, rendering, chart drawing, file reading and the download link are not modelled.
- `MonthSelector`, the theme, the header and the application shell are presentation only.
- The dashboard's deposit editor (`handleEditDeposit`, `handleSaveDeposit`) only forwards to `setMonthDeposit`. `TradeStore.Store.SetMonthDeposit` models that.
- Statistics.ByPairBounds: states `1 <= trades` and `wins <= trades`, not `1 <= wins`, because a pair whose trades all lost has no wins.
- SettingsPanel.Import: it takes the trades the next load reads to be the trades just saved, because the reload goes through storage, which is not modelled.
- SettingsPanel.SaveUnchangedKeepsSettings: requires every field set and nonzero, because a zero or missing field falls back to its default on save.
