/**
 * The dashboard's derived figures: the month's return on operating capital,
 * money and percent rendering, the profit-factor badge, the win-rate bars and
 * the ranking of the per-pair cards.
 */
module Dashboard {
  import opened Js
  import opened Text
  import opened Folds
  import opened Sorting
  import opened TradeModel
  import opened Statistics

  /** `rentabilityPercent`: the month's result as a percentage of operating capital, 0 without capital. */
  function RentabilityPercent(st: Stats): real
  {
    if st.operatingCapital > 0.0 then (st.monthPnL / st.operatingCapital) * 100.0 else 0.0
  }

  /** A percentage of positive capital has the sign of the amount. */
  lemma PercentSign(x: real, base: real)
    ensures base > 0.0 ==> (PercentOf(x, base) >= 0.0 <==> x >= 0.0)
    ensures base <= 0.0 ==> PercentOf(x, base) == 0.0
  {
    if base > 0.0 && x < 0.0 {
      assert x / base < 0.0;
    }
  }

  /**
   * The dashboard's return is the bundle's own percentage, and it has the
   * sign of the month's result whenever there is capital.
   */
  lemma RentabilityMatchesStats(s: seq<Trade>, start: real, deposit: real)
    ensures var st := ComputeStats(s, start, deposit);
            RentabilityPercent(st) == st.monthPnLPercent
            && (st.operatingCapital > 0.0 ==> (RentabilityPercent(st) >= 0.0 <==> Sum(s, FinalResultOf) >= 0.0))
            && (st.operatingCapital <= 0.0 ==> RentabilityPercent(st) == 0.0)
  {
    var st := ComputeStats(s, start, deposit);
    StatsBalances(s, start, deposit);
    assert RentabilityPercent(st) == PercentOf(st.monthPnL, st.operatingCapital);
    PercentSign(st.monthPnL, st.operatingCapital);
  }

  /**
   * `toFixed(2)`'s integer `n`: the number of hundredths nearest to `x`,
   * the larger one on a tie.
   */
  function Cents(x: real): (c: nat)
    requires x >= 0.0
  {
    (x * 100.0 + 0.5).Floor
  }

  /** `Cents` is the nearest number of hundredths, at most half a hundredth away, and on a tie the larger. */
  lemma CentsNearest(x: real, n: int)
    requires x >= 0.0
    ensures Abs(Cents(x) as real - x * 100.0) <= 0.5
    ensures Abs(Cents(x) as real - x * 100.0) <= Abs(n as real - x * 100.0)
    ensures Abs(Cents(x) as real - x * 100.0) == Abs(n as real - x * 100.0) ==> n <= Cents(x)
  {
  }

  /** Hundredths written as `toFixed(2)` writes them: integer digits, a dot, two digits. */
  function RenderCents(c: nat): string
  {
    NatToString(c / 100) + "." + PadDigits(c % 100, 2)
  }

  /** A rendering reads back to its hundredths: its integer and fraction digits give `c`. */
  lemma RenderCentsReadsBack(c: nat)
    ensures var r := RenderCents(c);
            |r| >= 4 && r[|r| - 3] == '.' && AllDigits(r[..|r| - 3]) && AllDigits(r[|r| - 2..])
            && DigitsValue(r[..|r| - 3]) * 100 + DigitsValue(r[|r| - 2..]) == c
  {
    var r := RenderCents(c);
    assert r[..|r| - 3] == NatToString(c / 100);
    assert r[|r| - 2..] == PadDigits(c % 100, 2);
    NatToStringValue(c / 100);
  }

  /** A rendering has at least one integer digit, the dot and two fraction digits. */
  lemma RenderCentsLength(c: nat)
    ensures |RenderCents(c)| >= 4
  {
  }

  /** Distinct hundredths render differently. */
  lemma RenderCentsInjective(c1: nat, c2: nat)
    requires RenderCents(c1) == RenderCents(c2)
    ensures c1 == c2
  {
    RenderCentsReadsBack(c1);
    RenderCentsReadsBack(c2);
  }

  /** `x.toFixed(2)`: a `-` for a negative number, then the magnitude rounded to hundredths. */
  function ToFixed2(x: real): (r: string)
    ensures x < 0.0 ==> r == "-" + RenderCents(Cents(-x))
    ensures x >= 0.0 ==> r == RenderCents(Cents(x))
  {
    if x < 0.0 then "-" + RenderCents(Cents(-x)) else RenderCents(Cents(x))
  }

  /** `formatCurrency`: a `-` for a negative amount, then `$` and the magnitude to two decimals. */
  function FormatCurrency(value: real): (r: string)
  {
    (if value < 0.0 then "-" else "") + "$" + ToFixed2(Abs(value))
  }

  /**
   * A currency text starts with `-` exactly when the amount is negative,
   * continues with `$` and the magnitude, and an amount and its opposite
   * differ only in that sign.
   */
  lemma FormatCurrencySign(value: real)
    ensures |FormatCurrency(value)| >= 5
    ensures FormatCurrency(value)[0] == '-' <==> value < 0.0
    ensures value < 0.0 ==> FormatCurrency(value) == "-" + FormatCurrency(-value)
    ensures value >= 0.0 ==> FormatCurrency(value) == "$" + RenderCents(Cents(value))
  {
    var body := "$" + RenderCents(Cents(Abs(value)));
    RenderCentsLength(Cents(Abs(value)));
    assert FormatCurrency(value) == (if value < 0.0 then "-" + body else body);
    assert body[0] == '$';
  }

  /** `formatPercent`: a `+` for a non-negative value, the value to two decimals, then `%`. */
  function FormatPercent(value: real): (r: string)
  {
    (if value >= 0.0 then "+" else "") + ToFixed2(value) + "%"
  }

  /** A percent text starts with `+` or `-` by the sign of the value and carries its magnitude. */
  lemma FormatPercentSign(value: real)
    ensures FormatPercent(value)[0] == '+' <==> value >= 0.0
    ensures FormatPercent(value)[0] == '-' <==> value < 0.0
    ensures FormatPercent(value) == (if value >= 0.0 then "+" else "-") + RenderCents(Cents(Abs(value))) + "%"
  {
    var digits := RenderCents(Cents(Abs(value)));
    assert ToFixed2(value) == (if value >= 0.0 then digits else "-" + digits);
    var sign := if value >= 0.0 then "+" else "-";
    assert FormatPercent(value) == sign + digits + "%";
    assert (sign + digits + "%")[0] == sign[0];
  }

  /** The profit factor as shown: `∞` for `Infinity`, otherwise its value to two decimals. */
  function ProfitFactorText(pf: ProfitFactor): string
  {
    if pf.PosInf? then "∞" else ToFixed2(pf.value)
  }

  /** The profit factor reads `∞` exactly when it is infinite. */
  lemma ProfitFactorTextInfinite(pf: ProfitFactor)
    ensures ProfitFactorText(pf) == "∞" <==> pf == PosInf
  {
    if pf.Finite? {
      var x := pf.value;
      RenderCentsReadsBack(Cents(Abs(x)));
      assert ProfitFactorText(pf)[0] != '∞';
    }
  }

  /** `profitFactor >= k`, with `Infinity` above every number. */
  predicate AtLeast(pf: ProfitFactor, k: real)
  {
    pf.PosInf? || pf.value >= k
  }

  datatype Verdict = Excelente | Bueno | Mejorar

  /** The badge under the profit factor. */
  function ProfitFactorLabel(pf: ProfitFactor): Verdict
  {
    if AtLeast(pf, 1.5) then Excelente else if AtLeast(pf, 1.0) then Bueno else Mejorar
  }

  /** The badge's three bands: at least 1.5 (or infinite), from 1 up to 1.5, and below 1. */
  lemma ProfitFactorLabelBands(pf: ProfitFactor)
    ensures ProfitFactorLabel(pf) == Excelente <==> pf.PosInf? || pf.value >= 1.5
    ensures ProfitFactorLabel(pf) == Bueno <==> pf.Finite? && 1.0 <= pf.value < 1.5
    ensures ProfitFactorLabel(pf) == Mejorar <==> pf.Finite? && pf.value < 1.0
  {
  }

  /** The badge in terms of the totals the profit factor is computed from. */
  lemma ProfitFactorLabelOfTotals(p: real, l: real, wins: nat, losses: nat, pf: ProfitFactor)
    requires p >= 0.0 && l >= 0.0
    requires l > 0.0 <==> losses > 0
    requires p > 0.0 <==> wins > 0
    requires l > 0.0 ==> pf == Finite(p / l)
    requires pf == PosInf <==> losses == 0 && wins > 0
    requires pf == Finite(0.0) <==> wins == 0
    ensures ProfitFactorLabel(pf) == Mejorar <==> wins == 0 || p < l
    ensures ProfitFactorLabel(pf) == Excelente <==> wins > 0 && (losses == 0 || p >= 1.5 * l)
  {
    if l > 0.0 {
      RatioAtLeast(p, l, 1.0);
      RatioAtLeast(p, l, 1.5);
    }
  }

  /** Over a positive divisor, a ratio reaches `k` exactly when the dividend reaches `k` times the divisor. */
  lemma RatioAtLeast(p: real, l: real, k: real)
    requires l > 0.0
    ensures p / l >= k <==> p >= k * l
  {
    var q := p / l;
    assert q * l == p;
    assert (q - k) * l == p - k * l;
    if q >= k {
      assert (q - k) * l >= 0.0;
    } else {
      assert (q - k) * l < 0.0;
    }
  }

  /**
   * Of a month's bundle: the badge asks to improve exactly when the month
   * won nothing or lost more than it won, and is excellent exactly when it
   * won without losing or won at least one and a half times what it lost.
   */
  lemma ProfitFactorLabelOfStats(s: seq<Trade>, start: real, deposit: real)
    ensures var st := ComputeStats(s, start, deposit);
            (ProfitFactorLabel(st.profitFactor) == Mejorar <==> st.winningTrades == 0 || st.totalProfit < st.totalLoss)
            && (ProfitFactorLabel(st.profitFactor) == Excelente <==>
                  st.winningTrades > 0 && (st.losingTrades == 0 || st.totalProfit >= 1.5 * st.totalLoss))
  {
    var st := ComputeStats(s, start, deposit);
    StatsProfitFactor(s, start, deposit);
    ProfitFactorLabelOfTotals(st.totalProfit, st.totalLoss, st.winningTrades, st.losingTrades, st.profitFactor);
  }

  /** A win-rate bar's width: the rate, capped at 100. */
  function WinRateBar(rate: real): (w: real)
    ensures w <= 100.0 && w <= rate
    ensures w == rate || w == 100.0
  {
    if rate <= 100.0 then rate else 100.0
  }

  /** The cap never bites on a bundle's rates: each bar is as wide as its rate. */
  lemma WinRateBarsOfStats(s: seq<Trade>, start: real, deposit: real)
    ensures var st := ComputeStats(s, start, deposit);
            WinRateBar(st.winRate) == st.winRate
            && WinRateBar(st.longWinRate) == st.longWinRate
            && WinRateBar(st.shortWinRate) == st.shortWinRate
  {
    StatsRates(s, start, deposit);
  }

  /** One pair card: the pair and its counters. */
  datatype PairCard = PairCard(pair: string, data: PairStats)

  /** `Object.entries(byPair)`: the pairs in the order they were first traded, with their counters. */
  function Entries(order: seq<string>, stats: map<string, PairStats>): (r: seq<PairCard>)
    requires forall i :: 0 <= i < |order| ==> order[i] in stats
    ensures |r| == |order|
    ensures forall i :: 0 <= i < |r| ==> r[i] == PairCard(order[i], stats[order[i]])
  {
    if order == [] then []
    else [PairCard(order[0], stats[order[0]])] + Entries(order[1..], stats)
  }

  /** The comparator `(a, b) => b[1].profit - a[1].profit` lets `a` stay before `b` when it earned no less. */
  function ProfitLe(): (PairCard, PairCard) -> bool
  {
    (a: PairCard, b: PairCard) => b.data.profit - a.data.profit <= 0.0
  }

  /** The cards as laid out: the entries sorted by profit, best first. */
  function RankPairs(tbl: PairTable): seq<PairCard>
    requires forall i :: 0 <= i < |tbl.order| ==> tbl.order[i] in tbl.stats
  {
    SortBy(Entries(tbl.order, tbl.stats), ProfitLe())
  }

  /**
   * The ranking shows every pair of the table once with its own counters,
   * and no card earned more than one before it.
   */
  lemma RankPairsSorted(tbl: PairTable)
    requires forall i :: 0 <= i < |tbl.order| ==> tbl.order[i] in tbl.stats
    ensures var r := RankPairs(tbl);
            multiset(r) == multiset(Entries(tbl.order, tbl.stats))
            && (forall c :: c in r <==> c.pair in tbl.order && c.data == tbl.stats[c.pair])
            && forall i, j :: 0 <= i < j < |r| ==> r[i].data.profit >= r[j].data.profit
  {
    var e := Entries(tbl.order, tbl.stats);
    var r := RankPairs(tbl);
    assert Total(ProfitLe());
    SortByOrdered(e, ProfitLe());
    forall c ensures c in r <==> c.pair in tbl.order && c.data == tbl.stats[c.pair] {
      assert c in r <==> c in multiset(e);
      if c.pair in tbl.order {
        var i :| 0 <= i < |tbl.order| && tbl.order[i] == c.pair;
        if c.data == tbl.stats[c.pair] {
          assert e[i] == c;
        }
      }
    }
    OrderedDescending(r);
  }

  /** Adjacent cards in profit order give every pair of cards in profit order. */
  lemma {:induction false} OrderedDescending(r: seq<PairCard>)
    requires Ordered(r, ProfitLe())
    ensures forall i, j :: 0 <= i < j < |r| ==> r[i].data.profit >= r[j].data.profit
    decreases |r|
  {
    if |r| > 1 {
      OrderedDescending(r[1..]);
      assert forall j :: 1 <= j < |r| ==> r[j] == r[1..][j - 1];
      forall j | 1 < j < |r| ensures r[0].data.profit >= r[j].data.profit {
        assert ProfitLe()(r[0], r[1]);
        assert r[1].data.profit >= r[j].data.profit;
      }
    }
  }

  /**
   * The cards of a month: one per traded pair, best first, each with at
   * least one trade and no more wins than trades; none exactly when the
   * month has no trades.
   */
  lemma RankPairsOfStats(s: seq<Trade>, start: real, deposit: real)
    ensures var st := ComputeStats(s, start, deposit);
            (forall i :: 0 <= i < |st.byPair.order| ==> st.byPair.order[i] in st.byPair.stats)
            && var r := RankPairs(st.byPair);
            |r| == |st.byPair.order|
            && (forall i, j :: 0 <= i < j < |r| ==> r[i].data.profit >= r[j].data.profit)
            && (forall c :: c in r ==> 1 <= c.data.trades && c.data.wins <= c.data.trades)
            && (s == [] <==> r == [])
  {
    var tbl := ComputeStats(s, start, deposit).byPair;
    StatsByPair(s, start, deposit);
    RankPairsOfTable(tbl);
    if s != [] {
      ByPairNonEmpty(s);
    }
  }

  /** A well-formed table whose counters are in bounds ranks into cards in bounds. */
  lemma RankPairsOfTable(tbl: PairTable)
    requires WellFormed(tbl)
    requires forall p :: p in tbl.stats ==> 1 <= tbl.stats[p].trades && tbl.stats[p].wins <= tbl.stats[p].trades
    ensures forall i :: 0 <= i < |tbl.order| ==> tbl.order[i] in tbl.stats
    ensures var r := RankPairs(tbl);
            |r| == |tbl.order|
            && (forall i, j :: 0 <= i < j < |r| ==> r[i].data.profit >= r[j].data.profit)
            && (forall c :: c in r ==> 1 <= c.data.trades && c.data.wins <= c.data.trades)
  {
    assert forall i :: 0 <= i < |tbl.order| ==> tbl.order[i] in tbl.stats;
    RankPairsSorted(tbl);
  }

  /** A month with trades has at least one pair in its table. */
  lemma ByPairNonEmpty(s: seq<Trade>)
    requires s != []
    ensures ByPair(s).order != []
  {
    ByPairWellFormed(s);
    ByPairKeys(s, s[0].pair);
    assert Traded(s, s[0].pair);
  }
}
