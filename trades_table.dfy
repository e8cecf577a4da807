/**
 * The trade table's view of the month: a search over pair and notes, a
 * direction filter, a sort on one column in either direction, and the
 * header click that chooses the column and direction.
 */
module TradesTable {
  import opened Js
  import opened Text
  import opened Calendar
  import opened Folds
  import opened Sorting
  import opened TradeModel

  /** The sortable columns: `date`, `pair`, `balance_trade`, `final_result`. */
  datatype SortKey = DateKey | PairKey | BalanceTradeKey | FinalResultKey

  datatype SortDirection = Asc | Desc

  datatype SortConfig = SortConfig(key: SortKey, direction: SortDirection)

  /** The table opens sorted by date, newest first. */
  const InitialSort := SortConfig(DateKey, Desc)

  /**
   * `handleSort(key)`: the clicked column becomes the key; the direction
   * turns to descending only when that column was already sorted ascending.
   */
  function HandleSort(prev: SortConfig, key: SortKey): (r: SortConfig)
    ensures r.key == key
    ensures r.direction == Desc <==> prev.key == key && prev.direction == Asc
  {
    SortConfig(key, if prev.key == key && prev.direction == Asc then Desc else Asc)
  }

  /** Clicking the current column twice brings the configuration back: the direction alternates. */
  lemma HandleSortAlternates(c: SortConfig)
    ensures HandleSort(HandleSort(c, c.key), c.key) == c
    ensures HandleSort(c, c.key).direction != c.direction
  {
  }

  /** Clicking another column always starts ascending. */
  lemma HandleSortNewColumn(c: SortConfig, key: SortKey)
    requires key != c.key
    ensures HandleSort(c, key) == SortConfig(key, Asc)
  {
  }

  /** `directionFilter`: `'all'` or one direction. */
  datatype DirectionFilter = AllDirections | Only(direction: Direction)

  /** `trade.pair.toLowerCase().includes(term) || trade.notes?.toLowerCase().includes(term)`, with `term` lower-cased. */
  predicate MatchesSearch(term: string, t: Trade)
  {
    var lower := ToLower(term);
    Contains(ToLower(t.pair), lower) || Contains(ToLower(t.notes), lower)
  }

  /** A trade survives both filters: the search when a term is typed, the direction when one is chosen. */
  predicate Keeps(term: string, filter: DirectionFilter, t: Trade)
  {
    (term == [] || MatchesSearch(term, t)) && (filter.AllDirections? || t.direction == filter.direction)
  }

  function SearchOf(term: string): Trade -> bool
  {
    (t: Trade) => MatchesSearch(term, t)
  }

  function DirectionOf(d: Direction): Trade -> bool
  {
    (t: Trade) => t.direction == d
  }

  /**
   * `aValue < bValue` for the column: dates compare as instants (a date that
   * does not parse compares as `NaN`, below and above nothing), pairs as
   * strings, amounts as numbers.
   */
  predicate KeyLess(key: SortKey, a: Trade, b: Trade)
  {
    match key
    case DateKey =>
      var da, db := ParseIsoDate(a.date), ParseIsoDate(b.date);
      da.Some? && db.Some? && DayOrdinal(da.value) < DayOrdinal(db.value)
    case PairKey => StrLt(a.pair, b.pair)
    case BalanceTradeKey => a.balanceTrade < b.balanceTrade
    case FinalResultKey => a.finalResult < b.finalResult
  }

  /** A column never compares both ways. */
  lemma KeyLessAsymmetric(key: SortKey, a: Trade, b: Trade)
    ensures !(KeyLess(key, a, b) && KeyLess(key, b, a))
  {
    if key == PairKey {
      StrLtTrichotomy(a.pair, b.pair);
    }
  }

  /** The comparator passed to `result.sort`. */
  function Compare(cfg: SortConfig, a: Trade, b: Trade): int
  {
    if KeyLess(cfg.key, a, b) then (if cfg.direction == Asc then -1 else 1)
    else if KeyLess(cfg.key, b, a) then (if cfg.direction == Asc then 1 else -1)
    else 0
  }

  /** The sort may leave `a` before `b`. */
  function ComparatorLe(cfg: SortConfig): (Trade, Trade) -> bool
  {
    (a: Trade, b: Trade) => Compare(cfg, a, b) <= 0
  }

  /** The comparator decides every pair one way or the other. */
  lemma ComparatorTotal(cfg: SortConfig)
    ensures Total(ComparatorLe(cfg))
  {
    forall a: Trade, b: Trade ensures ComparatorLe(cfg)(a, b) || ComparatorLe(cfg)(b, a) {
      KeyLessAsymmetric(cfg.key, a, b);
    }
  }

  /**
   * Ordered by the comparator means no neighbours are strictly out of order
   * on the column: never decreasing when ascending, never increasing when
   * descending.
   */
  lemma OrderedByColumn(cfg: SortConfig, r: seq<Trade>)
    requires Ordered(r, ComparatorLe(cfg))
    ensures forall i :: 0 < i < |r| ==>
              if cfg.direction == Asc then !KeyLess(cfg.key, r[i], r[i - 1]) else !KeyLess(cfg.key, r[i - 1], r[i])
  {
    forall i | 0 < i < |r|
      ensures if cfg.direction == Asc then !KeyLess(cfg.key, r[i], r[i - 1]) else !KeyLess(cfg.key, r[i - 1], r[i])
    {
      assert ComparatorLe(cfg)(r[i - 1], r[i]);
      KeyLessAsymmetric(cfg.key, r[i - 1], r[i]);
    }
  }

  /**
   * `filteredTrades`: a copy of the month's trades, narrowed by the search
   * and the direction filter, then sorted by the chosen column.
   */
  method FilteredTrades(monthlyTrades: seq<Trade>, term: string, filter: DirectionFilter, cfg: SortConfig)
    returns (result: seq<Trade>)
    ensures forall t :: multiset(result)[t] == if Keeps(term, filter, t) then multiset(monthlyTrades)[t] else 0
    ensures forall t :: t in result <==> t in monthlyTrades && Keeps(term, filter, t)
    ensures filter.Only? ==> forall i :: 0 <= i < |result| ==> result[i].direction == filter.direction
    ensures term == [] && filter.AllDirections? ==> multiset(result) == multiset(monthlyTrades)
    ensures forall i :: 0 < i < |result| ==>
              if cfg.direction == Asc then !KeyLess(cfg.key, result[i], result[i - 1])
              else !KeyLess(cfg.key, result[i - 1], result[i])
  {
    result := monthlyTrades;
    if term != [] {
      result := Filter(result, SearchOf(term));
    }
    var searched := result;
    if filter.Only? {
      result := Filter(result, DirectionOf(filter.direction));
    }
    var narrowed := result;
    result := SortBy(result, ComparatorLe(cfg));
    ComparatorTotal(cfg);
    SortByOrdered(narrowed, ComparatorLe(cfg));
    OrderedByColumn(cfg, result);
    forall t ensures multiset(narrowed)[t] == if Keeps(term, filter, t) then multiset(monthlyTrades)[t] else 0 {
      if term != [] {
        FilterMultiset(monthlyTrades, SearchOf(term), t);
      }
      if filter.Only? {
        FilterMultiset(searched, DirectionOf(filter.direction), t);
      }
    }
    forall t ensures t in result <==> t in monthlyTrades && Keeps(term, filter, t) {
      assert t in result <==> multiset(result)[t] > 0;
      assert t in monthlyTrades <==> multiset(monthlyTrades)[t] > 0;
    }
    forall i | 0 <= i < |result| ensures filter.Only? ==> result[i].direction == filter.direction {
      assert result[i] in multiset(result);
    }
  }
}
