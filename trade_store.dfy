/**
 * The in-memory store behind the context: the trade list, the
 * month-to-deposit map and the settings, with the local-storage branches of
 * add, update and delete and the deposit setter and getter. Persistence is
 * not part of the model; the id and creation time a new trade receives are
 * passed in.
 */
module TradeStore {
  import opened Js
  import opened Calendar
  import opened Folds
  import opened TradeModel
  import opened Ledger

  /** `t => t.id === id ? { ...t, ...u } : t`, over the whole list. */
  function UpdateById(s: seq<Trade>, id: string, u: TradeUpdate): (r: seq<Trade>)
    ensures |r| == |s|
    ensures forall i :: 0 <= i < |s| ==> r[i] == (if s[i].id == id then Merge(s[i], u) else s[i])
    decreases |s|
  {
    if s == [] then []
    else [if s[0].id == id then Merge(s[0], u) else s[0]] + UpdateById(s[1..], id, u)
  }

  function IdIsNot(id: string): Trade -> bool
  {
    (t: Trade) => t.id != id
  }

  /** `trades.filter(t => t.id !== id)`. */
  function RemoveById(s: seq<Trade>, id: string): seq<Trade>
  {
    Filter(s, IdIsNot(id))
  }

  /** No two trades share an id. */
  ghost predicate UniqueIds(s: seq<Trade>)
  {
    forall i, j :: 0 <= i < j < |s| ==> s[i].id != s[j].id
  }

  /** Some trade has this id. */
  ghost predicate HasId(s: seq<Trade>, id: string)
  {
    exists i :: 0 <= i < |s| && s[i].id == id
  }

  /** The store: what the provider keeps in its state. */
  class Store {
    var trades: seq<Trade>
    var deposits: map<MonthIndex, real>
    var settings: Settings

    /** A fresh provider: no trades, no deposits, the default settings. */
    constructor ()
      ensures trades == [] && deposits == map[] && settings == DefaultSettings
    {
      trades := [];
      deposits := map[];
      settings := DefaultSettings;
    }

    /** What the balance resolver reads. */
    function Books(): Books
      reads this
    {
      Ledger.Books(trades, deposits, settings)
    }

    /**
     * `addTrade`: the submitted record with a fresh id and creation time is
     * put in front of the list and returned.
     */
    method AddTrade(data: TradeData, id: string, createdAt: string) returns (t: Trade)
      requires !HasId(trades, id)
      modifies this
      ensures t == NewTrade(data, id, createdAt)
      ensures trades == [t] + old(trades)
      ensures deposits == old(deposits) && settings == old(settings)
      ensures UniqueIds(old(trades)) ==> UniqueIds(trades)
    {
      t := NewTrade(data, id, createdAt);
      AddKeepsIdsUnique(trades, t);
      trades := [t] + trades;
    }

    /** `updateTrade`: every trade with the id takes the fields of the update; nothing is recomputed. */
    method UpdateTrade(id: string, u: TradeUpdate)
      modifies this
      ensures trades == UpdateById(old(trades), id, u)
      ensures deposits == old(deposits) && settings == old(settings)
    {
      trades := UpdateById(trades, id, u);
    }

    /** `deleteTrade`: every trade with the id is dropped. */
    method DeleteTrade(id: string)
      modifies this
      ensures trades == RemoveById(old(trades), id)
      ensures !HasId(trades, id)
      ensures deposits == old(deposits) && settings == old(settings)
    {
      trades := RemoveById(trades, id);
      RemoveByIdSpec(old(trades), id);
    }

    /** `setMonthDeposit`: the month's deposit becomes the parsed amount, or 0 when it does not parse or is 0. */
    method SetMonthDeposit(k: MonthIndex, amount: Option<real>)
      modifies this
      ensures deposits == old(deposits)[k := Or(amount, 0.0)]
      ensures trades == old(trades) && settings == old(settings)
    {
      deposits := deposits[k := Or(amount, 0.0)];
    }

    /** `getMonthDeposit`: the stored deposit of the month, or 0 when none was set. */
    method GetMonthDeposit(k: MonthIndex) returns (r: real)
      ensures k in deposits ==> r == deposits[k]
      ensures k !in deposits ==> r == 0.0
    {
      r := Deposit(deposits, k);
    }
  }

  /** Putting a trade with a new id in front keeps the ids unique. */
  lemma AddKeepsIdsUnique(s: seq<Trade>, t: Trade)
    requires !HasId(s, t.id)
    ensures UniqueIds(s) ==> UniqueIds([t] + s)
  {
    var s' := [t] + s;
    if UniqueIds(s) {
      forall i, j | 0 <= i < j < |s'| ensures s'[i].id != s'[j].id {
        if i == 0 {
          assert s'[j] == s[j - 1];
        } else {
          assert s'[i] == s[i - 1] && s'[j] == s[j - 1];
        }
      }
    }
  }

  /**
   * Deleting by id drops exactly the trades with that id and keeps the rest
   * in their order; no trade with the id remains.
   */
  lemma RemoveByIdSpec(s: seq<Trade>, id: string)
    ensures !HasId(RemoveById(s, id), id)
    ensures forall t :: t in RemoveById(s, id) <==> t in s && t.id != id
    ensures forall t: Trade :: t.id != id ==> multiset(RemoveById(s, id))[t] == multiset(s)[t]
  {
    var r := RemoveById(s, id);
    forall t ensures t in r <==> t in s && t.id != id {
      FilterMembers(s, IdIsNot(id), t);
    }
    forall t: Trade | t.id != id ensures multiset(r)[t] == multiset(s)[t] {
      FilterMultiset(s, IdIsNot(id), t);
    }
  }

  /** Deleting the trade just added, whose id was new, gives back the list as it was. */
  lemma AddThenDelete(s: seq<Trade>, t: Trade)
    requires !HasId(s, t.id)
    ensures RemoveById([t] + s, t.id) == s
  {
    FilterAll(s, IdIsNot(t.id));
    assert ([t] + s)[1..] == s;
  }

  /** An update of an id nobody has changes nothing. */
  lemma UpdateMissingId(s: seq<Trade>, id: string, u: TradeUpdate)
    requires !HasId(s, id)
    ensures UpdateById(s, id, u) == s
  {
  }

  /**
   * An update without an id field changes no trade's id, so unique ids stay
   * unique, and leaves every trade with another id as it was.
   */
  lemma UpdateKeepsIds(s: seq<Trade>, id: string, u: TradeUpdate)
    requires u.id.None?
    ensures forall i :: 0 <= i < |s| ==> UpdateById(s, id, u)[i].id == s[i].id
    ensures UniqueIds(s) ==> UniqueIds(UpdateById(s, id, u))
  {
  }

  /**
   * Updating the trade with an edited form record stores that record under the
   * trade's id and creation time; a trade consistent before stays consistent
   * only when the record is.
   */
  lemma UpdateWithForm(s: seq<Trade>, id: string, data: TradeData, i: nat)
    requires i < |s| && s[i].id == id
    ensures UpdateById(s, id, UpdateOf(data))[i] == NewTrade(data, id, s[i].createdAt)
    ensures Consistent(UpdateById(s, id, UpdateOf(data))[i]) <==> DataConsistent(data)
  {
    MergeFormRecord(s[i], data);
  }

  /** After a deposit is set, reading the month gives the stored amount, and every other month reads as before. */
  lemma SetThenGetDeposit(d: map<MonthIndex, real>, k: MonthIndex, amount: Option<real>, j: MonthIndex)
    ensures Deposit(d[k := Or(amount, 0.0)], j) == if j == k then Or(amount, 0.0) else Deposit(d, j)
    ensures Deposit(d[k := Or(amount, 0.0)], k) == 0.0 || amount == Some(Deposit(d[k := Or(amount, 0.0)], k))
  {
    OrZeroIsValueOrZero(amount);
  }

  /**
   * Changing the deposit of month `k` leaves the starting balance of every
   * month up to `k` as it was: a deposit only carries forward.
   */
  lemma {:induction false} DepositChangeCarriesForward(b: Books, now: MonthIndex, k: MonthIndex, v: real, m: MonthIndex)
    requires m <= k
    ensures StartingBalance(b.(deposits := b.deposits[k := v]), now, m) == StartingBalance(b, now, m)
    decreases m - BaseMonth(b, now)
  {
    var b' := b.(deposits := b.deposits[k := v]);
    assert BaseMonth(b', now) == BaseMonth(b, now);
    if m > BaseMonth(b, now) && m - 1 != BaseMonth(b, now) {
      DepositChangeCarriesForward(b, now, k, v, m - 1);
    }
  }
}
