/**
 * The trade form: its fields, the net-result preview, the record it
 * submits, whether the submission adds or updates, and the date shown to
 * the user.
 */
module TradeForm {
  import opened Js
  import opened Text
  import opened Calendar
  import opened TradeModel

  /**
   * The form's state. The two amounts are text fields; `Some(x)` is text
   * that `parseFloat` reads as `x`, `None` text it cannot read (empty
   * included).
   */
  datatype FormData = FormData(
    date: string,
    pair: string,
    direction: Direction,
    balanceTrade: Option<real>,
    commission: Option<real>,
    notes: string)

  /** `editTrade?.x || fallback` for a string field. */
  function OrString(s: string, fallback: string): string
  {
    if s != [] then s else fallback
  }

  /**
   * The form's initial state: the edited trade's fields, each falling back
   * when empty (the date to today's); a new trade starts empty, dated today,
   * long. A stored amount is shown as its own text, so it reads back as is.
   */
  function InitialForm(editTrade: Option<Trade>, today: string): FormData
  {
    match editTrade
    case None => FormData(today, "", Long, None, None, "")
    case Some(t) =>
      FormData(OrString(t.date, today), t.pair, t.direction, Some(t.balanceTrade), Some(t.commission), t.notes)
  }

  /** `parseFloat(x) || 0`: an amount that does not parse counts as 0. */
  function Amount(x: Option<real>): (r: real)
    ensures x.None? ==> r == 0.0
    ensures x.Some? ==> r == x.value
  {
    OrZeroIsValueOrZero(x);
    Or(x, 0.0)
  }

  /** `calculateFinalResult`: the preview of the net result. */
  function CalculateFinalResult(f: FormData): real
  {
    Amount(f.balanceTrade) - Amount(f.commission)
  }

  /** The `tradeData` record of `handleSubmit`; a custom pair is upper-cased. */
  function BuildTradeData(f: FormData, showCustomPair: bool, customPair: string): TradeData
  {
    var balance := Amount(f.balanceTrade);
    var commission := Amount(f.commission);
    TradeData(f.date, if showCustomPair then ToUpper(customPair) else f.pair, f.direction,
      balance, commission, balance - commission, f.notes)
  }

  /**
   * The submitted record is consistent, shows the same net result as the
   * preview, counts an unreadable amount as 0, and takes its pair from the
   * custom field, upper-cased, exactly when that field is shown.
   */
  lemma SubmittedRecord(f: FormData, showCustomPair: bool, customPair: string)
    ensures var d := BuildTradeData(f, showCustomPair, customPair);
            DataConsistent(d)
            && d.finalResult == CalculateFinalResult(f)
            && (f.balanceTrade.None? ==> d.balanceTrade == 0.0)
            && (f.commission.None? ==> d.commission == 0.0)
            && d.pair == (if showCustomPair then ToUpper(customPair) else f.pair)
            && (showCustomPair ==> forall i :: 0 <= i < |d.pair| ==> !('a' <= d.pair[i] <= 'z'))
  {
  }

  /** What submitting does: update the edited trade by its id, or add a new one. */
  datatype Submission = UpdateTrade(id: string, data: TradeData) | AddTrade(data: TradeData)

  function Submit(editTrade: Option<Trade>, f: FormData, showCustomPair: bool, customPair: string): (r: Submission)
    ensures editTrade.Some? <==> r.UpdateTrade?
    ensures editTrade.Some? ==> r.id == editTrade.value.id
    ensures r.data == BuildTradeData(f, showCustomPair, customPair)
  {
    var data := BuildTradeData(f, showCustomPair, customPair);
    if editTrade.Some? then UpdateTrade(editTrade.value.id, data) else AddTrade(data)
  }

  /**
   * Opening a consistent trade for editing and saving without changes gives
   * the trade back: the form shows exactly what is stored.
   */
  lemma EditWithoutChanges(t: Trade, today: string)
    requires Consistent(t) && t.date != []
    ensures Merge(t, UpdateOf(BuildTradeData(InitialForm(Some(t), today), false, ""))) == t
  {
  }

  /** Piece `i` of a split, or the text `undefined` when there is no such piece. */
  function PieceOr(parts: seq<string>, i: nat): string
  {
    if i < |parts| then parts[i] else "undefined"
  }

  /** `formatDisplayDate`: `const [year, month, day] = s.split('-')` reassembled as `day/month/year`. */
  function FormatDisplayDate(s: string): string
  {
    var parts := Split(s, '-');
    PieceOr(parts, 2) + "/" + PieceOr(parts, 1) + "/" + PieceOr(parts, 0)
  }

  /** Three dash-free fields joined by dashes come back as `day/month/year`. */
  lemma FormatDisplayDateFields(y: string, m: string, d: string)
    requires '-' !in y && '-' !in m && '-' !in d
    ensures FormatDisplayDate(y + "-" + m + "-" + d) == d + "/" + m + "/" + y
  {
    SplitNone(d, '-');
    SplitFirst(m, '-', d);
    SplitFirst(y, '-', m + "-" + d);
    assert y + "-" + m + "-" + d == y + ['-'] + (m + "-" + d);
    assert m + "-" + d == m + ['-'] + d;
  }

  /** A `yyyy-MM-dd` date is shown as `dd/MM/yyyy`. */
  lemma FormatDisplayDateIso(s: string)
    requires IsoShape(s)
    ensures FormatDisplayDate(s) == s[8..] + "/" + s[5..7] + "/" + s[..4]
  {
    forall k | 0 <= k < 4 ensures s[..4][k] != '-' {
      assert IsDigit(s[..4][k]);
    }
    forall k | 0 <= k < 2 ensures s[5..7][k] != '-' && s[8..][k] != '-' {
      assert IsDigit(s[5..7][k]) && IsDigit(s[8..][k]);
    }
    assert s == s[..4] + "-" + s[5..7] + "-" + s[8..];
    FormatDisplayDateFields(s[..4], s[5..7], s[8..]);
  }

  /** A date with no dash has no month or day piece: both show as `undefined`. */
  lemma FormatDisplayDateNoDash(s: string)
    requires '-' !in s
    ensures FormatDisplayDate(s) == "undefined/undefined/" + s
  {
    SplitNone(s, '-');
  }
}
