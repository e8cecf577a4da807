/**
 * Calendar arithmetic standing in for the date library: parsing a stored
 * `yyyy-MM-dd` date, the month a date falls in, and the `yyyy-MM` month key.
 */
module Calendar {
  import opened Js
  import opened Text

  datatype CalendarDate = CalendarDate(year: int, month: int, day: int)

  /**
   * A month as one integer, `year * 12 + month - 1`. The application keys
   * months by the string `yyyy-MM`; MonthKeyOrder shows that comparing those
   * strings is comparing these integers.
   */
  type MonthIndex = int

  function MonthIndexOf(year: int, month: int): MonthIndex
  {
    year * 12 + month - 1
  }

  function YearOfIndex(k: MonthIndex): int { k / 12 }

  function MonthOfIndex(k: MonthIndex): (m: int)
    ensures 1 <= m <= 12
  {
    k % 12 + 1
  }

  lemma IndexRoundTrip(k: MonthIndex)
    ensures MonthIndexOf(YearOfIndex(k), MonthOfIndex(k)) == k
  {
  }

  predicate LeapYear(y: int)
  {
    (y % 4 == 0 && y % 100 != 0) || y % 400 == 0
  }

  function DaysInMonth(y: int, m: int): (n: int)
    requires 1 <= m <= 12
    ensures 28 <= n <= 31
  {
    if m == 2 then (if LeapYear(y) then 29 else 28)
    else if m == 4 || m == 6 || m == 9 || m == 11 then 30
    else 31
  }

  predicate ValidDate(d: CalendarDate)
  {
    1 <= d.month <= 12 && 1 <= d.day <= DaysInMonth(d.year, d.month)
  }

  /** The stored shape `yyyy-MM-dd`: ten characters, dashes at 4 and 7, digits elsewhere. */
  predicate IsoShape(s: string)
  {
    |s| == 10 && s[4] == '-' && s[7] == '-'
    && AllDigits(s[..4]) && AllDigits(s[5..7]) && AllDigits(s[8..])
  }

  /**
   * `parseISO` on a `yyyy-MM-dd` string: the date when the fields name a real
   * calendar day, `None` (an Invalid Date) otherwise.
   */
  function ParseIsoDate(s: string): (r: Option<CalendarDate>)
    ensures r.Some? ==> IsoShape(s) && ValidDate(r.value)
    ensures r.Some? ==> 0 <= r.value.year <= 9999
    ensures IsoShape(s) && ValidDate(FieldsOf(s)) ==> r == Some(FieldsOf(s))
    ensures IsoShape(s) && !ValidDate(FieldsOf(s)) ==> r.None?
    ensures !IsoShape(s) ==> r.None?
    ensures r.Some? ==> r.value == FieldsOf(s)
  {
    if IsoShape(s) && ValidDate(FieldsOf(s)) then Some(FieldsOf(s)) else None
  }

  /** A well-formed string that names no calendar day, such as 30 February, is an Invalid Date. */
  lemma ParseIsoDateRejectsNonDay()
    ensures ParseIsoDate("2024-02-30") == None
    ensures ParseIsoDate("2023-02-29") == None
    ensures ParseIsoDate("2024-02-29") == Some(CalendarDate(2024, 2, 29))
  {
    var a, b, c := "2024-02-30", "2023-02-29", "2024-02-29";
    FieldsOfDigits(a);
    FieldsOfDigits(b);
    FieldsOfDigits(c);
  }

  /** The fields of a `yyyy-MM-dd` string, digit by digit. */
  lemma FieldsOfDigits(s: string)
    requires IsoShape(s)
    ensures FieldsOf(s) == CalendarDate(
              ((DigitValue(s[0]) * 10 + DigitValue(s[1])) * 10 + DigitValue(s[2])) * 10 + DigitValue(s[3]),
              DigitValue(s[5]) * 10 + DigitValue(s[6]),
              DigitValue(s[8]) * 10 + DigitValue(s[9]))
  {
    var y, mo, d := s[..4], s[5..7], s[8..];
    assert DigitsValue(y[..1]) == DigitValue(s[0]) by { assert y[..1][..0] == []; }
    assert DigitsValue(y[..2]) == DigitValue(s[0]) * 10 + DigitValue(s[1]) by { assert y[..2][..1] == y[..1]; }
    assert DigitsValue(y[..3]) == (DigitValue(s[0]) * 10 + DigitValue(s[1])) * 10 + DigitValue(s[2]) by {
      assert y[..3][..2] == y[..2];
    }
    assert DigitsValue(y) == DigitsValue(y[..3]) * 10 + DigitValue(s[3]);
    assert DigitsValue(mo) == DigitValue(s[5]) * 10 + DigitValue(s[6]) by { assert mo[..1][..0] == []; }
    assert DigitsValue(d) == DigitValue(s[8]) * 10 + DigitValue(s[9]) by { assert d[..1][..0] == []; }
  }

  /** The three numeric fields of a `yyyy-MM-dd` string. */
  function FieldsOf(s: string): (d: CalendarDate)
    requires IsoShape(s)
    ensures 0 <= d.year <= 9999 && 0 <= d.month <= 99 && 0 <= d.day <= 99
  {
    PadRangeFour(s[..4]);
    PadRangeTwo(s[5..7]);
    PadRangeTwo(s[8..]);
    CalendarDate(DigitsValue(s[..4]), DigitsValue(s[5..7]), DigitsValue(s[8..]))
  }

  lemma PadRangeFour(s: string)
    requires |s| == 4 && AllDigits(s)
    ensures DigitsValue(s) <= 9999
  {
    DigitsBound(s);
  }

  lemma PadRangeTwo(s: string)
    requires |s| == 2 && AllDigits(s)
    ensures DigitsValue(s) <= 99
  {
    DigitsBound(s);
  }

  lemma {:induction false} DigitsBound(s: string)
    requires AllDigits(s)
    ensures DigitsValue(s) < Pow10(|s|)
    decreases |s|
  {
    if s != [] {
      DigitsBound(s[..|s| - 1]);
    }
  }

  /** The month a date falls in: `format(date, 'yyyy-MM')` as an index. */
  function MonthOfDate(d: CalendarDate): MonthIndex
  {
    MonthIndexOf(d.year, d.month)
  }

  /**
   * A position on the time line that orders valid dates chronologically:
   * what `new Date(s)` compares by, up to a monotone change of scale.
   */
  function DayOrdinal(d: CalendarDate): int
  {
    MonthOfDate(d) * 31 + d.day - 1
  }

  /** Valid dates are ordered by day ordinal exactly as by (year, month, day). */
  lemma DayOrdinalChronological(a: CalendarDate, b: CalendarDate)
    requires ValidDate(a) && ValidDate(b)
    ensures DayOrdinal(a) < DayOrdinal(b) <==>
      a.year < b.year || (a.year == b.year && (a.month < b.month || (a.month == b.month && a.day < b.day)))
    ensures MonthOfDate(a) < MonthOfDate(b) ==> DayOrdinal(a) < DayOrdinal(b)
    ensures DayOrdinal(a) == DayOrdinal(b) <==> a == b
  {
  }

  /** `format(monthDate, 'yyyy-MM')` for a month whose year has four digits. */
  function MonthKey(k: MonthIndex): (key: string)
    requires 0 <= YearOfIndex(k) <= 9999
    ensures |key| == 7 && key[4] == '-'
  {
    PadDigits(YearOfIndex(k), 4) + "-" + PadDigits(MonthOfIndex(k), 2)
  }

  /**
   * The application compares month keys as strings (`monthKey <= baseMonth`);
   * for four-digit years that comparison is chronological, which is what lets
   * the model compare month indices instead.
   */
  lemma MonthKeyOrder(a: MonthIndex, b: MonthIndex)
    requires 0 <= YearOfIndex(a) <= 9999 && 0 <= YearOfIndex(b) <= 9999
    ensures StrLt(MonthKey(a), MonthKey(b)) <==> a < b
    ensures MonthKey(a) == MonthKey(b) <==> a == b
  {
    MonthKeyLess(a, b);
    IndexLess(a, b);
    if MonthKey(a) == MonthKey(b) {
      MonthKeyInjective(a, b);
    }
  }

  /** Month indices compare as (year, month) pairs. */
  lemma IndexLess(a: MonthIndex, b: MonthIndex)
    ensures a < b <==> (YearOfIndex(a) < YearOfIndex(b)
                        || (YearOfIndex(a) == YearOfIndex(b) && MonthOfIndex(a) < MonthOfIndex(b)))
  {
    IndexRoundTrip(a);
    IndexRoundTrip(b);
  }

  /** Month keys compare as strings the way their (year, month) pairs compare. */
  lemma MonthKeyLess(a: MonthIndex, b: MonthIndex)
    requires 0 <= YearOfIndex(a) <= 9999 && 0 <= YearOfIndex(b) <= 9999
    ensures StrLt(MonthKey(a), MonthKey(b)) <==>
              YearOfIndex(a) < YearOfIndex(b) || (YearOfIndex(a) == YearOfIndex(b) && MonthOfIndex(a) < MonthOfIndex(b))
  {
    var ya, yb := YearOfIndex(a), YearOfIndex(b);
    var ma, mb := MonthOfIndex(a), MonthOfIndex(b);
    var pa, pb := PadDigits(ya, 4), PadDigits(yb, 4);
    var qa, qb := PadDigits(ma, 2), PadDigits(mb, 2);
    assert MonthKey(a) == pa + ("-" + qa) && MonthKey(b) == pb + ("-" + qb);
    DashedLess(pa, qa, pb, qb);
    PaddedLess(ya, yb, 4);
    PaddedLess(ma, mb, 2);
  }

  /** Two strings of the shape `p-q` with equally long `p`s compare by `p`, then by `q`. */
  lemma DashedLess(pa: string, qa: string, pb: string, qb: string)
    requires |pa| == |pb|
    ensures StrLt(pa + ("-" + qa), pb + ("-" + qb)) <==> StrLt(pa, pb) || (pa == pb && StrLt(qa, qb))
  {
    StrLtConcat(pa, "-" + qa, pb, "-" + qb);
    StrLtConcat("-", qa, "-", qb);
  }

  /** Numbers of at most four digits, padded to the same width, compare and coincide as the numbers do. */
  lemma PaddedLess(x: nat, y: nat, w: nat)
    requires w <= 4 && x < Pow10(w) && y < Pow10(w)
    ensures StrLt(PadDigits(x, w), PadDigits(y, w)) <==> x < y
    ensures PadDigits(x, w) == PadDigits(y, w) <==> x == y
  {
    PadDigitsOrder(x, y, w);
    if PadDigits(x, w) == PadDigits(y, w) {
      PadDigitsInjective(x, y, w);
    }
  }

  /** Distinct months have distinct keys. */
  lemma MonthKeyInjective(a: MonthIndex, b: MonthIndex)
    requires 0 <= YearOfIndex(a) <= 9999 && 0 <= YearOfIndex(b) <= 9999
    requires MonthKey(a) == MonthKey(b)
    ensures a == b
  {
    var ya, yb := YearOfIndex(a), YearOfIndex(b);
    var ma, mb := MonthOfIndex(a), MonthOfIndex(b);
    assert Pow10(4) == 10000 && Pow10(2) == 100;
    assert MonthKey(a)[..4] == PadDigits(ya, 4) && MonthKey(b)[..4] == PadDigits(yb, 4);
    assert MonthKey(a)[5..] == PadDigits(ma, 2) && MonthKey(b)[5..] == PadDigits(mb, 2);
    PadDigitsInjective(ya, yb, 4);
    PadDigitsInjective(ma, mb, 2);
    IndexRoundTrip(a);
    IndexRoundTrip(b);
  }

}
