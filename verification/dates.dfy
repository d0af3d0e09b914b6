/**
  Calendar dates as the transforms handle them: `pd.to_datetime` on a `YYYY-MM-DD` string,
  `.dt.strftime('%Y%m%d')`, and cutting an ISO timestamp at its first `T`.
 */
module Dates {

  import opened Options
  import opened Strings

  datatype Date = Date(year: int, month: int, day: int)

  predicate IsLeapYear(y: int) {
    (y % 4 == 0 && y % 100 != 0) || y % 400 == 0
  }

  function DaysInMonth(y: int, m: int): int
    requires 1 <= m <= 12
  {
    if m == 2 then (if IsLeapYear(y) then 29 else 28)
    else if m == 4 || m == 6 || m == 9 || m == 11 then 30
    else 31
  }

  predicate IsCalendarDate(d: Date) {
    1 <= d.month <= 12 && 1 <= d.day <= DaysInMonth(d.year, d.month)
  }

  /** Chronological order of days. */
  predicate NotAfter(a: Date, b: Date) {
    a.year < b.year || (a.year == b.year && (a.month < b.month || (a.month == b.month && a.day <= b.day)))
  }

  /** The first and last whole days a pandas nanosecond `Timestamp` can hold. */
  const FirstTimestampDay := Date(1677, 9, 22)
  const LastTimestampDay := Date(2262, 4, 11)

  /** A day `pd.to_datetime` can produce without raising an out-of-bounds error. */
  predicate Representable(d: Date) {
    IsCalendarDate(d) && NotAfter(FirstTimestampDay, d) && NotAfter(d, LastTimestampDay)
  }

  /** `YYYY-MM-DD`, the form `date.today().strftime('%Y-%m-%d')` writes. */
  function FormatIso(d: Date): string
    requires Representable(d)
  {
    PadDigits(d.year, 4) + "-" + PadDigits(d.month, 2) + "-" + PadDigits(d.day, 2)
  }

  /** `YYYYMMDD`, the form `.dt.strftime('%Y%m%d')` writes. */
  function FormatBasic(d: Date): string
    requires Representable(d)
  {
    PadDigits(d.year, 4) + PadDigits(d.month, 2) + PadDigits(d.day, 2)
  }

  /**
    `pd.to_datetime` of one cell: a `YYYY-MM-DD` string naming a representable day.
    `None` means the conversion raises.
   */
  function ParseIso(s: string): (r: Option<Date>)
    ensures r.Some? ==> Representable(r.value) && FormatIso(r.value) == s
  {
    if |s| == 10 && s[4] == '-' && s[7] == '-'
       && AllDigits(s[..4]) && AllDigits(s[5..7]) && AllDigits(s[8..])
    then
      var d := Date(ParseNat(s[..4]), ParseNat(s[5..7]), ParseNat(s[8..]));
      if Representable(d) then
        FormatIsoOfFields(s, d);
        Some(d)
      else None
    else None
  }

  /** Each field of a `YYYY-MM-DD` text is written back the way it was read. */
  lemma FormatIsoOfFields(s: string, d: Date)
    requires |s| == 10 && s[4] == '-' && s[7] == '-'
    requires AllDigits(s[..4]) && AllDigits(s[5..7]) && AllDigits(s[8..])
    requires d == Date(ParseNat(s[..4]), ParseNat(s[5..7]), ParseNat(s[8..]))
    requires Representable(d)
    ensures FormatIso(d) == s
  {
    PadDigitsParse(s[..4]);
    PadDigitsParse(s[5..7]);
    PadDigitsParse(s[8..]);
    IsoPieces(s[..4], s[5..7], s[8..]);
    IsoSplit(s);
  }

  /** The three fields of a `YYYY-MM-DD` text sit at offsets 0, 5 and 8, behind two dashes. */
  lemma IsoPieces(y: string, m: string, dd: string)
    requires |y| == 4 && |m| == 2 && |dd| == 2
    ensures |y + "-" + m + "-" + dd| == 10
    ensures (y + "-" + m + "-" + dd)[..4] == y && (y + "-" + m + "-" + dd)[4] == '-'
    ensures (y + "-" + m + "-" + dd)[5..7] == m && (y + "-" + m + "-" + dd)[7] == '-'
    ensures (y + "-" + m + "-" + dd)[8..] == dd
  {
    var s := y + "-" + m + "-" + dd;
    assert s[..4] == y;
    assert s[5..7] == m;
    assert s[8..] == dd;
  }

  /** A ten-character text with dashes at 4 and 7 is its three fields joined by dashes. */
  lemma IsoSplit(s: string)
    requires |s| == 10 && s[4] == '-' && s[7] == '-'
    ensures s == s[..4] + "-" + s[5..7] + "-" + s[8..]
  {
    var t := s[..4] + "-" + s[5..7] + "-" + s[8..];
    assert forall k :: 0 <= k < 10 ==> t[k] == s[k];
  }

  /** Every representable day is read back from its `YYYY-MM-DD` text. */
  lemma ParseFormatIso(d: Date)
    requires Representable(d)
    ensures ParseIso(FormatIso(d)) == Some(d)
  {
    assert Pow10(4) == 10000 && Pow10(2) == 100;
    ParsePadDigits(d.year, 4);
    ParsePadDigits(d.month, 2);
    ParsePadDigits(d.day, 2);
    IsoPieces(PadDigits(d.year, 4), PadDigits(d.month, 2), PadDigits(d.day, 2));
  }

  /** The `YYYYMMDD` text, read as a number, is the date key `year * 10000 + month * 100 + day`. */
  lemma BasicIsDateKey(d: Date)
    requires Representable(d)
    ensures |FormatBasic(d)| == 8 && AllDigits(FormatBasic(d))
    ensures ParseNat(FormatBasic(d)) == d.year * 10000 + d.month * 100 + d.day
  {
    assert Pow10(4) == 10000 && Pow10(2) == 100;
    ParsePadDigits(d.year, 4);
    ParsePadDigits(d.month, 2);
    ParsePadDigits(d.day, 2);
    var y := PadDigits(d.year, 4);
    var m := PadDigits(d.month, 2);
    var dd := PadDigits(d.day, 2);
    ParseNatConcat(y, m);
    ParseNatConcat(y + m, dd);
  }

  /** A `YYYY-MM-DD` text holds digits and dashes only, so no `T`. */
  lemma IsoHasNoT(d: Date)
    requires Representable(d)
    ensures 'T' !in FormatIso(d)
  {
    var y, m, dd := PadDigits(d.year, 4), PadDigits(d.month, 2), PadDigits(d.day, 2);
    assert 'T' !in y && 'T' !in m && 'T' !in dd;
    assert FormatIso(d) == y + "-" + m + "-" + dd;
  }

  /** `s.split('T')[0]`: the text before the first `T`, or all of `s`. */
  function BeforeT(s: string): (r: string)
    ensures 'T' !in r
    ensures r <= s
  {
    SplitPiecesFree(s, "T");
    ContainsChar(Split(s, "T")[0], 'T');
    Split(s, "T")[0]
  }

  /** Cutting `<day>T<time>` at the `T` leaves exactly the day. */
  lemma BeforeTOfTimestamp(day: string, time: string)
    requires 'T' !in day
    ensures BeforeT(day + "T" + time) == day
  {
    FindAfterFree(day, "T", time);
    var s := day + "T" + time;
    assert s[..|day|] == day;
    assert Split(s, "T")[0] == day;
  }
}
