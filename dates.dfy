/** Calendar dates as the scripts read and write them: Python's
    `datetime.strptime(s, "%Y-%m-%d")`, `strftime("%Y-%m-%d")` (the full-date
    of ISO 8601), and the year-month period that pandas' `to_period('M')`
    groups by, printed "YYYY-MM". */
module Dates {
  import opened Wrappers
  import opened Text

  datatype Date = Date(year: int, month: int, day: int)

  predicate IsLeapYear(y: int)
  {
    (y % 4 == 0 && y % 100 != 0) || y % 400 == 0
  }

  function DaysInMonth(y: int, m: int): (n: int)
    requires 1 <= m <= 12
    ensures 28 <= n <= 31
  {
    if m == 2 then (if IsLeapYear(y) then 29 else 28)
    else if m == 4 || m == 6 || m == 9 || m == 11 then 30
    else 31
  }

  /** A date that Python's `datetime.date` accepts (years 1 to 9999). */
  predicate ValidDate(d: Date)
  {
    1 <= d.year <= 9999 && 1 <= d.month <= 12 && 1 <= d.day <= DaysInMonth(d.year, d.month)
  }

  /** The month field of strptime's `%m`: "1".."9", "01".."09" or "10".."12". */
  function MonthField(t: string): (r: Option<int>)
    ensures r.Some? ==> 1 <= r.value <= 12
  {
    if |t| == 1 && '1' <= t[0] <= '9' then Some(DigitValue(t[0]))
    else if |t| == 2 && t[0] == '0' && '1' <= t[1] <= '9' then Some(DigitValue(t[1]))
    else if |t| == 2 && t[0] == '1' && '0' <= t[1] <= '2' then Some(10 + DigitValue(t[1]))
    else None
  }

  /** The day field of strptime's `%d`: "1".."9", "01".."31", or a space
      followed by "1".."9". */
  function DayField(t: string): (r: Option<int>)
    ensures r.Some? ==> 1 <= r.value <= 31
  {
    if |t| == 1 && '1' <= t[0] <= '9' then Some(DigitValue(t[0]))
    else if |t| == 2 && (t[0] == '0' || t[0] == ' ') && '1' <= t[1] <= '9' then Some(DigitValue(t[1]))
    else if |t| == 2 && (t[0] == '1' || t[0] == '2') && IsDigit(t[1]) then
      Some(10 * DigitValue(t[0]) + DigitValue(t[1]))
    else if |t| == 2 && t[0] == '3' && (t[1] == '0' || t[1] == '1') then Some(30 + DigitValue(t[1]))
    else None
  }

  /** `datetime.strptime(s, "%Y-%m-%d")`: four digits of year, a dash, the
      month field, a dash, the day field and nothing more, naming a date that
      exists; `None` where Python raises `ValueError`. */
  function ParseYMD(s: string): (r: Option<Date>)
    ensures r.Some? ==> ValidDate(r.value)
  {
    if |s| < 5 || !AllDigits(s[..4]) || s[4] != '-' then None
    else
      var rest := s[5..];
      var j := IndexOf(rest, '-');
      var y := DigitsValue(s[..4]);
      DigitsValueBound(s[..4]);
      assert Pow10(4) == 10000;
      if j == |rest| then None
      else
        match (MonthField(rest[..j]), DayField(rest[j + 1..]))
        case (Some(m), Some(d)) =>
          if 1 <= y && d <= DaysInMonth(y, m) then Some(Date(y, m, d)) else None
        case _ => None
  }

  /** `strftime("%Y-%m-%d")`: the zero-padded canonical text of a date. */
  function FormatYMD(d: Date): (s: string)
    requires ValidDate(d)
    ensures |s| == 10 && s[4] == '-' && s[7] == '-'
    ensures forall i :: 0 <= i < 10 && i != 4 && i != 7 ==> IsDigit(s[i])
  {
    PadDigits(d.year, 4) + "-" + PadDigits(d.month, 2) + "-" + PadDigits(d.day, 2)
  }

  /** The text of a year-month period, "YYYY-MM". */
  function FormatYM(year: int, month: int): (s: string)
    requires 1 <= year <= 9999 && 1 <= month <= 12
    ensures |s| == 7 && s[4] == '-'
  {
    PadDigits(year, 4) + "-" + PadDigits(month, 2)
  }

  /** A text that is the canonical form of some date. */
  predicate IsCanonicalDate(s: string)
  {
    ParseYMD(s).Some? && FormatYMD(ParseYMD(s).value) == s
  }

  lemma PadTwo(n: nat)
    requires n < 100
    ensures PadDigits(n, 2) == [DigitChar(n / 10), DigitChar(n % 10)]
  {
  }

  lemma {:induction false} FieldsOfFormat(d: Date)
    requires ValidDate(d)
    ensures MonthField(PadDigits(d.month, 2)) == Some(d.month)
    ensures DayField(PadDigits(d.day, 2)) == Some(d.day)
    ensures AllDigits(PadDigits(d.year, 4)) && DigitsValue(PadDigits(d.year, 4)) == d.year
  {
    MonthOfPad(d.month);
    DayOfPad(d.day);
    assert Pow10(4) == 10000;
  }

  lemma MonthOfPad(m: int)
    requires 1 <= m <= 12
    ensures MonthField(PadDigits(m, 2)) == Some(m)
  {
    PadTwo(m);
    var t := PadDigits(m, 2);
    if m < 10 {
      assert t[0] == '0' && DigitValue(t[1]) == m;
    } else {
      assert t[0] == '1' && DigitValue(t[1]) == m - 10;
    }
  }

  lemma DayOfPad(d: int)
    requires 1 <= d <= 31
    ensures DayField(PadDigits(d, 2)) == Some(d)
  {
    PadTwo(d);
    var t := PadDigits(d, 2);
    if d < 10 {
      assert t[0] == '0' && DigitValue(t[1]) == d;
    } else if d < 30 {
      assert DigitValue(t[0]) == d / 10 && DigitValue(t[1]) == d % 10;
      assert t[0] == '1' || t[0] == '2';
    } else {
      assert t[0] == '3' && DigitValue(t[1]) == d - 30;
    }
  }

  /** Parsing the canonical text of a date gives the date back. */
  lemma {:induction false} ParseFormatRoundTrip(d: Date)
    requires ValidDate(d)
    ensures ParseYMD(FormatYMD(d)) == Some(d)
  {
    var y, m, dd := PadDigits(d.year, 4), PadDigits(d.month, 2), PadDigits(d.day, 2);
    var s := FormatYMD(d);
    assert s == y + "-" + m + "-" + dd;
    assert s[..4] == y;
    var rest := s[5..];
    assert rest == m + "-" + dd;
    assert IndexOf(rest, '-') == 2;
    assert rest[..2] == m && rest[3..] == dd;
    FieldsOfFormat(d);
  }

  /** Every canonical date text is a parseable date text; conversely, the
      canonical text of any date parses back to it. */
  lemma CanonicalDates(d: Date)
    requires ValidDate(d)
    ensures IsCanonicalDate(FormatYMD(d))
  {
    ParseFormatRoundTrip(d);
  }

  /** The year-month period of a date text, as pandas' `to_period('M')`
      prints it; `None` when the text is not a date. */
  function MonthOf(s: string): (r: Option<string>)
    ensures r.Some? <==> ParseYMD(s).Some?
    ensures r.Some? ==> |r.value| == 7
  {
    match ParseYMD(s)
    case Some(d) => Some(FormatYM(d.year, d.month))
    case None => None
  }

  /** For a canonical date text the period is its first seven characters. */
  lemma MonthOfCanonical(s: string)
    requires IsCanonicalDate(s)
    ensures MonthOf(s) == Some(s[..7])
  {
    var d := ParseYMD(s).value;
    assert s == PadDigits(d.year, 4) + "-" + PadDigits(d.month, 2) + "-" + PadDigits(d.day, 2);
    assert s[..7] == PadDigits(d.year, 4) + "-" + PadDigits(d.month, 2);
  }

  /** `pd.Period(t, freq='M')` for the spelling "YYYY-M" or "YYYY-MM":
      the canonical "YYYY-MM", or `None` where pandas raises. */
  function ParsePeriod(t: string): (r: Option<string>)
    ensures r.Some? ==> |r.value| == 7
  {
    if |t| < 6 || !AllDigits(t[..4]) || t[4] != '-' then None
    else
      var y := DigitsValue(t[..4]);
      DigitsValueBound(t[..4]);
      assert Pow10(4) == 10000;
      match MonthField(t[5..])
      case Some(m) => if 1 <= y then Some(FormatYM(y, m)) else None
      case None => None
  }

  /** Every period text that `MonthOf` produces is accepted back as itself. */
  lemma {:induction false} ParsePeriodOfMonth(s: string)
    requires MonthOf(s).Some?
    ensures ParsePeriod(MonthOf(s).value) == MonthOf(s)
  {
    var d := ParseYMD(s).value;
    var t := MonthOf(s).value;
    var y, m := PadDigits(d.year, 4), PadDigits(d.month, 2);
    assert t == y + "-" + m;
    assert t[..4] == y && t[5..] == m;
    FieldsOfFormat(d);
  }
}
