/** `expense_tracker_analytics.py`: the console tracker with summaries. It
    normalises the date typed for a new expense, lists the newest expenses
    first, totals per category (largest first) and per month (earliest
    first), and exports the rows of one month, by default the latest. */
module Analytics {
  import opened Wrappers
  import opened Text
  import opened Dates
  import opened Amounts
  import opened Ledger
  import opened Sorting
  import opened Aggregate
  import opened Store

  // ---------------------------------------------------------------------
  // Adding an expense
  // ---------------------------------------------------------------------

  /** One pass of `parse_date_input`: a blank answer is today, a Y-M-D date
      is re-emitted zero-padded, and anything else (`None`) makes the loop
      ask again. */
  function ParseDateInput(today: Date, s: string): (r: Option<string>)
    requires ValidDate(today)
    ensures Strip(s) == [] ==> r == Some(FormatYMD(today))
    ensures r.None? <==> Strip(s) != [] && ParseYMD(Strip(s)).None?
    ensures r.Some? ==> IsCanonicalDate(r.value)
    ensures r.Some? && Strip(s) != [] ==> ParseYMD(r.value) == ParseYMD(Strip(s))
  {
    var t := Strip(s);
    if t == [] then
      CanonicalDates(today);
      Some(FormatYMD(today))
    else match ParseYMD(t)
      case Some(d) =>
        CanonicalDates(d);
        ParseFormatRoundTrip(d);
        Some(FormatYMD(d))
      case None => None
  }

  /** A normalised date is accepted again as itself, so normalising is
      idempotent. */
  lemma ParseDateInputIdempotent(today: Date, s: string)
    requires ValidDate(today) && ParseDateInput(today, s).Some?
    ensures ParseDateInput(today, ParseDateInput(today, s).value) == ParseDateInput(today, s)
  {
    var t := ParseDateInput(today, s).value;
    CanonicalEnds(t);
    StripUnchanged(t);
    var d := ParseYMD(t).value;
    assert FormatYMD(d) == t;
  }

  /** A canonical date starts and ends with a digit. */
  lemma CanonicalEnds(t: string)
    requires IsCanonicalDate(t)
    ensures t != [] && !IsSpace(t[0]) && !IsSpace(t[|t| - 1])
  {
    var f := FormatYMD(ParseYMD(t).value);
    assert IsDigit(f[0]) && IsDigit(f[9]);
  }

  /** The answer `add_expense` asks for again. */
  datatype Field = DateField | AmountField

  /** The row `add_expense` writes: the normalised date, the category as
      typed or "Misc" when blank (not title-cased), the amount once it
      parses, and the stripped description. */
  function ValidateEntry(today: Date, dateText: string, categoryText: string, amountText: string, descriptionText: string)
    : (r: Result<Record, Field>)
    requires ValidDate(today)
    ensures r == Err(DateField) <==> ParseDateInput(today, dateText).None?
    ensures r == Err(AmountField) <==> ParseDateInput(today, dateText).Some? && ParseFloat(amountText).None?
    ensures r.Ok? ==>
      && Some(r.value.date) == ParseDateInput(today, dateText)
      && IsCanonicalDate(r.value.date)
      && r.value.category == (if Strip(categoryText) == [] then "Misc" else Strip(categoryText))
      && r.value.category != []
      && Some(r.value.amount) == ParseFloat(amountText)
      && r.value.description == Strip(descriptionText)
  {
    match ParseDateInput(today, dateText)
    case None => Err(DateField)
    case Some(date) =>
      var category := if Strip(categoryText) == [] then "Misc" else Strip(categoryText);
      ParseFloatStrip(amountText);
      match ParseFloat(Strip(amountText))
      case None => Err(AmountField)
      case Some(amount) => Ok(Record(date, category, amount, Strip(descriptionText)))
  }

  /** `add_expense()`: the accepted row is appended; an answer that would
      be asked again leaves the file alone. */
  method AddExpense(f: ExpenseFile, today: Date, dateText: string, categoryText: string, amountText: string, descriptionText: string)
    returns (r: Result<Record, Field>)
    requires ValidDate(today)
    modifies f
    ensures r == ValidateEntry(today, dateText, categoryText, amountText, descriptionText)
    ensures r.Ok? ==> f.contents == Appended(old(f.contents), r.value)
    ensures r.Err? ==> f.contents == old(f.contents)
  {
    r := ValidateEntry(today, dateText, categoryText, amountText, descriptionText);
    if r.Ok? {
      f.AppendRow(r.value);
    }
  }

  // ---------------------------------------------------------------------
  // Reading with dates
  // ---------------------------------------------------------------------

  /** The day number of a date text that parses, ordered as the calendar. */
  function DayNumber(s: string): (n: int)
    ensures ParseYMD(s).Some? ==> n == ParseYMD(s).value.year * 10000 + ParseYMD(s).value.month * 100 + ParseYMD(s).value.day
  {
    match ParseYMD(s)
    case Some(d) => d.year * 10000 + d.month * 100 + d.day
    case None => 0
  }

  /** Newer or the same day, for a column of dates. */
  predicate CalendarGe(a: Record, b: Record)
  {
    DayNumber(a.date) >= DayNumber(b.date)
  }

  /** Later or equal in `str` order, for a column of text. */
  predicate TextGe(a: Record, b: Record)
  {
    LexLe(b.date, a.date)
  }

  /** `sort_values("Date", ascending=False)` compares dates when the column
      holds dates and text otherwise. */
  function NewestFirst(rs: seq<Record>): (Record, Record) -> bool
  {
    if AllDatesParse(rs) then CalendarGe else TextGe
  }

  lemma NewestFirstTotal(rs: seq<Record>)
    ensures TotalPreorder(NewestFirst(rs))
  {
    if !AllDatesParse(rs) {
      forall a: Record, b: Record ensures TextGe(a, b) || TextGe(b, a) {
        LexLeTotal(a.date, b.date);
      }
      forall a: Record, b: Record, c: Record | TextGe(a, b) && TextGe(b, c) ensures TextGe(a, c) {
        LexLeTransitive(c.date, b.date, a.date);
      }
    }
  }

  /** How a reading command ends. */
  datatype View =
    | NoExpenses           // "No expenses found" for a missing file or a table without rows
    | Raised               // an exception ends the command
    | Shown(rows: seq<Record>)

  /** `view_expense(limit)`: the rows newest first, cut to the first
      `limit` when a limit other than 0 is given. */
  function ViewExpense(c: Contents, limit: Option<nat>): (v: View)
    ensures v == NoExpenses <==> c.Missing? || c == Table([])
    ensures v == Raised <==> c.Blank? || c.Unreadable?
    ensures v.Shown? ==> c.Table? && c.records != []
    ensures v.Shown? ==>
      |v.rows| == (if limit.Some? && 0 < limit.value < |c.records| then limit.value else |c.records|)
    ensures v.Shown? ==> multiset(v.rows) <= multiset(c.records)
  {
    match c
    case Missing => NoExpenses
    case Blank => Raised
    case Unreadable => Raised
    case Table(rs) =>
      if rs == [] then NoExpenses
      else
        var sorted := SortBy(rs, NewestFirst(rs));
        var n := if limit.Some? && limit.value > 0 then limit.value else |rs|;
        HeadMultiset(sorted, n);
        Shown(Head(sorted, n))
  }

  /** The rows shown are newest first, and no row left out is newer than a
      row shown: they are the newest `limit` rows. */
  lemma ViewExpenseNewest(c: Contents, limit: Option<nat>)
    requires ViewExpense(c, limit).Shown?
    ensures Sorted(ViewExpense(c, limit).rows, NewestFirst(c.records))
    ensures var rows := ViewExpense(c, limit).rows;
      forall x, y :: x in rows && y in multiset(c.records) - multiset(rows) ==> NewestFirst(c.records)(x, y)
  {
    var rs := c.records;
    var le := NewestFirst(rs);
    var sorted := SortBy(rs, le);
    NewestFirstTotal(rs);
    SortBySorted(rs, le);
    SortedPrefix(sorted, |ViewExpense(c, limit).rows|, le);
  }

  // ---------------------------------------------------------------------
  // Summaries
  // ---------------------------------------------------------------------

  datatype Summary =
    | NoData               // "No expenses found"
    | Failed               // an exception ends the command
    | Buckets(buckets: seq<Bucket>)

  /** `total_by_category()`: the total of each category, largest first. An
      empty table gives no totals; only a missing file is reported. */
  function TotalByCategory(c: Contents): (s: Summary)
    ensures s == NoData <==> c.Missing?
    ensures s == Failed <==> c.Blank? || c.Unreadable?
    ensures s.Buckets? ==> c.Table? && s.buckets == ByTotalDescending(c.records, ByCategory)
  {
    match c
    case Missing => NoData
    case Blank => Failed
    case Unreadable => Failed
    case Table(rs) => Buckets(ByTotalDescending(rs, ByCategory))
  }

  /** The category totals are one per category of the file, each the sum
      of exactly that category's rows, in descending order of total. */
  lemma TotalByCategoryCorrect(c: Contents)
    requires c.Table?
    ensures var bs := TotalByCategory(c).buckets;
      && DistinctKeys(bs)
      && Sorted(bs, TotalGe)
      && KeySet(bs) == (set r | r in c.records :: r.category)
      && (forall b :: b in bs ==> b.total == SumAmounts(FilterCategory(c.records, b.key)))
      && SumTotals(bs) == SumAmounts(c.records)
  {
    var rs := c.records;
    ByTotalDescendingCorrect(rs, ByCategory);
    TotalsCorrect(rs, ByCategory);
    SortedBuckets(Totals(rs, ByCategory), KeyLe);
    SortedBuckets(GroupBy(rs, ByCategory), TotalGe);
    SortBySum(Totals(rs, ByCategory), KeyLe);
    SortBySum(GroupBy(rs, ByCategory), TotalGe);
  }

  /** `monthly_summary()`: the total of each year-month, earliest first.
      The `.dt` accessor needs a column of dates, so a date that does not
      parse ends the command with an exception. */
  function MonthlySummary(c: Contents): (s: Summary)
    ensures s == NoData <==> c.Missing? || c == Table([])
    ensures s.Buckets? <==> c.Table? && c.records != [] && AllDatesParse(c.records)
    ensures s.Buckets? ==> s.buckets == GroupBy(c.records, ByMonth)
  {
    match c
    case Missing => NoData
    case Blank => Failed
    case Unreadable => Failed
    case Table(rs) =>
      if rs == [] then NoData
      else if !AllDatesParse(rs) then Failed
      else Buckets(GroupBy(rs, ByMonth))
  }

  /** The monthly totals are one per month that has a row, months in
      ascending order, each the sum of that month's rows. */
  lemma MonthlySummaryCorrect(c: Contents)
    requires MonthlySummary(c).Buckets?
    ensures var bs := MonthlySummary(c).buckets;
      && DistinctKeys(bs)
      && Sorted(bs, KeyLe)
      && KeySet(bs) == (set r | r in c.records :: MonthOf(r.date).value)
      && forall b :: b in bs ==> b.total == SumAmounts(Select(c.records, KeyIs(ByMonth, b.key)))
  {
    var rs := c.records;
    GroupByCorrect(rs, ByMonth);
    MonthKeySet(rs);
  }

  // ---------------------------------------------------------------------
  // Month export
  // ---------------------------------------------------------------------

  /** The year-month of every row, in file order. */
  function MonthKeys(rs: seq<Record>): (ks: seq<string>)
    ensures |ks| == |rs|
    ensures forall i :: 0 <= i < |rs| ==> ks[i] == KeyOf(ByMonth, rs[i])
  {
    if rs == [] then [] else MonthKeys(rs[..|rs| - 1]) + [KeyOf(ByMonth, rs[|rs| - 1])]
  }

  datatype Export =
    | NothingToExport           // "No expenses found" for a missing file or a table without rows
    | ExportError               // an exception ends the command
    | InvalidMonth         // "Invalid month format": the month is asked again
    | NoDataFor(month: string)
    | Exported(month: string, fileName: string, rows: seq<Record>)

  /** The month `export_month_report` exports: the latest month of the file
      for a blank answer, otherwise the answer read as a period. */
  function ChosenMonth(rs: seq<Record>, monthInput: string): (m: Option<string>)
    requires rs != []
    ensures Strip(monthInput) == [] ==> m == Some(MaxText(MonthKeys(rs)))
    ensures Strip(monthInput) != [] ==> m == ParsePeriod(Strip(monthInput))
  {
    if Strip(monthInput) == [] then Some(MaxText(MonthKeys(rs))) else ParsePeriod(Strip(monthInput))
  }

  /** `export_month_report()`: the rows of the chosen month, in file order,
      written to `expense_report_<YYYY-MM>.csv`; a month without rows is
      reported and nothing is written. */
  function ExportMonthReport(c: Contents, monthInput: string): (e: Export)
    ensures e == NothingToExport <==> c.Missing? || c == Table([])
    ensures e == ExportError <==> c.Blank? || c.Unreadable? || (c.Table? && c.records != [] && !AllDatesParse(c.records))
    ensures e == InvalidMonth ==> Strip(monthInput) != [] && ParsePeriod(Strip(monthInput)).None?
    ensures c.Table? && c.records != [] && AllDatesParse(c.records) ==>
      (e == InvalidMonth <==> ChosenMonth(c.records, monthInput).None?)
    ensures e.NoDataFor? || e.Exported? ==>
      c.Table? && c.records != [] && AllDatesParse(c.records) && ChosenMonth(c.records, monthInput) == Some(e.month)
    ensures e.NoDataFor? <==>
      && c.Table? && c.records != [] && AllDatesParse(c.records) && ChosenMonth(c.records, monthInput).Some?
      && Select(c.records, KeyIs(ByMonth, ChosenMonth(c.records, monthInput).value)) == []
    ensures e.NoDataFor? ==> forall r :: r in c.records ==> MonthOf(r.date) != Some(e.month)
    ensures e.Exported? ==>
      && c.Table? && e.fileName == "expense_report_" + e.month + ".csv"
      && e.rows != []
      && forall x :: x in e.rows <==> x in c.records && MonthOf(x.date) == Some(e.month)
  {
    match c
    case Missing => NothingToExport
    case Blank => ExportError
    case Unreadable => ExportError
    case Table(rs) =>
      if rs == [] then NothingToExport
      else if !AllDatesParse(rs) then ExportError
      else match ChosenMonth(rs, monthInput)
        case None => InvalidMonth
        case Some(ym) =>
          var rows := Select(rs, KeyIs(ByMonth, ym));
          MonthRows(rs, ym);
          if rows == [] then NoDataFor(ym)
          else Exported(ym, "expense_report_" + ym + ".csv", rows)
  }

  /** When every date parses, the rows of a month are those whose period
      is that month. */
  lemma MonthRows(rs: seq<Record>, ym: string)
    requires AllDatesParse(rs)
    ensures forall x :: x in Select(rs, KeyIs(ByMonth, ym)) <==> x in rs && MonthOf(x.date) == Some(ym)
  {
    forall x | x in rs ensures KeyOf(ByMonth, x) == ym <==> MonthOf(x.date) == Some(ym) {
    }
  }

  /** A blank answer exports the latest month of the file, which always has
      rows, so it is never reported as empty; the export keeps the file
      order of the rows. */
  lemma ExportLatestMonth(c: Contents)
    requires c.Table? && c.records != [] && AllDatesParse(c.records)
    ensures ExportMonthReport(c, "").Exported?
    ensures var e := ExportMonthReport(c, "");
      && (forall r :: r in c.records ==> LexLe(MonthOf(r.date).value, e.month))
      && (exists r :: r in c.records && MonthOf(r.date) == Some(e.month))
      && e.rows == Select(c.records, KeyIs(ByMonth, e.month))
  {
    var rs := c.records;
    var ym := MaxText(MonthKeys(rs));
    assert Strip("") == [];
    var r := LatestMonth(rs);
    MonthRows(rs, ym);
    assert r in Select(rs, KeyIs(ByMonth, ym));
    ExportChosen(c, "", ym);
  }

  /** A chosen month with rows is exported. */
  lemma ExportChosen(c: Contents, monthInput: string, ym: string)
    requires c.Table? && c.records != [] && AllDatesParse(c.records)
    requires ChosenMonth(c.records, monthInput) == Some(ym)
    requires Select(c.records, KeyIs(ByMonth, ym)) != []
    ensures ExportMonthReport(c, monthInput)
         == Exported(ym, "expense_report_" + ym + ".csv", Select(c.records, KeyIs(ByMonth, ym)))
  {
  }

  /** The latest month of the rows is the month of some row and no row's
      month is later. */
  lemma LatestMonth(rs: seq<Record>) returns (latest: Record)
    requires rs != [] && AllDatesParse(rs)
    ensures latest in rs && MonthOf(latest.date) == Some(MaxText(MonthKeys(rs)))
    ensures forall r :: r in rs ==> LexLe(MonthOf(r.date).value, MaxText(MonthKeys(rs)))
  {
    var ks := MonthKeys(rs);
    var ym := MaxText(ks);
    var i :| 0 <= i < |ks| && ks[i] == ym;
    latest := rs[i];
    forall r | r in rs ensures LexLe(MonthOf(r.date).value, ym) {
      var j :| 0 <= j < |rs| && rs[j] == r;
      assert ks[j] in ks;
    }
  }
}
