/** `expense_tracker_pro.py`: the console tracker with tables and a PDF
    report. It appends title-cased expenses, totals per month and per
    category, and lays out a report of the total, the top category and the
    last ten expenses, moving a cursor down the page line by line. */
module Pro {
  import opened Wrappers
  import opened Text
  import opened Dates
  import opened Amounts
  import opened Ledger
  import opened Sorting
  import opened Aggregate
  import opened Store

  // ---------------------------------------------------------------------
  // Adding an expense
  // ---------------------------------------------------------------------

  /** What `add_expense` leads to. The amount goes through `float(input())`
      unguarded, so one that is not a number ends the program. */
  datatype AddOutcome = Added(record: Record) | AmountError

  /** The row `add_expense` writes: the date as typed (stripped, not
      checked) or today when blank, the category title-cased or "Misc" when
      blank, the amount, and the stripped description. */
  function NewRecord(today: Date, dateText: string, categoryText: string, amount: real, descriptionText: string)
    : (r: Record)
    requires ValidDate(today)
    ensures r.date == (if Strip(dateText) == [] then FormatYMD(today) else Strip(dateText))
    ensures r.date != []
    ensures r.category != [] && Title(r.category) == r.category
    ensures Strip(categoryText) != [] ==> r.category == Title(Strip(categoryText))
    ensures Strip(categoryText) == [] ==> r.category == "Misc"
    ensures r.amount == amount && r.description == Strip(descriptionText)
  {
    var date := if Strip(dateText) == [] then FormatYMD(today) else Strip(dateText);
    var titled := Title(Strip(categoryText));
    TitleIdempotent(Strip(categoryText));
    MiscIsTitled();
    var category := if titled == [] then "Misc" else titled;
    Record(date, category, amount, Strip(descriptionText))
  }

  /** The fallback category is already title-cased. */
  lemma MiscIsTitled()
    ensures Title("Misc") == "Misc"
  {
    var t := Title("Misc");
    assert IsUpper(t[0]) && IsLower(t[1]) && IsLower(t[2]) && IsLower(t[3]);
  }

  /** `add_expense()`: the row is appended when the amount is a number. */
  method AddExpense(f: ExpenseFile, today: Date, dateText: string, categoryText: string, amountText: string, descriptionText: string)
    returns (o: AddOutcome)
    requires ValidDate(today)
    modifies f
    ensures ParseFloat(amountText).None? <==> o == AmountError
    ensures o.Added? ==> o.record == NewRecord(today, dateText, categoryText, ParseFloat(amountText).value, descriptionText)
    ensures o.Added? ==> f.contents == Appended(old(f.contents), o.record)
    ensures o == AmountError ==> f.contents == old(f.contents)
  {
    match ParseFloat(amountText)
    case None =>
      o := AmountError;
    case Some(amount) =>
      var r := NewRecord(today, dateText, categoryText, amount, descriptionText);
      f.AppendRow(r);
      o := Added(r);
  }

  // ---------------------------------------------------------------------
  // Summaries
  // ---------------------------------------------------------------------

  /** How a summary ends. Reading is not guarded here: a missing, empty or
      headerless file ends the command with an exception. */
  datatype Summary =
    | NoData               // "No data yet!" / "No data found!" for a table without rows
    | Failed               // an exception ends the command
    | Buckets(buckets: seq<Bucket>)

  /** `monthly_summary()`: the total of each year-month, in ascending
      order; the `.dt` accessor fails unless every date parses. */
  function MonthlySummary(c: Contents): (s: Summary)
    ensures s == NoData <==> c == Table([])
    ensures s.Buckets? <==> c.Table? && c.records != [] && AllDatesParse(c.records)
    ensures s.Buckets? ==> s.buckets == GroupBy(c.records, ByMonth)
  {
    match c
    case Table(rs) =>
      if rs == [] then NoData
      else if !AllDatesParse(rs) then Failed
      else Buckets(GroupBy(rs, ByMonth))
    case _ => Failed
  }

  /** One bucket per month with rows, months ascending, each the sum of
      that month's rows, adding up to the total of the file. */
  lemma MonthlySummaryCorrect(c: Contents)
    requires MonthlySummary(c).Buckets?
    ensures var bs := MonthlySummary(c).buckets;
      && DistinctKeys(bs)
      && Sorted(bs, KeyLe)
      && KeySet(bs) == (set r | r in c.records :: MonthOf(r.date).value)
      && (forall b :: b in bs ==> b.total == SumAmounts(Select(c.records, KeyIs(ByMonth, b.key))))
      && SumTotals(bs) == SumAmounts(c.records)
  {
    var rs := c.records;
    GroupByCorrect(rs, ByMonth);
    TotalsCorrect(rs, ByMonth);
    SortBySum(Totals(rs, ByMonth), KeyLe);
    MonthKeySet(rs);
  }

  /** `category_summary()`: the total of each category, largest first. */
  function CategorySummary(c: Contents): (s: Summary)
    ensures s == NoData <==> c == Table([])
    ensures s.Buckets? <==> c.Table? && c.records != []
    ensures s.Buckets? ==> s.buckets == ByTotalDescending(c.records, ByCategory)
  {
    match c
    case Table(rs) => if rs == [] then NoData else Buckets(ByTotalDescending(rs, ByCategory))
    case _ => Failed
  }

  // ---------------------------------------------------------------------
  // The PDF report
  // ---------------------------------------------------------------------

  /** `df.groupby("Category")["Amount"].sum().idxmax()`: the first category,
      in ascending order, whose total is the largest. */
  function TopCategory(rs: seq<Record>): (top: string)
    requires rs != []
    ensures exists r :: r in rs && r.category == top
  {
    var bs := GroupBy(rs, ByCategory);
    CategoryBuckets(rs);
    var i := TopIndex(bs);
    assert bs[i] in bs;
    bs[i].key
  }

  /** A non-empty ledger has category buckets, each for a category of some row. */
  lemma CategoryBuckets(rs: seq<Record>)
    requires rs != []
    ensures GroupBy(rs, ByCategory) != []
    ensures forall b :: b in GroupBy(rs, ByCategory) ==> exists r :: r in rs && r.category == b.key
  {
    var bs := GroupBy(rs, ByCategory);
    GroupByCorrect(rs, ByCategory);
    var keys := set r | r in rs :: KeyOf(ByCategory, r);
    assert KeySet(bs) == keys;
    assert KeyOf(ByCategory, rs[0]) in keys;
    assert KeySet(bs) != {};
    forall b | b in bs ensures exists r :: r in rs && r.category == b.key {
      assert b.key in KeySet(bs);
    }
  }

  /** The top category has the largest total of all categories, and of the
      categories sharing that total it is the first in `str` order, so no
      other category ties with it. */
  lemma TopCategoryCorrect(rs: seq<Record>, c: string)
    requires rs != [] && exists r :: r in rs && r.category == c
    ensures SumAmounts(FilterCategory(rs, c)) <= SumAmounts(FilterCategory(rs, TopCategory(rs)))
    ensures SumAmounts(FilterCategory(rs, c)) == SumAmounts(FilterCategory(rs, TopCategory(rs)))
      ==> LexLe(TopCategory(rs), c)
    ensures
      && SumAmounts(FilterCategory(rs, c)) == SumAmounts(FilterCategory(rs, TopCategory(rs)))
      && LexLe(c, TopCategory(rs))
      ==> c == TopCategory(rs)
  {
    var bs := GroupBy(rs, ByCategory);
    GroupByCorrect(rs, ByCategory);
    var i := TopIndex(bs);
    var j := BucketOf(rs, c);
    TopBucket(bs, i, j);
    assert bs[i] in bs && bs[j] in bs;
    if SumAmounts(FilterCategory(rs, c)) == SumAmounts(FilterCategory(rs, TopCategory(rs))) && LexLe(c, TopCategory(rs)) {
      LexLeAntisymmetric(TopCategory(rs), c);
    }
  }

  /** The category bucket of a category that some row has. */
  lemma BucketOf(rs: seq<Record>, c: string) returns (j: nat)
    requires exists r :: r in rs && r.category == c
    ensures j < |GroupBy(rs, ByCategory)| && GroupBy(rs, ByCategory)[j].key == c
  {
    var bs := GroupBy(rs, ByCategory);
    GroupByCorrect(rs, ByCategory);
    var r :| r in rs && r.category == c;
    assert KeyOf(ByCategory, r) == c;
    assert c in KeySet(bs);
    var b :| b in bs && b.key == c;
    j :| 0 <= j < |bs| && bs[j] == b;
  }

  /** Among buckets in key order, the first largest bucket has a total no
      smaller than any other and a key no larger than any other of the same
      total. */
  lemma TopBucket(bs: seq<Bucket>, i: nat, j: nat)
    requires bs != [] && i == TopIndex(bs) && j < |bs| && Sorted(bs, KeyLe)
    ensures bs[j].total <= bs[i].total
    ensures bs[j].total == bs[i].total ==> LexLe(bs[i].key, bs[j].key)
  {
    if j == i {
      LexLeReflexive(bs[i].key);
    } else if bs[j].total == bs[i].total {
      assert i < j;
    }
  }

  /** The y of the i-th transaction line: 690 on the first page, 15 points
      lower for each line, and from the page break on 750 at the top of each
      new page, 44 lines a page. */
  function LineY(i: nat): (y: int)
    ensures 105 <= y <= 750
  {
    if i < 40 then 690 - 15 * i else 750 - 15 * ((i - 40) % 44)
  }

  /** The number of page breaks after `n` lines: after line 40 and then
      after every 44 more. */
  function Breaks(n: nat): nat
  {
    if n < 40 then 0 else 1 + (n - 40) / 44
  }

  /** One step of the cursor: 15 points down, or a new page at 750 when it
      would fall below 100. */
  lemma LineStep(i: nat)
    ensures LineY(i) - 15 < 100 ==> LineY(i + 1) == 750 && Breaks(i + 1) == Breaks(i) + 1
    ensures LineY(i) - 15 >= 100 ==> LineY(i + 1) == LineY(i) - 15 && Breaks(i + 1) == Breaks(i)
  {
    if i >= 40 {
      var q, r := (i - 40) / 44, (i - 40) % 44;
      assert i - 40 == 44 * q + r;
      if r == 43 {
        assert i + 1 - 40 == 44 * (q + 1) + 0;
      } else {
        assert i + 1 - 40 == 44 * q + (r + 1);
      }
    }
  }

  /** The cursor loop of `export_pdf_report`: y starts at 690, each line is
      drawn at y and y drops by 15, and when it falls below 100 a new page
      starts with y at 750. Every line lands between 105 and 750, so between
      100 and 750, and so does the cursor after each line. */
  method PlaceLines(n: nat) returns (ys: seq<int>, breaks: nat, y: int)
    ensures |ys| == n
    ensures forall i :: 0 <= i < n ==> ys[i] == LineY(i) && 100 <= ys[i] <= 750
    ensures breaks == Breaks(n) && y == LineY(n) && 100 <= y <= 750
    ensures n <= 10 ==> breaks == 0 && forall i :: 0 <= i < n ==> ys[i] == 690 - 15 * i
  {
    ys, breaks, y := [], 0, 690;
    var i := 0;
    while i < n
      invariant 0 <= i <= n && |ys| == i
      invariant forall j :: 0 <= j < i ==> ys[j] == LineY(j)
      invariant y == LineY(i) && breaks == Breaks(i)
    {
      LineStep(i);
      ys := ys + [y];
      y := y - 15;
      if y < 100 {
        breaks := breaks + 1;
        y := 750;
      }
      i := i + 1;
    }
  }

  /** The content of the report. */
  datatype Report = Report(total: real, topCategory: string, lines: seq<Record>, ys: seq<int>, pageBreaks: nat)

  datatype PdfOutcome =
    | NothingToExport      // "No expenses to export!"
    | ReportError          // an exception ends the command, no PDF is saved
    | Saved(report: Report)

  /** `export_pdf_report()`: the total of all amounts, the top category and
      the last ten rows in file order, one line each from y = 690 down.
      Printing a date with `strftime` needs a column of dates. */
  method ExportPdfReport(c: Contents) returns (o: PdfOutcome)
    ensures o == NothingToExport <==> c == Table([])
    ensures o.Saved? <==> c.Table? && c.records != [] && AllDatesParse(c.records)
    ensures o.Saved? ==>
      var rs := c.records;
      && o.report.total == SumAmounts(rs)
      && o.report.topCategory == TopCategory(rs)
      && o.report.lines == Tail(rs, 10)
      && |o.report.lines| == |o.report.ys| <= 10
      && o.report.pageBreaks == 0
      && forall i :: 0 <= i < |o.report.ys| ==> o.report.ys[i] == 690 - 15 * i
  {
    if !c.Table? {
      return ReportError;
    }
    var rs := c.records;
    if rs == [] {
      return NothingToExport;
    }
    var total := SumAmounts(rs);
    var top := TopCategory(rs);
    if !AllDatesParse(rs) {
      return ReportError;
    }
    var lines := Tail(rs, 10);
    var ys, breaks, _ := PlaceLines(|lines|);
    o := Saved(Report(total, top, lines, ys, breaks));
  }
}
