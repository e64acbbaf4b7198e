/** `expense_tracker.py`: the console tracker. It creates the file with its
    header, appends today's expense as typed, and totals the amounts per
    category in a dictionary filled row by row. */
module Tracker {
  import opened Dates
  import opened Amounts
  import opened Ledger
  import opened Aggregate
  import opened Store

  /** What `add_expense` leads to. `float(input(...))` is not guarded, so
      an amount that is not a number ends the program with `ValueError`. */
  datatype AddOutcome = Added(record: Record) | AmountError

  /** `add_expense()`: today's date, the category and description exactly
      as typed, and the amount as a number, appended as the last row. */
  method AddExpense(f: ExpenseFile, today: Date, category: string, amountText: string, description: string)
    returns (o: AddOutcome)
    requires ValidDate(today)
    modifies f
    ensures ParseFloat(amountText).None? ==> o == AmountError && f.contents == old(f.contents)
    ensures ParseFloat(amountText).Some? ==>
      o == Added(Record(FormatYMD(today), category, ParseFloat(amountText).value, description))
    ensures o.Added? ==> f.contents == Appended(old(f.contents), o.record)
  {
    match ParseFloat(amountText)
    case None =>
      o := AmountError;
    case Some(amount) =>
      var r := Record(FormatYMD(today), category, amount, description);
      f.AppendRow(r);
      o := Added(r);
  }

  /** What `total_by_category` reports. */
  datatype TotalsOutcome =
    | NoExpenses                     // the file does not exist
    | CategoryTotals(buckets: seq<Bucket>)
    | ReadError                      // the rows lack the columns or an amount is not a number

  /** `total_by_category()`: a dictionary from category to the sum of its
      amounts, filled in file order. Each category of the file is a key and
      nothing else is; each key holds the sum of the rows of exactly that
      category (no case folding); the totals add up to the sum of all
      amounts. A missing file reports that there are no expenses; an empty
      file gives no totals. */
  method TotalByCategory(f: ExpenseFile) returns (o: TotalsOutcome)
    ensures f.contents.Missing? <==> o == NoExpenses
    ensures f.contents.Unreadable? <==> o == ReadError
    ensures f.contents.Blank? ==> o == CategoryTotals([])
    ensures f.contents.Table? ==> o.CategoryTotals?
    ensures o.CategoryTotals? ==> DistinctKeys(o.buckets)
    ensures o.CategoryTotals? && f.contents.Table? ==>
      && KeySet(o.buckets) == (set r | r in f.contents.records :: r.category)
      && (forall b :: b in o.buckets ==> b.total == SumAmounts(FilterCategory(f.contents.records, b.key)))
      && SumTotals(o.buckets) == SumAmounts(f.contents.records)
  {
    match f.contents
    case Missing => return NoExpenses;
    case Unreadable => return ReadError;
    case Blank => return CategoryTotals([]);
    case Table(rs) =>
      var totals: seq<Bucket> := [];
      var i := 0;
      while i < |rs|
        invariant 0 <= i <= |rs|
        invariant totals == Totals(rs[..i], ByCategory)
      {
        TotalsStep(rs, i, ByCategory);
        totals := Accumulate(totals, rs[i].category, rs[i].amount);
        i := i + 1;
      }
      assert rs[..i] == rs;
      TotalsCorrect(rs, ByCategory);
      return CategoryTotals(totals);
  }
}
