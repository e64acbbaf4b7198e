/** `expense_tracker_advance_gui.py`: the advanced Tkinter tracker. It
    loads the whole file into a table (an absent file reads as an empty
    table), appends by writing the table back with one more row, deletes
    every row equal to a selection or the first row matching a set of
    values, filters by category and totals what is shown. */
module AdvanceGui {
  import opened Wrappers
  import opened Text
  import opened Dates
  import opened Amounts
  import opened Ledger
  import opened Aggregate
  import opened Store

  /** `load_data()` fails on a file it cannot read as the four columns. */
  datatype LoadError = EmptyFile | NoHeader

  /** `load_data()`: the rows of the file, and an empty table with the four
      columns when there is no file. */
  function LoadData(c: Contents): (r: Result<seq<Record>, LoadError>)
    ensures c.Missing? ==> r == Ok([])
    ensures c.Table? ==> r == Ok(c.records)
    ensures r.Err? <==> c.Blank? || c.Unreadable?
  {
    match c
    case Missing => Ok([])
    case Table(rs) => Ok(rs)
    case Blank => Err(EmptyFile)
    case Unreadable => Err(NoHeader)
  }

  // ---------------------------------------------------------------------
  // Adding an expense
  // ---------------------------------------------------------------------

  /** The checks of `add_expense`: amount and category present and the
      amount a number. Unlike the plain GUI, a zero or negative amount is
      accepted, and the date is neither stripped nor checked: only an empty
      date field is replaced by today. */
  datatype EntryError = Required | NotANumber

  function ValidateEntry(today: Date, dateText: string, categoryText: string, amountText: string, descriptionText: string)
    : (r: Result<Record, EntryError>)
    requires ValidDate(today)
    ensures r.Err? <==> Strip(amountText) == [] || Strip(categoryText) == [] || ParseFloat(amountText).None?
    ensures r == Err(Required) <==> Strip(amountText) == [] || Strip(categoryText) == []
    ensures r == Err(NotANumber) <==> Strip(amountText) != [] && Strip(categoryText) != [] && ParseFloat(amountText).None?
    ensures r.Ok? ==>
      && Some(r.value.amount) == ParseFloat(amountText)
      && r.value.category != [] && Title(r.value.category) == r.value.category
      && r.value.category == Title(Strip(categoryText))
      && r.value.description == Strip(descriptionText)
      && r.value.date == (if dateText == [] then FormatYMD(today) else dateText)
  {
    var date := if dateText == [] then FormatYMD(today) else dateText;
    var category, description, amount := Title(Strip(categoryText)), Strip(descriptionText), Strip(amountText);
    if amount == [] || category == [] then Err(Required)
    // `float` of the stripped text reads as of the raw text (`ParseFloatStrip`)
    else match ParseFloat(amountText)
      case None => Err(NotANumber)
      case Some(v) =>
        TitleIdempotent(Strip(categoryText));
        Ok(Record(date, category, v, description))
  }

  datatype AddOutcome = Rejected(error: EntryError) | LoadFailed(cause: LoadError) | Added(record: Record)

  /** `add_expense()`: a valid entry becomes the row at index `len(df)` of
      the loaded table, which is written back whole; an absent file thus
      becomes a file with the header and that one row. */
  method AddExpense(f: ExpenseFile, today: Date, dateText: string, categoryText: string, amountText: string, descriptionText: string)
    returns (o: AddOutcome)
    requires ValidDate(today)
    modifies f
    ensures ValidateEntry(today, dateText, categoryText, amountText, descriptionText).Err? <==> o.Rejected?
    ensures o.Rejected? ==> o.error == ValidateEntry(today, dateText, categoryText, amountText, descriptionText).error
    ensures o.Added? ==>
      && Ok(o.record) == ValidateEntry(today, dateText, categoryText, amountText, descriptionText)
      && LoadData(old(f.contents)).Ok?
      && f.contents == Table(LoadData(old(f.contents)).value + [o.record])
    ensures o.LoadFailed? ==> LoadData(old(f.contents)) == Err(o.cause)
    ensures !o.Added? ==> f.contents == old(f.contents)
  {
    var entry := ValidateEntry(today, dateText, categoryText, amountText, descriptionText);
    if entry.Err? {
      return Rejected(entry.error);
    }
    match LoadData(f.contents)
    case Err(e) =>
      o := LoadFailed(e);
    case Ok(rs) =>
      f.Save(rs + [entry.value]);
      o := Added(entry.value);
  }

  // ---------------------------------------------------------------------
  // Deleting
  // ---------------------------------------------------------------------

  datatype DeleteOutcome =
    | NoSelection           // "Select an expense to delete!"
    | Cancelled             // the confirmation was declined
    | Raised                // an exception ends the handler: unreadable file, missing value or amount not a number
    | Deleted(removed: Record)

  /** `delete_expense()`: after the confirmation the file is loaded and
      written back without every row that equals the selected values in all
      four columns, the amount compared exactly. */
  method DeleteExpense(f: ExpenseFile, selection: Option<seq<string>>, confirm: bool) returns (o: DeleteOutcome)
    modifies f
    ensures selection.None? <==> o == NoSelection
    ensures selection.Some? && !confirm <==> o == Cancelled
    ensures o.Deleted? ==>
      && selection.Some? && confirm && |selection.value| >= 4
      && ParseFloat(selection.value[2]).Some?
      && o.removed == Record(selection.value[0], selection.value[1], ParseFloat(selection.value[2]).value, selection.value[3])
      && LoadData(old(f.contents)).Ok?
      && f.contents == Table(RemoveAll(LoadData(old(f.contents)).value, o.removed))
    ensures o == Raised <==>
      selection.Some? && confirm &&
      (LoadData(old(f.contents)).Err? || |selection.value| < 4 || ParseFloat(selection.value[2]).None?)
    ensures !o.Deleted? ==> f.contents == old(f.contents)
  {
    if selection.None? {
      return NoSelection;
    }
    if !confirm {
      return Cancelled;
    }
    var values := selection.value;
    match LoadData(f.contents)
    case Err(_) =>
      o := Raised;
    case Ok(rs) =>
      if |values| < 4 || ParseFloat(values[2]).None? {
        o := Raised;
      } else {
        var k := Record(values[0], values[1], ParseFloat(values[2]).value, values[3]);
        f.Save(RemoveAll(rs, k));
        o := Deleted(k);
      }
  }

  /** `delete_by_values(values)`: the first row matching the values (the
      amount compared after rounding to cents) is dropped and the table
      written back, answering `True`; every other case, including any
      exception, answers `False` and writes nothing. */
  method DeleteByValues(f: ExpenseFile, values: seq<string>) returns (deleted: bool)
    modifies f
    ensures values == [] ==> !deleted
    ensures deleted <==>
      && |values| >= 4 && ParseFloat(values[2]).Some? && LoadData(old(f.contents)).Ok?
      && FirstMatch(LoadData(old(f.contents)).value,
                    Record(values[0], values[1], ParseFloat(values[2]).value, values[3])).Some?
    ensures deleted ==>
      var rs := LoadData(old(f.contents)).value;
      var i := FirstMatch(rs, Record(values[0], values[1], ParseFloat(values[2]).value, values[3])).value;
      f.contents == Table(RemoveAt(rs, i))
    ensures !deleted ==> f.contents == old(f.contents)
  {
    if values == [] {
      return false;
    }
    match LoadData(f.contents)
    case Err(_) =>
      deleted := false;
    case Ok(rs) =>
      if |values| < 4 || ParseFloat(values[2]).None? {
        return false;
      }
      var k := Record(values[0], values[1], ParseFloat(values[2]).value, values[3]);
      match FirstMatch(rs, k)
      case Some(i) =>
        f.Save(RemoveAt(rs, i));
        deleted := true;
      case None =>
        deleted := false;
  }

  /** Both deletes keep the other rows in order: the exact delete leaves
      every row but the selected one with its count, the first-match delete
      removes one row and its amount from the total. */
  lemma DeleteEffects(rs: seq<Record>, k: Record)
    ensures multiset(RemoveAll(rs, k)) == multiset(rs)[k := 0]
    ensures SumAmounts(RemoveAll(rs, k)) == SumAmounts(rs) - Copies(multiset(rs)[k], k.amount)
    ensures FirstMatch(rs, k).Some? ==>
      multiset(RemoveAt(rs, FirstMatch(rs, k).value)) + multiset{rs[FirstMatch(rs, k).value]} == multiset(rs)
  {
    RemoveAllEffect(rs, k);
    RemoveAllSum(rs, k);
    if FirstMatch(rs, k).Some? {
      RemoveAtEffect(rs, FirstMatch(rs, k).value);
    }
  }

  lemma {:induction false} RemoveAllSum(rs: seq<Record>, k: Record)
    ensures SumAmounts(RemoveAll(rs, k)) == SumAmounts(rs) - Copies(multiset(rs)[k], k.amount)
  {
    if rs != [] {
      var init, last := rs[..|rs| - 1], rs[|rs| - 1];
      RemoveAllSum(init, k);
      var kept := if last != k then [last] else [];
      RemoveAllLast(rs, k);
      SumAmountsAppend(RemoveAll(init, k), kept);
      assert SumAmounts([last]) == last.amount by {
        assert [last][..0] == [];
      }
    }
  }

  lemma RemoveAllLast(rs: seq<Record>, k: Record)
    requires rs != []
    ensures RemoveAll(rs, k) == RemoveAll(rs[..|rs| - 1], k) + (if rs[|rs| - 1] != k then [rs[|rs| - 1]] else [])
    ensures multiset(rs)[k] == multiset(rs[..|rs| - 1])[k] + (if rs[|rs| - 1] == k then 1 else 0)
  {
    assert rs == rs[..|rs| - 1] + [rs[|rs| - 1]];
  }

  /** The sum of `n` copies of `a`. */
  function Copies(n: nat, a: real): real
  {
    if n == 0 then 0.0 else Copies(n - 1, a) + a
  }

  // ---------------------------------------------------------------------
  // Search and total
  // ---------------------------------------------------------------------

  /** `search_expenses()`: a blank query shows the whole table, any other
      shows, in file order, the rows whose category equals the query
      stripped and title-cased. */
  function SearchExpenses(c: Contents, query: string): (r: Result<seq<Record>, LoadError>)
    ensures r.Err? <==> LoadData(c).Err?
    ensures r.Ok? && Strip(query) == [] ==> r.value == LoadData(c).value
    ensures r.Ok? && Strip(query) != [] ==>
      forall x :: x in r.value <==> x in LoadData(c).value && x.category == Title(Strip(query))
  {
    match LoadData(c)
    case Err(e) => Err(e)
    case Ok(rs) =>
      var cat := Title(Strip(query));
      if cat == [] then Ok(rs) else Ok(FilterCategory(rs, cat))
  }

  /** `update_total(df)`: the sum of the Amount column shown, 0 for an
      empty table. */
  function UpdateTotal(rs: seq<Record>): (t: real)
    ensures t == SumAmounts(rs)
  {
    if rs == [] then 0.0 else SumAmounts(rs)
  }

  /** The total shown after a search is that category's total in the
      per-category grouping of the file (0 for a category it does not hold),
      and the totals of a search and of the rows it hides add up to the
      total of the file. */
  lemma SearchTotal(c: Contents, query: string)
    requires LoadData(c).Ok? && Strip(query) != []
    ensures UpdateTotal(SearchExpenses(c, query).value)
         == Lookup(Totals(LoadData(c).value, ByCategory), Title(Strip(query)))
    ensures UpdateTotal(SearchExpenses(c, query).value)
          + SumAmounts(Select(LoadData(c).value, Not(KeyIs(ByCategory, Title(Strip(query))))))
         == UpdateTotal(LoadData(c).value)
  {
    var rs, cat := LoadData(c).value, Title(Strip(query));
    TotalsCorrect(rs, ByCategory);
    SelectPartition(rs, KeyIs(ByCategory, cat));
  }
}
