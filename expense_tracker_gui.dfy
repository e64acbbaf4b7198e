/** `expense_tracker_gui.py`: the Tkinter tracker. It validates the entry
    fields before appending a row, shows each amount as `₹1,234.50`, totals
    the file for the summary label, and deletes the selected table row by
    parsing its displayed values back and dropping the first row of the file
    that matches them. */
module TrackerGui {
  import opened Wrappers
  import opened Text
  import opened Dates
  import opened Amounts
  import opened Ledger
  import opened Aggregate
  import opened Store

  // ---------------------------------------------------------------------
  // Adding an expense
  // ---------------------------------------------------------------------

  /** The message boxes `add_expense` can raise instead of writing. */
  datatype EntryError =
    | Required     // "Category and Amount are required!"
    | NotANumber   // "Enter a valid numerical amount!"
    | NotPositive  // "Amount must be a positive number!"
    | BadDate      // "Invalid date format. Please use: %Y-%m-%d"

  /** The checks of `add_expense` on the four entry fields, in its order:
      amount and category present, amount a number, amount above zero, and a
      date that is blank (then today) or a valid Y-M-D date, which is kept as
      typed. Every accepted row has a positive amount, a non-empty
      title-cased category and a date that parses. */
  function ValidateEntry(today: Date, dateText: string, categoryText: string, amountText: string, descriptionText: string)
    : (r: Result<Record, EntryError>)
    requires ValidDate(today)
    ensures r == Err(Required) <==> Strip(amountText) == [] || Strip(categoryText) == []
    ensures r == Err(NotANumber) <==> Strip(amountText) != [] && Strip(categoryText) != [] && ParseFloat(amountText).None?
    ensures r == Err(NotPositive) <==>
      Strip(amountText) != [] && Strip(categoryText) != [] && ParseFloat(amountText).Some? && ParseFloat(amountText).value <= 0.0
    ensures r == Err(BadDate) <==>
      && Strip(amountText) != [] && Strip(categoryText) != []
      && ParseFloat(amountText).Some? && ParseFloat(amountText).value > 0.0
      && Strip(dateText) != [] && ParseYMD(Strip(dateText)).None?
    ensures r.Ok? <==>
      && Strip(amountText) != [] && Strip(categoryText) != []
      && ParseFloat(amountText).Some? && ParseFloat(amountText).value > 0.0
      && (Strip(dateText) == [] || ParseYMD(Strip(dateText)).Some?)
    ensures r.Ok? ==>
      && r.value.amount > 0.0 && Some(r.value.amount) == ParseFloat(amountText)
      && r.value.category != [] && Title(r.value.category) == r.value.category
      && r.value.category == Title(Strip(categoryText))
      && r.value.description == Strip(descriptionText)
      && ParseYMD(r.value.date).Some?
      && r.value.date == (if Strip(dateText) == [] then FormatYMD(today) else Strip(dateText))
  {
    var date, category, description, amount := Strip(dateText), Title(Strip(categoryText)), Strip(descriptionText), Strip(amountText);
    if amount == [] || category == [] then Err(Required)
    // `float` of the stripped text reads as of the raw text (`ParseFloatStrip`)
    else match ParseFloat(amountText)
      case None => Err(NotANumber)
      case Some(v) =>
        if v <= 0.0 then Err(NotPositive)
        else if date == [] then
          ParseFormatRoundTrip(today);
          TitleIdempotent(Strip(categoryText));
          Ok(Record(FormatYMD(today), category, v, description))
        else if ParseYMD(date).None? then Err(BadDate)
        else
          TitleIdempotent(Strip(categoryText));
          Ok(Record(date, category, v, description))
  }

  /** `add_expense()`: the validated row is appended to the file; a
      rejected entry leaves the file as it was. */
  method AddExpense(f: ExpenseFile, today: Date, dateText: string, categoryText: string, amountText: string, descriptionText: string)
    returns (r: Result<Record, EntryError>)
    requires ValidDate(today)
    modifies f
    ensures r == ValidateEntry(today, dateText, categoryText, amountText, descriptionText)
    ensures r.Ok? ==> f.contents == Appended(old(f.contents), r.value)
    ensures r.Err? ==> f.contents == old(f.contents)
  {
    r := ValidateEntry(today, dateText, categoryText, amountText, descriptionText);
    if r.Ok? {
      f.AppendRow(r.value);
    }
  }

  // ---------------------------------------------------------------------
  // Total and display
  // ---------------------------------------------------------------------

  /** `total_spent()`: the sum of the Amount column, and 0 for a file that
      is missing, empty or cannot be read. */
  function TotalSpent(c: Contents): (t: real)
    ensures !c.Table? ==> t == 0.0
    ensures c.Table? && c.records == [] ==> t == 0.0
  {
    if c.Table? && c.records != [] then SumAmounts(c.records) else 0.0
  }

  /** The total is the sum of the per-category totals, grows by the amount
      of an appended row, and shrinks by the amount of a dropped row. */
  lemma TotalSpentFacts(c: Contents, r: Record, i: nat)
    requires c.Table?
    ensures TotalSpent(c) == SumTotals(Totals(c.records, ByCategory))
    ensures TotalSpent(Appended(c, r)) == TotalSpent(c) + r.amount
    ensures i < |c.records| ==> TotalSpent(Table(RemoveAt(c.records, i))) == TotalSpent(c) - c.records[i].amount
  {
    TotalsCorrect(c.records, ByCategory);
    SumAmountsAppend(c.records, [r]);
    assert SumAmounts([r]) == r.amount by {
      assert [r][..0] == [];
    }
    assert Appended(c, r).records == c.records + [r];
    if i < |c.records| {
      RemoveAtEffect(c.records, i);
    }
  }

  /** The values `load_data` puts in a table row: the amount shown as
      `f"₹{amount:,.2f}"`, the other columns as stored. */
  function DisplayRow(r: Record): (values: seq<string>)
    ensures |values| == 4
    ensures values[0] == r.date && values[1] == r.category && values[3] == r.description
    ensures ParseDisplayed(values[2]) == Some(Round2(r.amount))
  {
    var values := [r.date, r.category, DisplayAmount(r.amount), r.description];
    ShownAmount(values, r);
    values
  }

  lemma ShownAmount(values: seq<string>, r: Record)
    requires values == [r.date, r.category, DisplayAmount(r.amount), r.description]
    ensures ParseDisplayed(values[2]) == Some(Round2(r.amount))
  {
    DisplayRoundTrip(r.amount);
  }

  // ---------------------------------------------------------------------
  // Deleting the selected row
  // ---------------------------------------------------------------------

  /** Where `delete_expense` ends. */
  datatype DeleteOutcome =
    | NoSelection       // "Please select an expense to delete."
    | NoValues          // the selected item has no values: nothing happens
    | IndexError        // a value read before it is there: the handler stops with an exception
    | ParseError        // "Could not parse selected expense data for deletion."
    | Cancelled         // the confirmation was declined
    | FileNotFound      // "Expense file not found!"
    | Failed            // "An unexpected error occurred during deletion"
    | NotFound          // "Matching entry not found in file."
    | Deleted(index: nat)

  /** The row the delete handler looks for: the displayed values with the
      amount parsed back, or `None` when the amount does not parse. */
  function Wanted(values: seq<string>): (k: Option<Record>)
    requires |values| >= 4
    ensures k.Some? <==> ParseDisplayed(values[2]).Some?
    ensures k.Some? ==>
      && k.value.date == values[0] && k.value.category == values[1]
      && k.value.amount == ParseDisplayed(values[2]).value && k.value.description == values[3]
  {
    match ParseDisplayed(values[2])
    case Some(v) => Some(Record(values[0], values[1], v, values[3]))
    case None => None
  }

  /** `delete_expense()`: once the user confirms, the first row of the file
      equal to the selection in date, category and description and in amount
      after rounding to cents is dropped and the rest rewritten in order;
      with no such row, or on any failure, the file is left as it was. */
  method DeleteExpense(f: ExpenseFile, selection: Option<seq<string>>, confirm: bool) returns (o: DeleteOutcome)
    modifies f
    ensures selection.None? <==> o == NoSelection
    ensures selection == Some([]) <==> o == NoValues
    ensures o.Deleted? ==>
      && selection.Some? && |selection.value| >= 4 && Wanted(selection.value).Some? && confirm
      && old(f.contents).Table?
      && FirstMatch(old(f.contents).records, Wanted(selection.value).value) == Some(o.index)
      && f.contents == Table(RemoveAt(old(f.contents).records, o.index))
    ensures o == IndexError <==>
      && selection.Some?
      && (0 < |selection.value| < 3 || (|selection.value| == 3 && ParseDisplayed(selection.value[2]).Some?))
    ensures o == ParseError <==> selection.Some? && |selection.value| >= 3 && ParseDisplayed(selection.value[2]).None?
    ensures o == Cancelled <==> selection.Some? && |selection.value| >= 4 && Wanted(selection.value).Some? && !confirm
    ensures o == FileNotFound <==>
      selection.Some? && |selection.value| >= 4 && Wanted(selection.value).Some? && confirm && old(f.contents).Missing?
    ensures o == Failed <==>
      && selection.Some? && |selection.value| >= 4 && Wanted(selection.value).Some? && confirm
      && (old(f.contents).Blank? || old(f.contents).Unreadable?)
    ensures o == NotFound <==>
      && selection.Some? && |selection.value| >= 4 && Wanted(selection.value).Some? && confirm
      && old(f.contents).Table?
      && FirstMatch(old(f.contents).records, Wanted(selection.value).value).None?
    ensures
      && selection.Some? && |selection.value| >= 4 && Wanted(selection.value).Some? && confirm
      && old(f.contents).Table? && FirstMatch(old(f.contents).records, Wanted(selection.value).value).Some?
      ==> o == Deleted(FirstMatch(old(f.contents).records, Wanted(selection.value).value).value)
    ensures !o.Deleted? ==> f.contents == old(f.contents)
  {
    if selection.None? {
      return NoSelection;
    }
    var values := selection.value;
    if values == [] {
      return NoValues;
    }
    // the amount in `values[2]` is parsed before `values[3]` is read
    if |values| < 3 {
      return IndexError;
    }
    if ParseDisplayed(values[2]).None? {
      return ParseError;
    }
    if |values| < 4 {
      return IndexError;
    }
    var wanted := Wanted(values);
    if !confirm {
      return Cancelled;
    }
    match f.contents
    case Missing => o := FileNotFound;
    case Blank => o := Failed;
    case Unreadable => o := Failed;
    case Table(rs) =>
      match FirstMatch(rs, wanted.value)
      case Some(i) =>
        f.Save(RemoveAt(rs, i));
        o := Deleted(i);
      case None =>
        o := NotFound;
  }

  /** Deleting a row as the table shows it always finds a row: the first
      row of the file that agrees with it in date, category and description
      and in amount to the cent, at or before the displayed row itself. */
  lemma DeleteDisplayedRow(rs: seq<Record>, j: nat)
    requires j < |rs|
    ensures Wanted(DisplayRow(rs[j])) == Some(Record(rs[j].date, rs[j].category, Round2(rs[j].amount), rs[j].description))
    ensures FirstMatch(rs, Wanted(DisplayRow(rs[j])).value).Some?
    ensures FirstMatch(rs, Wanted(DisplayRow(rs[j])).value).value <= j
    ensures MatchesRounded(rs[FirstMatch(rs, Wanted(DisplayRow(rs[j])).value).value], rs[j])
  {
    var k := Wanted(DisplayRow(rs[j])).value;
    Round2Idempotent(rs[j].amount);
    assert MatchesRounded(rs[j], k);
    var i := FirstMatch(rs, k).value;
    Round2Idempotent(rs[i].amount);
  }
}
