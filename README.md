# Expense ledger, modelled in Dafny

This project models five personal-expense trackers. All of them keep one
CSV file with the header `Date,Category,Amount,Description`:

- `expense_tracker.py`: a console menu.
- `expense_tracker_gui.py`: a Tkinter form with a table.
- `expense_tracker_advance_gui.py`: a Tkinter form with search and delete-by-values.
- `expense_tracker_analytics.py`: a console menu with sorted views, summaries and a month export.
- `expense_tracker_pro.py`: a console menu with summaries and a PDF report.

Each script adds rows, reads them back and aggregates amounts per category
or per year-month. The scripts differ in how they clean their input and in
how they behave when the file is missing, empty or not a table.

The model is layered:

- `text.dfy`: `str.strip`, `str.title`, digit strings and the order of `str`.
- `dates.dfy`:
  - `strptime` and `strftime` for `%Y-%m-%d`;
  - the year-month period that `to_period('M')` and `pd.Period` produce, printed as `YYYY-MM`.
- `amounts.dfy`:
  - `float()` on decimal text;
  - rounding to cents;
  - the `₹1,234.50` display and the `replace`-then-`float` parse that reverses it.
- `ledger.dfy`: an expense `Record`, column sums, row masks, and the first-match and exact-match deletes.
- `sorting.dfy`: a sort by an arbitrary total preorder, which stands in for `sort_values` and `sort_index`.
- `aggregate.dfy`:
  - a category/month dictionary filled row by row (`totals.get(k, 0) + amount`);
  - `groupby(...).sum()` as that dictionary in key order;
  - its ordering by descending total;
  - `idxmax` and `max`.
- `store.dfy`:
  - the file as an object with one field, `contents`, which is `Missing`, `Blank`, `Table(records)` or `Unreadable` (no header row);
  - `init_file`, append-mode writes and `to_csv` as methods that replace `contents`.
- One file per script:
  - `expense_tracker.dfy` (module `Tracker`);
  - `expense_tracker_gui.dfy` (`TrackerGui`);
  - `expense_tracker_advance_gui.dfy` (`AdvanceGui`);
  - `expense_tracker_analytics.dfy` (`Analytics`);
  - `expense_tracker_pro.dfy` (`Pro`).

  Each holds that script's operations. Every message box, printed warning
  and uncaught exception becomes a constructor of an outcome datatype.

Some inputs are parameters of the operations:

- the clock (`today`);
- the answers typed at a prompt;
- the selected table row;
- the yes/no confirmation.

Amounts are exact `real`s.

## Model

| member | source | states |
|---|---|---|
| Store.Initialized | expense_tracker.py:7-13 | `init_file` creates a header-only table only when no file exists; an existing file, even an empty one, is left as it was |
| Store.InitializedIdempotent | expense_tracker_gui.py:24-29 | initialising twice is the same as once, and initialising changes the file exactly when it was missing |
| Store.Appended | expense_tracker.py:22-24 | appending below a header adds the record as the last row and keeps every earlier row in place; appending to a file without a header leaves a file that no longer reads as the four columns |
| Store.ExpenseFile.InitFile | expense_tracker_gui.py:24-29 | the file's new contents are `Initialized` of the old |
| Store.ExpenseFile.AppendRow | expense_tracker_gui.py:114-116 | the file's new contents are `Appended` of the old with the row |
| Store.ExpenseFile.Save | expense_tracker_advance_gui.py:26-27 | `to_csv` leaves a table holding exactly the given rows |
| Tracker.AddExpense | expense_tracker.py:16-24 | an amount that is not a number raises out of the unguarded `float(input())`, which ends the program, and writes nothing; otherwise the row is today's date, the category and description as typed and the parsed amount, appended as the last row |
| Tracker.TotalByCategory | expense_tracker.py:40-54 | the loop builds a dictionary with one key per category of the file and no other, each holding the sum of exactly that category's rows, the totals adding up to the file total; a missing file reports no expenses, an empty one gives no totals, a headerless one is modelled as failing |
| TrackerGui.ValidateEntry | expense_tracker_gui.py:82-111 | each error message is raised exactly when its check fails and the earlier checks pass, in the source's order (blank amount or category, not a number, not positive, bad date), and the entry is accepted exactly when all four checks pass; an accepted row has a positive amount, a non-empty title-cased category, the stripped description, and a date that parses: today when blank, else the stripped input |
| TrackerGui.AddExpense | expense_tracker_gui.py:82-116 | an accepted entry is appended as the last row; a rejected one leaves the file as it was |
| TrackerGui.TotalSpent | expense_tracker_gui.py:31-42 | 0 for a missing, empty or unreadable file and for a table without rows |
| TrackerGui.TotalSpentFacts | expense_tracker_gui.py:31-42 | the total equals the sum of the per-category totals, grows by the amount of an appended row and shrinks by the amount of a dropped row |
| TrackerGui.DisplayRow | expense_tracker_gui.py:62-64 | the table row shows date, category and description as stored, and an amount text that parses back to the amount rounded to cents |
| TrackerGui.Wanted | expense_tracker_gui.py:136-143 | the key record is built exactly when the displayed amount parses after removing `₹` and `,`, and it carries the selected date, category and description |
| TrackerGui.DeleteExpense | expense_tracker_gui.py:122-171 | each outcome happens exactly when its condition holds, in the order the handler reads the values: no selection, no values, fewer than three values or a parsable amount without a fourth value (an exception), an unparsable third value, a refusal, a missing file, an empty or headerless file, no matching row; a confirmed selection with a matching row always deletes the first such row (amount compared to the cent) and writes the rest back in order; every other outcome leaves the file unchanged |
| TrackerGui.DeleteDisplayedRow | expense_tracker_gui.py:152-160 | in the model, where an empty description is compared as empty text, deleting a row as the table displays it finds a match at or before that row, equal to it up to cents |
| AdvanceGui.LoadData | expense_tracker_advance_gui.py:20-23 | a missing file loads as an empty table, a table as its rows; an empty file fails, and a headerless one is modelled as failing |
| AdvanceGui.ValidateEntry | expense_tracker_advance_gui.py:41-55 | "required" exactly when the amount or category is blank, "enter a valid amount" exactly when both are present and the amount is not a number, accepted otherwise; no positivity check; the date is kept as typed, or today when empty; the category is stripped and title-cased |
| AdvanceGui.AddExpense | expense_tracker_advance_gui.py:41-59 | an accepted entry is written as the loaded table plus one last row, so a missing file becomes a one-row table; a rejected entry or a failed load writes nothing |
| AdvanceGui.DeleteExpense | expense_tracker_advance_gui.py:65-80 | after confirmation every row equal to the selected values (amount compared exactly) is removed and the rest saved in order; an unparsable amount or unreadable file raises and writes nothing |
| AdvanceGui.DeleteByValues | expense_tracker_advance_gui.py:82-115 | answers true exactly when the values parse, the file loads and a row matches to the cent; then only the first such row is dropped; otherwise nothing is written |
| AdvanceGui.DeleteEffects | expense_tracker_advance_gui.py:77-78 | the exact delete removes every copy of the selected row and no other row, lowering the total by the amount once per copy; the first-match delete removes exactly one row |
| AdvanceGui.SearchExpenses | expense_tracker_advance_gui.py:145-150 | a blank query shows the whole file; otherwise a row is shown exactly when its category equals the stripped, title-cased query |
| AdvanceGui.UpdateTotal | expense_tracker_advance_gui.py:175-179 | the total shown is the sum of the amounts shown, 0 for no rows |
| AdvanceGui.SearchTotal | expense_tracker_advance_gui.py:145-150 | the total after a search is that category's entry in the per-category totals, and together with the hidden rows' total it makes the file total |
| Analytics.ParseDateInput | expense_tracker_analytics.py:16-25 | blank is today; an answer that is not a Y-M-D date is asked again; an accepted answer is re-emitted zero-padded and denotes the same date |
| Analytics.ParseDateInputIdempotent | expense_tracker_analytics.py:16-25 | a normalised date is accepted again unchanged |
| Analytics.ValidateEntry | expense_tracker_analytics.py:27-37 | the date or the amount is asked again exactly when it does not parse; the row's date is what `parse_date_input` answered for the typed date (today when blank), which is canonical, the stripped category or "Misc" (not title-cased), the parsed amount and the stripped description |
| Analytics.AddExpense | expense_tracker_analytics.py:27-42 | an accepted entry is appended as the last row; otherwise the file is unchanged |
| Analytics.ViewExpense | expense_tracker_analytics.py:44-59 | a missing file or a table without rows reports no expenses, an empty or headerless file raises; otherwise the rows shown are drawn from the file and number `limit` when a positive limit is smaller than the file, all rows otherwise |
| Analytics.ViewExpenseNewest | expense_tracker_analytics.py:50-52 | the rows shown are newest first, and no row left out is newer than a row shown (dates compared as dates, or as text when some date does not parse) |
| Analytics.TotalByCategory | expense_tracker_analytics.py:68-75 | only a missing file is reported; an empty or headerless file raises; a table yields the category totals ordered by descending total |
| Analytics.TotalByCategoryCorrect | expense_tracker_analytics.py:71 | one bucket per category of the file, each the sum of exactly that category's rows, in descending order of total, adding up to the file total |
| Analytics.MonthlySummary | expense_tracker_analytics.py:77-88 | no data for a missing file or no rows; a date that does not parse raises; otherwise the monthly totals |
| Analytics.MonthlySummaryCorrect | expense_tracker_analytics.py:83-84 | one bucket per year-month that has a row, months ascending, each the sum of exactly that month's rows |
| Analytics.MonthKeys | expense_tracker_analytics.py:135 | the year-month of every row, in row order |
| Analytics.ChosenMonth | expense_tracker_analytics.py:137-147 | a blank answer chooses the latest year-month of the file, any other answer is read as a period |
| Analytics.ExportMonthReport | expense_tracker_analytics.py:129-157 | for a readable file with rows whose dates all parse, the month is asked again exactly when the answer is not a period, and otherwise the chosen month is reported as empty exactly when no row falls in it; the records exported are exactly the file's rows of the chosen month, written to `expense_report_<YYYY-MM>.csv`; a missing file or no rows reports no expenses; an empty or headerless file or a date that does not parse raises |
| Analytics.ExportLatestMonth | expense_tracker_analytics.py:139-141 | a blank answer exports the latest month, which always has rows, in file order |
| Analytics.LatestMonth | expense_tracker_analytics.py:140 | the latest year-month belongs to some row and no row's month is later |
| Pro.NewRecord | expense_tracker_pro.py:23-28 | the date is the stripped input or today, the category is the stripped title-cased input, or "Misc" when that is blank, and always title-cased and non-empty, the description is stripped |
| Pro.AddExpense | expense_tracker_pro.py:22-33 | an amount that is not a number raises out of the unguarded `float(input())`, which ends the program, and writes nothing; otherwise the new row is appended as the last row |
| Pro.MonthlySummary | expense_tracker_pro.py:49-55 | a table without rows has no data; a missing, empty or headerless file or a date that does not parse fails; otherwise the monthly totals |
| Pro.MonthlySummaryCorrect | expense_tracker_pro.py:54-55 | one bucket per year-month with rows, ascending, each the sum of that month's rows, adding up to the file total |
| Pro.CategorySummary | expense_tracker_pro.py:66-71 | a table without rows has no data; a table with rows gives the category totals by descending total; anything else fails |
| Pro.TopCategory | expense_tracker_pro.py:88 | the top category is the category of some row |
| Pro.CategoryBuckets | expense_tracker_pro.py:88 | a non-empty file has category buckets, each named after a category of some row |
| Pro.TopCategoryCorrect | expense_tracker_pro.py:88 | no category has a larger total than the top one, and a category with an equal total does not come before it in `str` order, so no other category both ties with it and precedes it |
| Pro.LineY | expense_tracker_pro.py:100-106 | every transaction line's y lies between 105 and 750 |
| Pro.LineStep | expense_tracker_pro.py:103-106 | from one line to the next, y drops by 15, or starts a new page at 750 when it would fall below 100 |
| Pro.PlaceLines | expense_tracker_pro.py:100-106 | the cursor loop places line i at `LineY(i)`, always between 100 and 750, with the page breaks counted; ten lines or fewer fit the first page at 690, 675, … |
| Pro.ExportPdfReport | expense_tracker_pro.py:81-109 | a table without rows has nothing to export; otherwise the report holds the total of all amounts, the top category and the last ten rows in file order, all on the first page; a missing or unreadable file or a date that does not parse saves no report |
| Ledger.SumAmountsAppend | expense_tracker_gui.py:37 | the column sum of two concatenated tables is the sum of their sums |
| Ledger.SumAmountsPermutation | expense_tracker_analytics.py:71 | reordering rows does not change their sum |
| Ledger.Select | expense_tracker_advance_gui.py:149 | a masked table keeps exactly the rows the mask selects |
| Ledger.SelectAppend | expense_tracker_advance_gui.py:149 | masking distributes over concatenation |
| Ledger.SelectMultiset | expense_tracker_advance_gui.py:149 | a mask keeps every selected row with its multiplicity and drops all others |
| Ledger.SelectPartition | expense_tracker_advance_gui.py:149 | the sums of a mask and of its negation add up to the table's sum |
| Ledger.FilterCategory | expense_tracker_advance_gui.py:149 | `df[df["Category"] == cat]` keeps exactly the rows of that category |
| Ledger.FirstMatch | expense_tracker_gui.py:152-160 | the first index whose row agrees with the key in date, category and description and in amount to the cent, or none when no row does |
| Ledger.RemoveAt | expense_tracker_gui.py:160 | dropping a row shortens the table by one |
| Ledger.RemoveAtEffect | expense_tracker_gui.py:160 | dropping a row removes exactly that row and its amount from the total |
| Ledger.RemoveAll | expense_tracker_advance_gui.py:77-78 | the negated mask keeps every row not equal to the key and no copy of it |
| Ledger.RemoveAllEffect | expense_tracker_advance_gui.py:77-78 | the kept rows are the file's rows minus every copy of the key; deleting twice is deleting once |
| Ledger.RemoveAllUnchanged | expense_tracker_advance_gui.py:77-78 | a delete of a row the file does not hold leaves the rows unchanged |
| Ledger.Head | expense_tracker_analytics.py:51-52 | `head(limit)` is the first `limit` rows, or all when fewer |
| Ledger.Tail | expense_tracker_pro.py:101 | `tail(10)` is the last ten rows in file order, or all when fewer |
| Sorting.SortBy | expense_tracker_analytics.py:50 | a sort is a permutation of its input |
| Sorting.SortBySorted | expense_tracker_analytics.py:50 | sorting by a total preorder yields a sorted sequence |
| Sorting.SortedPrefix | expense_tracker_analytics.py:50-52 | a prefix of a sorted sequence is sorted and precedes every element left out |
| Aggregate.FindKey | expense_tracker.py:48 | the position of a key in the dictionary, or its size when absent |
| Aggregate.Lookup | expense_tracker.py:48 | `totals.get(k, 0)`: 0 for a key that is absent |
| Aggregate.LookupDistinct | expense_tracker.py:48 | with distinct keys, a lookup finds the bucket's total |
| Aggregate.AccumulateFacts | expense_tracker.py:48 | one update adds the key, keeps keys distinct, raises that key's total by the amount, leaves every other key's total alone and raises the grand total by the amount |
| Aggregate.GroupSums | expense_tracker.py:45-48 | grouping entries gives one bucket per distinct key |
| Aggregate.GroupSumsTotals | expense_tracker.py:45-48 | each key's bucket holds the sum of that key's entries and the buckets add up to the sum of all entries |
| Aggregate.TotalsStep | expense_tracker.py:45-48 | the totals after one more row are those before it updated with that row |
| Aggregate.TotalsCorrect | expense_tracker.py:45-48 | the dictionary filled from the rows has one key per category or month of the rows, each holding the sum of exactly those rows, adding up to the sum of all rows |
| Aggregate.SortBySum | expense_tracker_analytics.py:71 | ordering the buckets does not change their grand total |
| Aggregate.SortedBuckets | expense_tracker_analytics.py:71 | ordering the buckets keeps exactly the same buckets and keys |
| Aggregate.GroupByCorrect | expense_tracker_analytics.py:84 | `groupby(...).sum()` has one bucket per key, ordered by key, each the sum of exactly that key's rows |
| Aggregate.ByTotalDescendingCorrect | expense_tracker_analytics.py:71 | `sort_values(ascending=False)` keeps the same buckets, ordered by descending total |
| Aggregate.TopIndex | expense_tracker_pro.py:88 | `idxmax` picks the first bucket holding the largest total |
| Aggregate.MaxText | expense_tracker_analytics.py:140 | `max` of the periods is one of them and no period is later in `str` order |
| Text.Strip | expense_tracker_gui.py:84-87 | `strip()` is the slice of the text that starts after the leading whitespace and is followed only by whitespace; it neither starts nor ends with whitespace, and is empty exactly when the text is all whitespace |
| Text.StripIdempotent | expense_tracker_gui.py:84-87 | stripping twice is stripping once |
| Text.Title | expense_tracker_gui.py:85 | `title()` keeps the length, leaves every uncased character as it is and every letter the same letter, capitalises each word's first letter and lowercases the rest |
| Text.TitleIdempotent | expense_tracker_advance_gui.py:147 | title-casing twice is title-casing once, so a stored title-cased category can be found again by search |
| Text.LexLeTotal | expense_tracker_analytics.py:140 | any two texts are comparable in `str` order |
| Text.LexLeTransitive | expense_tracker_analytics.py:140 | `str` order is transitive |
| Text.LexLeAntisymmetric | expense_tracker_pro.py:88 | two texts each at most the other are equal |
| Text.PadDigits | expense_tracker.py:17 | `%m`/`%d`/`%Y` print a number in a fixed width that reads back as the number |
| Dates.ParseYMD | expense_tracker_gui.py:107 | a text accepted by `strptime(..., "%Y-%m-%d")` denotes a valid calendar date |
| Dates.FormatYMD | expense_tracker.py:17 | `strftime("%Y-%m-%d")` prints a ten-character `YYYY-MM-DD` |
| Dates.ParseFormatRoundTrip | expense_tracker_analytics.py:22-23 | parsing the printed date gives back the date |
| Dates.CanonicalDates | expense_tracker_analytics.py:23 | printed dates are zero-padded `YYYY-MM-DD` |
| Dates.MonthOf | expense_tracker_analytics.py:83 | a row has a year-month exactly when its date parses |
| Dates.MonthOfCanonical | expense_tracker_analytics.py:83 | the year-month of a zero-padded date is its first seven characters |
| Dates.ParsePeriod | expense_tracker_analytics.py:143 | a period accepted by `pd.Period(..., freq='M')` prints as seven characters |
| Dates.ParsePeriodOfMonth | expense_tracker_analytics.py:143 | typing a year-month as printed chooses that same month |
| Amounts.ParseFloat | expense_tracker_gui.py:95 | `float()` rejects blank text; what it reads from other text is stated by the lemmas below |
| Amounts.ParseFloatInteger | expense_tracker_gui.py:95 | `float` of a digit string is the number its digits denote |
| Amounts.ParseFloatDecimal | expense_tracker_gui.py:95 | `float` of digits, a point and digits is the whole part plus the decimal fraction |
| Amounts.ParseFloatUnderscore | expense_tracker_gui.py:95 | an underscore between digits is accepted and ignored |
| Amounts.ParseFloatScientific | expense_tracker_gui.py:95 | digits, `e` and a signed exponent read as the digits times ten to that power |
| Amounts.ParseSigned | expense_tracker_gui.py:95 | a leading minus sign negates the value the rest of the literal reads as |
| Amounts.ParseFloatStrip | expense_tracker_gui.py:87 | `float()` ignores surrounding whitespace, so stripping first changes nothing |
| Amounts.Round2 | expense_tracker_gui.py:154 | `round(x, 2)` is a whole number of cents within half a cent of x |
| Amounts.Round2Idempotent | expense_tracker_gui.py:154 | rounding an amount already in cents changes nothing |
| Amounts.GroupedDigits | expense_tracker_gui.py:64 | the `,` thousands grouping removes to the digits of the number |
| Amounts.DisplayAmount | expense_tracker_gui.py:64 | the displayed amount starts with `₹` |
| Amounts.CentsTextRoundTrip | expense_tracker_gui.py:139 | removing `₹` and `,` from a displayed whole number of cents and parsing gives that value back, with its sign |
| Amounts.DisplayRoundTrip | expense_tracker_gui.py:139 | parsing a displayed amount back gives the amount rounded to cents |

## Left out

- Floating point: amounts, sums and rounding are exact reals. Binary rounding error, summation order and `round`'s behaviour on values that are not exactly representable are not modelled.
- CSV text:
  - quoting and encoding of the file are not modelled;
  - an amount is stored and read back as the same number;
  - an empty description, which pandas reads back as NaN, is compared as empty text.
- Missing values: `pd.read_csv` reads an empty field and the texts `NA`, `N/A`, `n/a`, `#N/A`, `NULL`, `null`, `None`, `NaN`, `nan`, `<NA>` and a few others as NaN in any column, and `groupby` leaves NaN keys out. The model reads every field as its text. Such categories are easy to write: `expense_tracker.py` and `expense_tracker_analytics.py` store a category as typed, and title-casing turns `none` into `None` and `n/a` into `N/A`. For a file holding them, Analytics.TotalByCategoryCorrect, Pro.CategorySummary, Pro.CategoryBuckets, Pro.TopCategory, Pro.TopCategoryCorrect and the top category of Pro.ExportPdfReport describe buckets pandas does not build: those rows are missing from the program's totals, which then do not add up to the file total, and `idxmax` raises when every category is missing. The category search of the advanced GUI never shows such rows either. Likewise a date typed as `NA` in the advanced GUI is read by `parse_dates` as a missing date, and that row is left out of a month grouping, where the model treats the date as one that does not parse.
- TrackerGui.DeleteDisplayedRow: the program cannot delete a row whose description is empty. pandas reads that description as NaN, the table shows it as `nan`, and NaN equals nothing, so the mask never selects the row and "Matching entry not found" is shown. The lemma holds only for the model's reading of the empty description as empty text. The same NaN makes `AdvanceGui.DeleteExpense` and `AdvanceGui.DeleteByValues` leave such rows in the file.
- Analytics.ExportMonthReport: the CSV written is not the file's rows verbatim. It has an extra `YearMonth` column, and its dates are printed back by pandas as zero-padded `YYYY-MM-DD`. The model states which records are exported and in what order, not the text of the exported file.
- Amounts.ParseFloat: `inf`, `infinity` and `nan` (in any case, with a sign) are not reals and give `None`, while Python accepts them. So a `nan` amount passes the GUI's `amount <= 0` check and is written, `inf` is written by every script, and `-inf` is rejected only as not positive; the model rejects all three as not a number. An exponent large enough to overflow to infinity in Python, non-ASCII digits and whitespace other than ASCII inside the literal are not modelled either.
- `pd.read_csv` with `parse_dates` is narrowed to `%Y-%m-%d` dates. A column holding other date spellings that pandas would infer is treated as text.
- `pd.Period(..., freq='M')` is narrowed to `YYYY-M` or `YYYY-MM` with a four-digit year.
- A file whose first line is not the header collapses to one `Unreadable` state. Its rows are not kept, so reads of such a file are modelled only as failing.
- The console loops that re-ask for a date, amount or month are modelled as one pass whose rejected answer is an outcome (`Analytics.ParseDateInput`, `Analytics.ValidateEntry`, `Analytics.ChosenMonth`).
- The clock, the answers typed, the selected row and the confirmation dialog are parameters.
- Printing and drawing are not modelled:
  - the Tkinter widgets, message-box texts, `refresh_table` and `clear_entries`;
  - the matplotlib charts;
  - `tabulate` grids;
  - the PDF drawing calls and `view_expenses` printing.
- `show_chart`, `edit_expense` and `plot_category_for_month` are not modelled:
  - the first two only chain modelled operations with widget updates;
  - `plot_category_for_month` calls `.mac()`, which does not exist on a Series, so the blank-month branch always raises.
- The advanced GUI shows amounts as Python's `str` of a float. `AdvanceGui.DeleteExpense` and `AdvanceGui.DeleteByValues` take any text and parse it with `float()`.
- Analytics.ViewExpense:
  - the order among rows with the same date is the model's own insertion order, while pandas' sort is not stable;
  - the contract claims only newest-first order and which rows are shown;
  - a negative `limit` is not modelled: the only caller passes 20.
- Aggregate.ByTotalDescendingCorrect: the order among categories with equal totals is not claimed, for the same reason.
- Pro.ExportPdfReport: the report file name and fonts are not modelled. Only the report content and the line positions are.
- The database-backed scripts (`fintrack.py`, `fin_gui.py`, `fin_analytics.py`, `main.py`, `db/`) are not part of this model.
- Title-casing follows ASCII letters only. Other characters are treated as uncased, while Python's `str.title` also cases non-ASCII letters.
