# Expense ledger core of the personal expense manager

`Advanced_Expense_Tracker.py` is a Tkinter window over a MongoDB collection of
expenses. Its handlers do the following:

- validate and insert an expense;
- list the collection sorted by date, or only a date range;
- delete the selected rows;
- export the shown rows to CSV;
- chart the shown rows by date or by category;
- keep a running total under the table.

This project models that ledger core in Dafny, without the widgets, the plots or
the database driver, and proves what each handler promises.

The model is split into modules:

- `Text` (`text.dfy`): the tools on strings the program relies on:
  - `str.strip()`;
  - decimal digits;
  - search for a separator;
  - Python's code-point string order `LexLe`, and its laws.
- `Sorting` (`sorting.dfy`): a stable insertion sort by a string key. It stands
  for `sorted()` and for the engine's `sort("date", 1)`.
- `Dates` (`dates.dfy`):
  - the calendar: Gregorian leap years, days per month, years 1 to 9999 as a
    `datetime` allows;
  - `strptime(s, "%Y-%m-%d")` as `Parse`, and `strftime("%Y-%m-%d")` as
    `Format`;
  - the normalisation `add_expense` applies to a date;
  - the agreement of string order and calendar order on canonical dates.
- `Amounts` (`amounts.dfy`): amounts as whole cents. It covers `float()` on a
  plain decimal (`ParseAmount`) and the two-decimal rendering `:.2f`
  (`FormatCents`); `ParseAmount` reads back every `FormatCents` rendering.
- `Records` (`records.dfy`):
  - the expense document;
  - the category list;
  - the ordered checks of `add_expense`.
- `Store` (`store.dfy`): the collection.
  - It is an in-memory sequence of `(id, expense)` documents. Ids are handed
    out by a counter.
  - `Select` and `Find` stand for `find(filter).sort("date", 1)`, with the
    engine's unspecified order among equal dates fixed to storage order.
  - The filter `search_by_date_range` builds, and the proof that it selects
    exactly the chronological range.
  - Deletion by id.
- `Aggregation` (`aggregation.dfy`):
  - the total of `update_total`;
  - the dict-filling loops of `graph_by_date` and `graph_by_category`, with
    their partition of the total.
- `Export` (`export.dfy`): the rows `export_data` writes, and reading them back.
- `Ledger` (`ledger.dfy`): the class `ExpenseApp`.
  - Fields: the collection `docs`, the id counter `nextId`, the shown records
    `records` (the program's `current_records`) and the total label
    `totalText`.
  - Methods: `AddExpense`, `LoadRecords`, `SearchByDateRange` and
    `DeleteSelected`, one per handler that changes state, and the constructor.
    Each of them establishes `Valid()`: the shown records are the documents the
    last filter selects, sorted by date, and the label shows their total.
    `UpdateTotal` and `DeleteEach` are steps inside them: the first rewrites only
    the label, the second only the collection.
  - Exporting and charting only read the shown records. They are
    `Export.ExportData`, `Aggregation.GraphByDate` and
    `Aggregation.GraphByCategory`, applied to `records`.

Behaviour worth knowing:

- Dates are parsed as `strptime` does, which is lenient: it accepts `2024-1-5`
  and a day written as a space and a digit (`2024-01- 5`). The stored form is
  the zero-padded ten characters, so normalisation is idempotent.
- The CSV header is the list `["Description", "Amount", "Category", "Date"]`,
  written with no spaces after the commas.
- A date search is checked before any query, in this order: a field is empty,
  a date fails to parse, the from-date lies after the to-date.

## Model

| member | source | states |
|---|---|---|
| Text.Strip | Advanced_Expense_Tracker.py:113-116 | the stripped text is a slice of the input with only whitespace cut off both ends; it has no whitespace at either end, and it is empty exactly when the input is all whitespace |
| Text.PadDigitsOrder | Advanced_Expense_Tracker.py:183 | zero-padded numbers of equal width compare as strings exactly as they compare as numbers |
| Text.LexLeTotal | Advanced_Expense_Tracker.py:152-154 | Python string order is total (any two keys can be sorted) |
| Text.LexLeTransitive | Advanced_Expense_Tracker.py:152-154 | Python string order is transitive |
| Text.LexLeAntisymmetric | Advanced_Expense_Tracker.py:228 | two strings each at most the other are equal |
| Sorting.SortBy | Advanced_Expense_Tracker.py:152-154 | the result is ordered by the key and is a permutation of the input |
| Sorting.Insert | Advanced_Expense_Tracker.py:152-154 | inserting into a key-ordered list keeps it ordered and adds exactly the one element |
| Dates.DaysInMonth | Advanced_Expense_Tracker.py:127 | every month has 28 to 31 days, and 29 exactly for February of a Gregorian leap year |
| Dates.DateLe | Advanced_Expense_Tracker.py:179 | chronological order of two dates, year then month then day, as two datetimes compare; `FormatOrder` ties it to string order |
| Dates.Parse | Advanced_Expense_Tracker.py:127 | a date strptime accepts is a calendar-valid datetime date |
| Dates.Format | Advanced_Expense_Tracker.py:128 | the formatted date is ten characters with dashes at positions 4 and 7 |
| Dates.Normalize | Advanced_Expense_Tracker.py:127-128 | the normalised text exists exactly when the input parses, and is ten characters long |
| Dates.ParseFormat | Advanced_Expense_Tracker.py:127-128 | parsing the formatting of any valid date gives back that date |
| Dates.FormatIsCanonical | Advanced_Expense_Tracker.py:128 | the formatting of a valid date is a canonical stored date |
| Dates.NormalizeIsCanonical | Advanced_Expense_Tracker.py:127-128 | a normalised date is canonical and parses to the same date as the text the user typed |
| Dates.NormalizeIdempotent | Advanced_Expense_Tracker.py:127-128 | normalising a normalised date gives the same string |
| Dates.FormatOrder | Advanced_Expense_Tracker.py:179-183 | formatted dates compare as strings exactly as the dates compare chronologically |
| Dates.CanonicalOrder | Advanced_Expense_Tracker.py:179-183 | two canonical date strings compare as strings exactly as the dates they denote compare |
| Amounts.ParseAmount | Advanced_Expense_Tracker.py:121-125 | an accepted amount comes from a nonempty text, and a negative amount from a text starting with a minus sign |
| Amounts.FormatCents | Advanced_Expense_Tracker.py:215 | the rendering ends in a point and two digits and starts with a minus exactly for negative amounts (also lines 161, 265) |
| Amounts.UnsignedRoundTrip | Advanced_Expense_Tracker.py:122 | reading back the unsigned two-decimal rendering of n cents gives n |
| Amounts.AmountRoundTrip | Advanced_Expense_Tracker.py:122 | reading back the two-decimal rendering of any amount with float() gives that amount |
| Records.Validate | Advanced_Expense_Tracker.py:113-139 | each warning is returned exactly when its check is the first to fail (blank description, then an amount float() refuses, then a date strptime refuses); on success the document holds the stripped description, the parsed amount, the stripped unchecked category and the canonical form of the typed date |
| Store.Matches | Advanced_Expense_Tracker.py:183 | a document matches no filter, or the `$gte`/`$lte` range when its date string lies between the bounds in string order, both included; `RangeMatchesChronologically` ties it to the dates typed |
| Store.Select | Advanced_Expense_Tracker.py:151-154 | the filter keeps exactly the matching documents, each as often as it is stored |
| Store.Find | Advanced_Expense_Tracker.py:151-156 | the found documents are in non-decreasing date order and are a permutation of those the filter selects |
| Store.NextFreeId | Advanced_Expense_Tracker.py:139 | the counter starts above every id of an existing collection |
| Store.RemoveIds | Advanced_Expense_Tracker.py:196-198 | after deleting a set of ids, a document remains exactly when it was stored and its id is not in the set |
| Store.RemoveIdsUnique | Advanced_Expense_Tracker.py:196-198 | deleting keeps ids distinct |
| Store.RemoveIdsWellFormed | Advanced_Expense_Tracker.py:196-198 | deleting keeps the collection well formed |
| Store.SelectAll | Advanced_Expense_Tracker.py:152 | the unfiltered find selects every document |
| Store.ListAllShowsEverything | Advanced_Expense_Tracker.py:152 | listing with no filter shows every stored document and nothing else |
| Store.InsertWellFormed | Advanced_Expense_Tracker.py:133-139 | inserting a canonical-dated expense under the next id keeps the collection well formed |
| Store.AddThenListAll | Advanced_Expense_Tracker.py:139-148 | after an insert, listing everything shows the new document exactly once, no other document with its id, and every earlier document |
| Store.RangeQuery | Advanced_Expense_Tracker.py:164-183 | each search warning is returned exactly when its check is the first to fail (a blank field, a date strptime refuses, a from-date after the to-date); otherwise the filter is an inclusive range between two canonical dates, low bound first |
| Store.RangeMatchesChronologically | Advanced_Expense_Tracker.py:179-183 | the string filter matches a canonical date exactly when it lies chronologically between the two typed dates, both included |
| Store.RangeSelectsChronologically | Advanced_Expense_Tracker.py:179-184 | on a well-formed collection the search selects exactly the documents dated from the from-date to the to-date |
| Aggregation.Total | Advanced_Expense_Tracker.py:258-265 | the accumulator loop ends with the sum of the shown amounts (0 for no records) |
| Aggregation.CategoryLabel | Advanced_Expense_Tracker.py:245 | a category label is never blank, and a non-blank category is its own label |
| Aggregation.Labels | Advanced_Expense_Tracker.py:225-226 | one grouping key per record, in order: its date, or its category with a blank category read as "Other" |
| Aggregation.Distinct | Advanced_Expense_Tracker.py:247 | the dict's keys list each label once and exactly the labels that occur |
| Aggregation.DistinctFirstOccurrenceOrder | Advanced_Expense_Tracker.py:247 | the dict's keys come in order of first occurrence |
| Aggregation.GroupTotals | Advanced_Expense_Tracker.py:229 | the value listed for each key is the sum of the amounts of the records with that key |
| Aggregation.GroupTotalsPartition | Advanced_Expense_Tracker.py:224-229 | for distinct keys covering every record, the group sums add up to the total |
| Aggregation.CoveringKeysPartition | Advanced_Expense_Tracker.py:243-248 | keys covering every label of the working set partition its total |
| Aggregation.AggregateStep | Advanced_Expense_Tracker.py:226-227 | one `agg[k] = agg.get(k, 0) + amount` turn extends the dict from a prefix of the records to one more record |
| Aggregation.Accumulate | Advanced_Expense_Tracker.py:226-227 | one turn of the dict-filling loop keeps the dict equal to the grouped sums of the records seen so far |
| Aggregation.Aggregate | Advanced_Expense_Tracker.py:224-227 | the filled dict has exactly the distinct labels as keys, in insertion order, each mapped to its group sum |
| Aggregation.SortedDistinctKeys | Advanced_Expense_Tracker.py:228 | sorting the dict's keys lists each once, strictly ascending |
| Aggregation.Lookup | Advanced_Expense_Tracker.py:229 | one value per key, in key order, each the dict's entry for that key (also line 248); `LookupGroupTotals` ties it to the group sums |
| Aggregation.LookupGroupTotals | Advanced_Expense_Tracker.py:229 | reading the dict back key by key gives the group sums |
| Aggregation.DateChartOfAggregate | Advanced_Expense_Tracker.py:224-229 | sorted keys of the date dict are strictly ascending, are exactly the dates present, and carry daily sums adding up to the total |
| Aggregation.CategoryChartOfAggregate | Advanced_Expense_Tracker.py:243-248 | the category dict lists the labels once each in first-occurrence order, never the blank category, with sums adding up to the total |
| Aggregation.GraphByDate | Advanced_Expense_Tracker.py:220-229 | no chart exactly when nothing is shown; otherwise strictly ascending distinct dates, exactly those present, each with its daily sum, the sums adding up to the total |
| Aggregation.GraphByCategory | Advanced_Expense_Tracker.py:239-248 | no chart exactly when nothing is shown; otherwise the labels in first-occurrence order, a blank category as "Other", each with its sum, the sums adding up to the total |
| Export.ExportRow | Advanced_Expense_Tracker.py:215 | four fields in header order: description, amount in two decimals, category, date; `ReadRowExport` reads it back as the record |
| Export.ReadRow | Advanced_Expense_Tracker.py:215 | a data row reads back exactly when it has four fields and a numeric amount |
| Export.ReadRowExport | Advanced_Expense_Tracker.py:215 | the row written for a record reads back as that record |
| Export.ReadExportRows | Advanced_Expense_Tracker.py:214-215 | rows written for records read back as those records, in order |
| Export.ReadExported | Advanced_Expense_Tracker.py:213-215 | an exported table starts with the header, and the rows below it read back as the shown records, in order |
| Export.ExportData | Advanced_Expense_Tracker.py:203-218 | nothing is written for an empty working set, a cancelled dialog or a failing file; otherwise the header and exactly one row per shown record, in order, with the amount in two decimals |
| Ledger.TotalLabel | Advanced_Expense_Tracker.py:265 | the label text for a total; `TotalLabelReadsBack` shows it names the total and reads back as it |
| Ledger.TotalLabelReadsBack | Advanced_Expense_Tracker.py:265 | the label starts with "Total: " and its number reads back as the total |
| Ledger.RemoveNoIds | Advanced_Expense_Tracker.py:194-199 | deleting no ids keeps the collection as it was |
| Ledger.RemoveIdsTwice | Advanced_Expense_Tracker.py:194-199 | deleting ids one batch after another removes the same documents as deleting their union |
| Ledger.DeletedStep | Advanced_Expense_Tracker.py:194-199 | each loop turn adds its id to the deleted ids exactly when that delete does not raise |
| Ledger.ExpenseApp.constructor | Advanced_Expense_Tracker.py:15-25 | opening the window lists the whole existing collection sorted by date |
| Ledger.ExpenseApp.UpdateTotal | Advanced_Expense_Tracker.py:258-265 | the label shows the sum of the shown amounts; nothing else changes |
| Ledger.ExpenseApp.LoadRecords | Advanced_Expense_Tracker.py:150-162 | the shown records become the find result for the filter, the label their total; the collection is unchanged |
| Ledger.ExpenseApp.AddExpense | Advanced_Expense_Tracker.py:112-148 | a rejected input returns the first failing check's warning and changes nothing; an accepted one appends exactly one document under the next id and lists everything, showing it once beside every earlier document |
| Ledger.ExpenseApp.SearchByDateRange | Advanced_Expense_Tracker.py:164-184 | a rejected search changes nothing; an accepted one never touches the collection and shows exactly the documents dated from the from-date to the to-date, sorted by date |
| Ledger.ExpenseApp.DeleteSelected | Advanced_Expense_Tracker.py:186-201 | nothing changes without a selection or a confirmation; otherwise every selected id whose delete does not raise is removed, the others stay, failures are reported, and the full list is shown again |
| Ledger.ExpenseApp.DeleteEach | Advanced_Expense_Tracker.py:194-199 | the best-effort loop removes exactly the selected ids whose delete does not raise, reports exactly the others, and keeps the collection well formed |

## Left out

- The Tkinter UI is not modelled:
  - widget construction (`build_ui`);
  - message boxes, which the model replaces with the returned outcome;
  - the Treeview refresh, and the reset of the entry fields after an insert;
  - the `datetime.now()` default date.
- The confirmation dialog and the save dialog are parameters: `confirmed`, and `path` (empty when cancelled).
- Plotting with matplotlib is not modelled. The chart methods return the keys and values that would be plotted.
- The MongoDB client is replaced by the in-memory store:
  - connection and engine errors are not modelled;
  - the form of `ObjectId` is not modelled: ids are natural numbers from a counter;
  - a delete that raises (an unparsable id, or an engine error) is given by the parameter `failing`.
- The order among documents with equal dates is not promised by the engine. `Find`'s own contract states only the date order and the permutation of the selection. Its body, a stable insertion sort over storage order, does fix one order, and the method contracts that say `records == Find(docs, q)` inherit that order: ties come in storage order, which MongoDB does not guarantee.
- Amounts are exact cents, not binary floats. `float()` text beyond an optional sign, digits and one point is not modelled: exponents, `inf`/`nan`, underscores, non-ASCII Unicode digits. Summing floats, and its rounding, is not modelled either.
- Amounts.ParseAmount: rounds digits past the second decimal half-to-even at the cent. `:.2f` rounds the binary float, which can differ on ties.
- Amounts.FormatCents: renders zero cents as `0.00`. The source's float can be a negative value that rounds to zero (typed as `-0` or `-0.001`), which `:.2f` renders as `-0.00`; whole cents cannot hold that sign.
- Dates.Parse: `\d` in `strptime` also matches non-ASCII decimal digits; the model accepts only `0`-`9`.
- Dates.Format: always pads the year to four digits. The platform's `strftime("%Y")` may not pad years below 1000, and on such a platform the string order of early dates would not be chronological.
- Export.ExportData: models the written table as rows of fields. It does not model `csv.writer` quoting of embedded commas or quotes, the line endings, the file encoding, or a partially written file when writing fails midway.
- Aggregation.Total: every modelled document has a numeric amount. The source reads a missing amount as 0 (`r.get('amount', 0)` at line 262) and skips only a value `float()` refuses (the `except` at lines 263-264); neither case arises in the model.
- Aggregation.GraphByCategory: a document without a category key is not modelled, since every inserted document has one; a blank category is read as "Other" as in the source.
- Ledger.ExpenseApp.constructor: requires the existing collection to have distinct ids and canonical dates. Every document `add_expense` inserts has them, and the engine keeps `_id` unique.
- `CATEGORIES` (lines 9-12) is `Records.Categories`. Its only role is the selector's choices and default, and `add_expense` does not check the category against it, so nothing is proved about it.
- The `print` of a failed delete is represented by the `failed` list of the outcome.
