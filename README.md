# Expense tracker ledger, modelled in Dafny

This project models the core of a browser expense tracker, `script.js`. The core is one
list of transaction records together with the logic that reads or changes it:

- adding a record from the form, unless the description, amount or date is blank;
- removing records by id, and clearing the list;
- the filtered view, built from a case-insensitive search, a category and a from/to date range;
- the balance, income and expense figures over a list of records;
- the income and expense of the current month, taken over the whole list;
- the text of the CSV export.

The list is the field `transactions` of the class `ExpenseLedger.Ledger`. Its methods
`AddTransaction`, `RemoveTransaction` and `ClearAll` change it as the page's functions do.
`ExportCsv` builds the export text in a loop, as `exportCSV` does. The filter, the totals
and the monthly summary are pure functions, in the modules `Filters` and `Totals`.

Amounts are exact integers counting hundredths (cents). So `total == income - expense`
holds exactly, with no floating-point rounding. The record id (`Date.now()`) and the
current instant (`new Date().toISOString()`) are parameters.

Files, one module each:

- `seqs.dfy` (`Seqs`): `Array.prototype.filter` as a function, with order-preservation lemmas.
- `text.dfy` (`Text`): `trim`, ASCII `toLowerCase`, `includes`, `startsWith`, ECMAScript's `<`
  on strings, a comma join for the export lines, and a `split` that the page never calls and
  that exists only to read the export back.
- `transactions.dfy` (`Transactions`): the record, the form guard, removal by id, unique ids.
- `filters.dfy` (`Filters`): the four filter tests and the filtered view.
- `totals.dfy` (`Totals`): `updateValues` and `updateMonthSummary`.
- `csv.dfy` (`Csv`): the export text, plus a reader for it that states what the export preserves.
- `ledger.dfy` (`ExpenseLedger`): the `Ledger` class and worked examples.

Modelling decisions about the code's behaviour:

- Loading calls `JSON.parse` unguarded, so malformed stored content would throw rather than
  give an empty list. Loading is not modelled; the constructor is given either nothing (key
  absent, hence `[]`) or the stored list.
- The guard only tests that the amount input's value is not `''`. The model assumes that input
  is an `<input type="number">`, which reports `''` for an empty entry and for one that is not a
  number; the form's amount is then `Option<int>`, with `None` for that case. With a plain text
  input, `+amount.value` would store `NaN` for such an entry, which the model does not cover.
- Ids are meant to be unique, but nothing in the page enforces it: `Date.now()` can repeat.
  The model proves only that adding a fresh id, or removing one, keeps ids unique, and it
  states removal and the filtered view record by record with their multiplicities, so that
  duplicate records are covered.
- The page's functions return nothing. `AddTransaction` returns whether the submission was
  accepted; `RemoveTransaction` returns nothing.

## Model

| member | source | states |
|---|---|---|
| `ExpenseLedger.Ledger.constructor` | script.js:23 | the list starts as the stored list, or empty when nothing is stored |
| `ExpenseLedger.Ledger.AddTransaction` | script.js:63-83 | accepted exactly when the guard passes; a rejection leaves the list unchanged; an acceptance appends exactly one record, last, with the form's fields and the given id, and keeps every earlier record in place; a fresh id keeps ids unique |
| `ExpenseLedger.Ledger.RemoveTransaction` | script.js:146-149 | the new list is the old one without the id: no record has that id, every other record is kept with all its copies, in the original order, and unique ids stay unique |
| `ExpenseLedger.Ledger.ClearAll` | script.js:152-157 | after confirmation the list is empty |
| `ExpenseLedger.Ledger.View` | script.js:86-94 | the view is a subsequence of the ledger; a record is in it if and only if it is in the ledger and matches the criteria, and a matching record appears as many times as in the ledger |
| `ExpenseLedger.Ledger.Cards` | script.js:55-57 | the balance cards are computed over the filtered view: balance is the sum of the view's amounts, income the sum of its positive amounts, expense the negated sum of its negative amounts; so income and expense are non-negative and balance = income - expense |
| `ExpenseLedger.Ledger.MonthCards` | script.js:129-139 | the month figures are the income and expense of the whole ledger's records dated in the current month, whatever the filter inputs hold |
| `ExpenseLedger.Ledger.ExportCsv` | script.js:160-166 | the loop returns exactly `Export` of the ledger: nothing when empty, else header and record lines |
| `Seqs.Filter` | script.js:87-93 | a filter never grows the list |
| `Seqs.FilterMembers` | script.js:87-93 | every element a filter keeps passes the test, and an element is kept if and only if it is in the input and passes |
| `Seqs.FilterCount` | script.js:87-93 | a filter keeps every copy of an element that passes the test and no copy of one that fails |
| `Seqs.FilterIsSubsequence` | script.js:87-93 | a filter preserves the order of the input |
| `Seqs.FilterIdempotent` | script.js:147 | filtering twice by the same test is filtering once |
| `Text.TrimStart` | script.js:67 | removes exactly the leading whitespace: what goes is whitespace, and what stays starts with a non-whitespace character |
| `Text.TrimEnd` | script.js:67 | removes exactly the trailing whitespace |
| `Text.TrimEmptyIffBlank` | script.js:67 | `trim()` yields `''` if and only if every character is whitespace |
| `Text.Trim` | script.js:67 | `trim()` as trailing-trim after leading-trim; its behaviour is stated by `Text.TrimStart`, `Text.TrimEnd` and `Text.TrimEmptyIffBlank` |
| `Text.Lower` | script.js:88 | ASCII `toLowerCase`; its properties are stated by `Text.LowerHasNoCapitals`, `Text.LowerIdempotent` and `Text.LowerSlice` |
| `Text.LowerHasNoCapitals` | script.js:88 | a lowered string holds no ASCII capital letter |
| `Text.LowerIdempotent` | script.js:88 | lowering twice is lowering once |
| `Text.LowerSlice` | script.js:88 | lowering commutes with taking a slice, so a lowered stretch is the stretch of the lowered text |
| `Text.Includes` | script.js:88 | `includes`, tried position by position; its meaning is stated by `Text.IncludesIffOccurs` |
| `Text.StartsWith` | script.js:133 | `startsWith`: the prefix of the right length equals the argument; used by `Totals.MonthData` |
| `Text.Less` | script.js:90-91 | ECMAScript's `<` on strings; its order properties are stated by `Text.LessIrreflexive`, `Text.LessTransitive`, `Text.LessTotal` and `Text.AtMostTransitive` |
| `Text.IncludesIffOccurs` | script.js:88 | `includes` holds if and only if the searched text occurs at some position |
| `Text.IncludesEmpty` | script.js:88 | an empty search matches every description |
| `Text.LessIrreflexive` | script.js:90-91 | no date string is before itself |
| `Text.LessTransitive` | script.js:90-91 | the string order used by the date tests is transitive |
| `Text.LessTotal` | script.js:90-91 | any two different date strings are ordered one way or the other |
| `Text.AtMostTransitive` | script.js:90-91 | the non-strict order `<=` used by the range tests is transitive |
| `Transactions.Accepts` | script.js:66-70 | the submit guard; `Transactions.AcceptsIff` states when it rejects |
| `Transactions.Record` | script.js:72-78 | a record the guard lets through has a description that is not all whitespace and a non-empty date, besides the given id and the form's amount |
| `Transactions.AcceptsIff` | script.js:66-70 | a submission is rejected exactly when the description is only whitespace, the amount is empty, or the date is empty |
| `Transactions.Without` | script.js:147 | no remaining record has the id; a record remains if and only if it was there with another id, and then with as many copies as before |
| `Transactions.WithoutIsSubsequence` | script.js:147 | removal keeps the other records in their original order |
| `Transactions.WithoutAbsent` | script.js:147 | removing an id that is not present changes nothing |
| `Transactions.WithoutIdempotent` | script.js:147 | removing twice equals removing once |
| `Transactions.WithoutUnique` | script.js:147 | with unique ids, removing a present id shortens the list by exactly one |
| `Transactions.AppendFreshKeepsUnique` | script.js:72-80 | appending a record with an unused id keeps ids unique |
| `Transactions.WithoutKeepsUnique` | script.js:147 | removal keeps ids unique |
| `Filters.MatchText` | script.js:88 | the search test; `Filters.SearchIgnoresCase` states what it accepts |
| `Filters.MatchCategory` | script.js:89 | the category test; its meaning is part of `Filters.FilteredViewMembers` |
| `Filters.MatchFrom` | script.js:90 | the from-date test, `date >= from` as `!(date < from)`; see `Filters.MatchedDateWithinRange` and `Filters.SameDayRange` |
| `Filters.MatchTo` | script.js:91 | the to-date test, `date <= to` as `!(to < date)`; see the same lemmas |
| `Filters.Matches` | script.js:92 | all four tests together; `Filters.FilteredViewMembers` states it in full |
| `Filters.FilteredView` | script.js:86-94 | the view is never longer than the ledger |
| `Filters.FilteredViewMembers` | script.js:86-94 | a record is in the view if and only if it is in the ledger, its lower-cased text contains the lower-cased search, its category is the filter's (or the filter is "All"), and its date is not before `from` and not after `to` (each bound ignored when empty) |
| `Filters.FilteredViewIsSubsequence` | script.js:86-94 | the view keeps ledger order |
| `Filters.UnfilteredViewIsLedger` | script.js:88-91 | with empty search, category "All" and both dates empty, the view is the whole ledger, unchanged |
| `Filters.MatchedDateWithinRange` | script.js:90-91 | a matched record's date lies in the range from `from` to `to`, and then `from <= to` |
| `Filters.InvertedRangeSelectsNothing` | script.js:90-91 | a `from` date after the `to` date selects no record |
| `Filters.SameDayRange` | script.js:90-91 | with `from == to`, the date tests pass exactly for records of that date |
| `Filters.SearchIgnoresCase` | script.js:88 | a record passes the search if and only if some stretch of its description, as typed, equals the search up to ASCII letter case |
| `Totals.Amounts` | script.js:115 | the amounts list has one entry per record, in the same order |
| `Totals.Reduce` | script.js:117-120 | the fold `reduce((a, v) => a + v, acc)`; `Totals.ReduceIsSum` states its value |
| `Totals.ReduceAmounts` | script.js:136-139 | the fold `reduce((a, v) => a + v.amount, acc)`; `Totals.ReduceAmountsIsSum` states its value |
| `Totals.ReduceIsSum` | script.js:117-120 | `reduce((a, v) => a + v, acc)` computes `acc` plus the sum |
| `Totals.ReduceAmountsIsSum` | script.js:136-139 | `reduce((a, v) => a + v.amount, acc)` computes `acc` plus the sum of the amounts |
| `Totals.SumSplitsBySign` | script.js:117-120 | the sum of all amounts is the sum of the positive ones plus the sum of the negative ones; zeros count in neither |
| `Totals.AmountsOfIncome` | script.js:118 | income records' amounts are the positive amounts, in order |
| `Totals.AmountsOfExpense` | script.js:120 | expense records' amounts are the negative amounts, in order |
| `Totals.Aggregate` | script.js:114-121 | income >= 0, expense >= 0, and balance = income - expense for any record list |
| `Totals.AggregateIsSums` | script.js:115-121 | balance is the sum of all amounts, income the sum of the positive ones, expense the negated sum of the negative ones |
| `Totals.AggregateAppend` | script.js:115-121 | one more record adds its amount to the balance, and adds to income if positive or to expense (negated) if negative; a zero amount adds to neither |
| `Totals.AggregateConcat` | script.js:115-121 | the three figures of a concatenation are the sums of the parts' figures |
| `Totals.MonthPrefix` | script.js:131 | `slice(0, 7)` of the instant: the first seven characters, or all if shorter, and a prefix of it |
| `Totals.MonthData` | script.js:133 | a record is in the month's data if and only if it is in the ledger and its date starts with the month |
| `Totals.MonthDataCount` | script.js:133 | the month's data holds every copy of a record dated in the month, and no copy of any other |
| `Totals.MonthSummary` | script.js:129-139 | the monthly income and expense are non-negative |
| `Totals.MonthSummaryAsAggregate` | script.js:133-139 | the monthly figures are the income and expense that `updateValues` gives over the month's records |
| `Totals.MonthSummaryAppendOther` | script.js:133 | a record dated in another month does not change the summary |
| `Totals.MonthSummaryAppendInMonth` | script.js:133-139 | a record dated in the month adds a positive amount to income and a negative one, negated, to expense |
| `Totals.MonthSummaryOnlyMonth` | script.js:133 | the summary of the ledger equals the summary of only its records of that month |
| `Csv.NatToString` | script.js:165 | a number prints as a non-empty string of digits, starting with `0` only for zero |
| `Csv.NatToStringValue` | script.js:165 | the printed digits read back to the number |
| `Csv.Export` | script.js:161 | no export exactly when the ledger is empty |
| `Csv.FormatAmount` | script.js:165 | `${t.amount}`; `Csv.FormatAmountRoundTrip` and `Csv.FormatMagnitudeRoundTrip` state its form and value |
| `Csv.Line` | script.js:165 | one record's line, the four fields joined by commas; `Csv.LineRoundTrip`, `Csv.CommaInTextBreaksLine` and `Csv.LineHasNoBreak` state what it holds |
| `Csv.Rows` | script.js:164-166 | the record lines, each with its newline; `Csv.RowsSnoc` and `Csv.RowsLines` state its shape |
| `Csv.RowsSnoc` | script.js:164-166 | one more record appends exactly its line and a newline to the text |
| `Csv.DecimalsValue` | script.js:165 | the decimals of a non-zero number of hundredths are one digit exactly when the hundredths are a multiple of ten, never end in `0`, and read back to those hundredths |
| `Csv.WholeRoundTrip` | script.js:165 | a whole number of units prints with no decimal point, and reads back |
| `Csv.FractionRoundTrip` | script.js:165 | a value with hundredths prints as the units, a point and the decimals, does not end in `0`, and reads back |
| `Csv.FormatMagnitudeRoundTrip` | script.js:165 | a printed non-negative amount starts with a digit, holds no comma or newline, and reads back to the amount |
| `Csv.FormatAmountRoundTrip` | script.js:165 | a printed amount reads back to the amount and holds no comma or newline |
| `Csv.LineRoundTrip` | script.js:165 | a line whose text, category and date hold no comma or newline reads back to those four fields |
| `Csv.CommaInTextBreaksLine` | script.js:165 | fields are not escaped: a comma in the description yields more than four fields, and the line no longer reads back |
| `Csv.LineHasNoBreak` | script.js:165 | a line holds no newline if its text fields hold none |
| `Csv.RowsLines` | script.js:164-166 | when no text field holds a line break (commas are allowed), the record part splits at newlines into exactly one line per record, in ledger order, then an empty piece |
| `Csv.ExportLines` | script.js:161-166 | when no text field holds a line break (commas are allowed), the export splits into the header `Description,Amount,Category,Date`, one line per record in order, and the empty piece after the final newline |
| `Csv.ExportRoundTrip` | script.js:161-166 | a non-empty export has exactly one line more than the ledger has records, then a final newline; line k + 1 is record k's line and reads back to that record, id aside |
| `ExpenseLedger.CardsExample` | script.js:114-121 | a coffee at -50.00 and a salary of 5000.00 give balance 4950.00, income 5000.00, expense 50.00 |
| `ExpenseLedger.SearchExample` | script.js:86-94 | the search "sal" over those two records returns only the salary |
| `ExpenseLedger.MarchExample` | script.js:133-139 | the March summary of the coffee and the salary is income 5000.00 and expense 50.00 |
| `ExpenseLedger.MonthExample` | script.js:129-139 | evaluated in March, an April record leaves the month's figures as the March records give them |

## Left out

- DOM lookups, list rendering, `innerHTML` and event wiring (script.js:1-21, 44-60, 97-111, 123-125, 141-142) are user interface. `init` is modelled only by what it feeds the cards: `Ledger.Cards` over the filtered view and `Ledger.MonthCards` over the whole list.
- The `confirm` dialog of `clearAll` is user interaction. `ClearAll` is the state change after confirmation.
- The theme toggle and its stored preference (script.js:25-38) are a display flag with no logic.
- `localStorage` and `JSON.parse`/`JSON.stringify` (script.js:23, 177-179) are browser storage and library serialisation. Ledger.constructor: models only the `|| []` fallback for an absent key, given the stored list as a parameter; it does not model the parse or its exception on malformed content.
- The `Blob`, object URL and anchor-click download (script.js:168-173) are file output. The model stops at the text.
- Floating point: `+amount.value`, JS addition and `toFixed(2)` are replaced by exact integer hundredths. A value with more than two decimals cannot be entered in this model.
- Csv.FormatAmount: prints the exact two-decimal form. JavaScript prints the shortest decimal that reads back to the same double, which agrees with it only up to about 15 significant digits (12345678901234567.89 prints as "12345678901234568"); exponent notation, for magnitudes of 1e21 and over, is not modelled either.
- `Date.now()` and `new Date()` are wall-clock reads. The id and the ISO-8601 instant are parameters, and the instant is assumed to be already in UTC, as `toISOString` gives it.
- Text.Lower: handles ASCII letters only. The full Unicode case mapping of `toLowerCase` is not modelled.
- Text.Less: compares Unicode scalar values. ECMAScript compares UTF-16 code units, and the two orders differ only for characters outside the Basic Multilingual Plane, which cannot appear in a `YYYY-MM-DD` date.
- `Csv.ParseAmount`, `Csv.ParseLine`, `Csv.ParseMagnitude`, `Csv.DigitsValue`, `Text.Split`, `Text.Count`, `Text.SplitJoin`, `Text.CountJoin` (and the other `Split`/`Count` lemmas): the page contains no reader or `split`. They form a reader written in the model only to state what the export text preserves.
