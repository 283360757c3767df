# Ledger model

A Dafny model of the core of a small personal-finance web application: a
"glorified spreadsheet" that keeps accounts, tags and transactions in a SQLite
database and shows them as pages. The model covers:

- the schema and the constraints SQLite enforces on it (`Schema`, from `db.js`);
- the handlers that write, as methods of a `Ledger` class whose four fields are the
  four tables (`Store`). These are creating an account, a tag or a transaction, and
  editing a transaction. The class invariant is the schema's: unique keys and
  enforced foreign keys;
- the read side (`Queries`):
  - the date range a page shows;
  - the listing of every transaction, of one account's and of one tag's;
  - their lifetime totals and range totals;
- the preselected options of the two transaction forms (`Forms`);
- the two display formatters for currency and date-time (`Format`);
- text ordering and decimal rendering of integers as SQLite and JavaScript see them
  (`Text`);
- a worked example driven through the handlers (`Scenario`).

Amounts are integers in cents. A form's amount reaches the model already multiplied
by 100, or as `None` when it is not a number. Strings are `seq<char>`. Stored
timestamps and range bounds are compared as text, as SQLite compares two TEXT values.
That holds for bounds such as `YYYY-MM-DD`, which SQLite keeps as text. Bounds that
look like numbers are converted by SQLite and are not modelled (see "## Left out").
The clock is a parameter: `now` for the stored timestamp of a new transaction and
`today` for the default end of a range.

Three behaviours of the code are easy to misread, and the model follows the code:

- When no end date is given, the range ends on today's date.
  Because stored timestamps carry a time of day, and `between` compares text, this
  default range leaves out everything recorded today. `Queries.DefaultRangeExcludesToday`
  states this.
- Editing a transaction always deletes all of its tag associations. It then
  re-inserts only the tags the form submitted, so a form with no tags leaves the
  transaction with none.
- The statements of a handler run one at a time, with no enclosing database
  transaction. If a tag insert fails, the transaction row and the earlier
  associations stay.

## Model

| member | source | states |
|---|---|---|
| Schema.NextRowId | db.js:13 | the id SQLite gives a new row is larger than every id in the table, so it is fresh, and it is 1 in an empty table |
| Schema.FindTransaction | index.js:225-229 | the lookup by primary key finds a row exactly when the id is in the table, and the row it returns has that id |
| Schema.FindAccount | index.js:179 | the account lookup finds a row exactly when the id is in the table, with that id |
| Schema.FindTag | index.js:143 | the tag lookup finds a row exactly when the id is in the table, with that id |
| Schema.TagIdsOf | index.js:232-237 | a tag id is among a transaction's tag ids exactly when an association row pairs the two |
| Schema.TagIdsOfAppend | index.js:232-237 | the tag ids of a table split in two are those of the first part followed by those of the second |
| Store.NormaliseTags | index.js:209-213 | an absent tags field gives no ids, a single value gives a one-element list, and a list is kept as it is |
| Store.SignedAmount | index.js:192-202 | an amount is stored only for type `income` (positive) or `expense` (negated); any other type, or an amount that is not a number, gives NULL |
| Store.TransactionRowError | db.js:17-25 | a transaction row is accepted exactly when amount, description and account are present and the account exists |
| Store.AssociationError | db.js:32-37 | an association row is accepted exactly when its transaction and its tag both exist; otherwise it fails a foreign key |
| Store.InsertablePrefix | index.js:215-217 | the tag inserts that succeed are a prefix of the submitted ids, and the first id after it fails |
| Store.Associate | index.js:215-217 | inserting a list of tag ids appends one association row per id, in order |
| Store.WithoutTransaction | index.js:256 | the delete removes exactly the transaction's association rows, so it has no tags left and every other transaction keeps its tags |
| Store.Overwrite | index.js:245-254 | the update changes only the row with the id: it takes the new amount, description, account and notes and keeps its id and timestamp; the set of ids is unchanged |
| Store.WithoutAbsentTransaction | index.js:256 | deleting the associations of a transaction that has none leaves the table as it was |
| Store.MissingTransactionTakesNoTags | index.js:262-264 | for a transaction that does not exist, the very first association insert fails |
| Store.ReplacedAssociations | index.js:256-265 | after the delete and the re-insert, the edited transaction's tags are exactly the inserted ids and every other transaction's tags are unchanged |
| Store.FreshAssociations | index.js:209-218 | tags inserted for a transaction with no associations become exactly its tags, and nobody else's change |
| Store.AssociatedIds | index.js:215-217 | the rows inserted for one transaction carry exactly the inserted ids for it and none for any other transaction |
| Store.Ledger.Open | db.js:5-37 | opening a database that already has the four tables keeps them row for row; opening a new one creates them empty; the schema invariant holds |
| Store.Ledger.CreateAccount | index.js:92-96 | a missing name is a NOT NULL error and changes nothing; otherwise exactly one account is appended under a fresh id; the invariant is kept |
| Store.Ledger.CreateTag | index.js:103-107 | a missing name is a NOT NULL error and changes nothing; otherwise exactly one tag is appended under a fresh id; the invariant is kept |
| Store.Ledger.InsertAssociation | index.js:216 | an association row is appended exactly when both foreign keys hold; otherwise the error is returned and nothing changes |
| Store.Ledger.InsertTags | index.js:215-217 | the loop appends the associations for the longest insertable prefix of the ids, and reports an error exactly when it stopped early |
| Store.Ledger.CreateTransaction | index.js:197-222 | a rejected row writes nothing and reports the violated constraint. Otherwise one row is appended under a fresh id, with the signed amount and the timestamp `now`; the transaction's tags are the insertable prefix of the submitted ids; no other transaction's tags change; a tag error is reported exactly when an insert failed; the invariant is kept |
| Store.Ledger.UpdateTransaction | index.js:244-269 | for an existing row, a rejected update changes nothing. Otherwise the row is overwritten, all its associations are replaced by the insertable prefix of the submitted ids, other transactions' tags are unchanged, and an error is reported exactly when a tag insert failed. For a missing id, nothing changes, and an error is reported exactly when tags were submitted. The invariant is kept |
| Queries.ResolveRange | index.js:54-57 | each bound is the query parameter when one is present, even an empty one; otherwise the start is 2023-01-01 and the end is today |
| Queries.Supplied | index.js:76 | a query parameter is truthy exactly when it is present and not the empty string |
| Queries.InRange | index.js:68 | `between` holds a timestamp only when the start does not sort after the end, so a reversed range holds nothing |
| Queries.InScope | index.js:122 | every transaction is in the all-transactions scope; a transaction is in a tag's scope exactly when the tag is among its tag ids |
| Queries.EndDateTimestampExcluded | index.js:67-68 | a timestamp on the end date itself sorts after the bare date and so falls outside the inclusive range |
| Queries.DefaultRangeExcludesToday | index.js:56 | with the default end, no transaction stamped today is in range |
| Queries.Select | index.js:67-68 | a transaction is selected exactly when it is in the table, in scope and in range; ids stay unique |
| Queries.SelectAll | index.js:73 | with no scope and no range every transaction is selected, in table order |
| Queries.SumAmountsAppend | index.js:73 | the sum over two parts is the sum of the two sums |
| Queries.InsertNewestFirst | index.js:70 | inserting one transaction gives the old sequence plus exactly that transaction, as multisets, and adds its amount to the sum |
| Queries.InsertKeepsNewestFirst | index.js:70 | inserting into a newest-first sequence keeps it newest first |
| Queries.InsertKeepsUniqueIds | index.js:69-70 | inserting a transaction with a new id keeps ids unique |
| Queries.ConsKeepsUniqueIds | index.js:69-70 | a transaction with a new id placed in front keeps ids unique |
| Queries.SortNewestFirst | index.js:70 | `order by timestamp desc` yields a permutation of its input (equal multisets), with non-increasing timestamps and the same sum |
| Queries.SortKeepsUniqueIds | index.js:69-70 | sorting keeps ids unique |
| Queries.TagNames | index.js:62-66 | a name in the tags column belongs to an existing tag of the transaction (on a tag's page, to that tag). There is one name per association row outside a tag's page, and at least one on a tag's page |
| Queries.TagNamesComplete | index.js:62-66 | every association whose tag exists (on a tag's page, with that tag) puts its tag's name in the tags column |
| Queries.TagNamesCount | index.js:121-122 | on a tag's page the tag's name appears once per association with the tag |
| Queries.TagNamesAppend | index.js:62-66 | the names for association rows split in two are the names of the two parts together |
| Queries.TagNamesPerRow | index.js:62-66 | a name appears in the tags column exactly as often as association rows of the transaction join a tag of that name (on a tag's page, that tag), counted over the association table |
| Queries.Annotate | index.js:62-64 | each listed row keeps its transaction and shows the name of the transaction's own account |
| Queries.Listing | index.js:60-72 | every listed row is a transaction of the table, in scope and in range, shown with its own account's name |
| Queries.TableIdsUnique | db.js:18 | the primary key makes transaction ids unique |
| Queries.ListedAreSorted | index.js:60-72 | a page lists the selected transactions sorted newest first, each id once |
| Queries.ListingExactlyOnce | index.js:60-72 | a transaction is listed exactly when it is in scope and in range; no id is listed twice; the rows are newest first |
| Queries.ListingColumns | index.js:114-127 | each row shows its account's name. Outside a tag's page it shows one tag name per association; on a tag's page at least one name, all of them that tag's |
| Queries.ListingTagColumn | index.js:114-127 | each row's tags column names every tag its transaction is associated with (on a tag's page, that tag), and on a tag's page the name appears once per association row |
| Queries.ListingTagCounts | index.js:114-127 | on every page, each name in a row's tags column belongs to a tag associated with the transaction (on a tag's page, that tag) and appears once per association row joining a tag of that name |
| Queries.TagByKey | db.js:28 | under the unique key, looking a tag up by its own id finds that tag |
| Queries.TagIdsOfCounts | index.js:65-66 | a tag id occurs in a transaction's tag ids once per association row pairing them |
| Queries.WithId | index.js:130 | every joined partner of an association is a transaction with that id, in range |
| Queries.TagJoin | index.js:128-132 | every joined row is a transaction associated with the tag and in range |
| Queries.SummedRows | index.js:73-81 | every summed row is a transaction in scope and range, and outside a tag's scope every such transaction is summed |
| Queries.SqlSum | index.js:73 | SQL `sum` is NULL exactly over no rows, and the sum of the amounts otherwise |
| Queries.RangeTotal | index.js:74-82 | the range total is absent unless a start or end date was supplied non-empty; when present it is the sum of the in-range rows, and 0 when there are none |
| Queries.Total | index.js:167-168 | a lifetime total is NULL exactly when no row is summed, and otherwise the sum of the summed rows, whatever the range |
| Queries.TotalOfAll | index.js:73 | the all-transactions total is the sum of the whole table, NULL exactly when the table is empty |
| Queries.TotalOfAccount | index.js:167-168 | an account's total is the sum of its transactions, NULL exactly when it has none |
| Queries.TotalOfTag | index.js:128-132 | a tag's total is NULL exactly when no association row carries the tag, and otherwise counts each transaction once per association row with the tag |
| Queries.TagJoinEmpty | index.js:128-132 | with no range, the join is empty exactly when no association row carries the tag |
| Queries.WithIdFinds | index.js:130 | with no range, an association joins exactly when its transaction exists |
| Queries.WeightedSumStep | index.js:128-132 | one more association row adds its transaction's in-range amount to the tag's sum |
| Queries.TagJoinWeighted | index.js:128-132 | a tag's total counts each transaction once per association row with the tag |
| Queries.WeightedSumEmpty | index.js:128-132 | with no association rows a tag's sum is 0 |
| Queries.WeightedSumWithoutDuplicates | index.js:136-141 | when no (transaction, tag) pair is duplicated, the tag's join sum is the sum over its transactions in range |
| Queries.UndupedHead | index.js:136-141 | a transaction with at most one row for the tag adds the same amount to the join sum and to the plain sum |
| Queries.MultiplicityCounts | index.js:130 | a transaction joins a tag at least once exactly when an association row pairs them |
| Queries.RangeTotalMatchesListing | index.js:74-82 | on the all-transactions and account pages the range total is the sum of the amounts listed |
| Queries.TagRangeTotal | index.js:133-142 | on a tag's page the range total counts each listed transaction once per association row with the tag, and equals the sum of the listed amounts when no pair is duplicated |
| Forms.NewTransactionAccounts | index.js:185-186 | the new-transaction form offers every account, and preselects one exactly when the query's `account_id` is its id written in decimal |
| Forms.AtMostOneAccountPreselected | index.js:185-186 | a preselected account's id is the query's decimal value, and at most one account is preselected |
| Forms.LeadingZeroSelectsNothing | index.js:185-186 | a query value of two or more characters with a leading zero after the optional sign, such as `007`, preselects no account |
| Forms.EditTransactionForm | index.js:224-242 | the edit page exists exactly when the transaction does, and it shows that transaction |
| Forms.EditFormSelection | index.js:230-239 | exactly one account is preselected, the transaction's own; a tag is preselected exactly when the transaction has an association with it |
| Format.Pad2 | index.js:20 | a number below 100 is written in exactly two digits |
| Format.ParsePad2 | index.js:20 | the two-digit padding of a number below 100 reads back as that number |
| Format.DisplayCurrency | index.js:28-30 | the display has a point followed by two digits, starts with a minus sign exactly for a negative amount, and its whole units start with a zero only for less than one unit, and then are that single zero followed by the point |
| Format.ReadCurrency | index.js:28-30 | a sign, units, a point and two digits of cents read back as the signed amount in cents |
| Format.CurrencyRoundTrip | index.js:28-30 | the display of any amount in cents reads back as that exact amount |
| Format.MonthIndex | index.js:11 | an abbreviation is recognised only as the abbreviation of that month |
| Format.MonthIndexOf | index.js:11 | each month's abbreviation is recognised as that month |
| Format.DisplayDatetime | index.js:18-26 | for fields `Date` can return: the day in two digits, the month's abbreviation, the year, the hour and the minute in two digits, each at a fixed place with its separators |
| Format.DatetimeLayout | index.js:25 | where day, month, year, hour and minute sit in `DD Mon YYYY, HH:MM` |
| Format.DatetimeRoundTrip | index.js:18-26 | for fields `Date` can return, the date-time display loses nothing: every field reads back |
| Text.LexLeReflexive | index.js:68 | every timestamp compares equal to itself under text order |
| Text.LexLeTotal | index.js:70 | any two timestamps are ordered one way or the other |
| Text.LexLeAntisymmetric | index.js:70 | two strings ordered both ways are equal |
| Text.LexLeTransitive | index.js:70 | text order is transitive |
| Text.ExtensionSortsAfter | index.js:68 | a string followed by more text sorts strictly after the string itself |
| Text.SameLengthBelow | index.js:68 | of two different strings of equal length, the smaller stays at or below the larger after text is appended to it |
| Text.FirstDifferenceDecides | index.js:68 | after a common prefix, the first differing character decides the order |
| Text.NatDigits | index.js:186 | a natural number is written as a non-empty string of decimal digits, one digit exactly below ten, with no leading zero (a leading `0` means the text is `"0"`) |
| Text.IntToDecimal | index.js:186 | an integer's decimal text is non-empty, starts with a minus sign exactly for a negative integer, and has no leading zero after the sign (a non-negative integer's text starting with `0` is exactly `"0"`) |
| Text.ParseNat | index.js:186 | a string reads as a natural number exactly when it is a non-empty string of digits |
| Text.ParseNatDigits | index.js:186 | the decimal text of a natural number reads back as that number |
| Text.ParseIntDecimal | index.js:186 | the decimal text of an integer reads back as that integer |
| Text.DecimalInjective | index.js:231 | two integers with the same decimal text are equal, so comparing ids as text compares them as numbers |
| Scenario.AfterExpense | db.js:12-37 | the database after the worked example satisfies the schema invariant |
| Scenario.OpenWithAccountAndTag | index.js:92-107 | on a fresh database the first account and the first tag both get id 1 |
| Scenario.RecordExpense | index.js:197-222 | recording an expense of 1250 cents with one tag stores amount -1250 under id 1 with one association |
| Scenario.ExpenseAccountTotal | index.js:167-168 | the account's lifetime total is then -1250 |
| Scenario.DayContains | index.js:123 | a timestamp taken on a day lies in the range from that day to any later day written with a date of the same length |
| Scenario.ExpenseTagPage | index.js:114-127 | the tag's page over any range holding the timestamp lists the one transaction, under its account's name, tagged with the tag's name |
| Scenario.PurchaseDayPage | index.js:121-123 | the range from the purchase day to the next holds the timestamp, so that tag page lists the purchase |

## Left out

- I/O is not modelled: the web server, routing, redirects, page templates, static files and the request logger.
- The HTTPS proxy (`tsproxy`) is not part of this model.
- The raw SQL text is not modelled. Each statement is modelled by its effect on the four tables.
- Parsing form amounts as floating-point numbers, and multiplying them by 100, is not modelled. The amount arrives as integer cents, or as `None` for NaN. A non-integral product is not modelled.
- Format.DisplayCurrency: modelled as exact integer division and remainder. Floating-point rounding in `Number(amt) / 100` and `toFixed(2)` is not modelled; it only matters for amounts beyond 2^53 / 100 cents.
- Format.DisplayDatetime: the conversion of a stored ISO timestamp to local calendar fields is not modelled. `Date` and the time zone are left out; the fields are the input.
- Store.Ledger.CreateTransaction: `now` is a parameter, because the clock is left out. For the same reason Queries.ResolveRange and Queries.RangeTotal take `today` as a parameter.
- Queries.InRange: range bounds that are numeric literals (`2024`, `20240101`) are not modelled. The `timestamp` column has NUMERIC affinity, so SQLite turns such a bound into an INTEGER, and every INTEGER sorts below every TEXT timestamp. For example, `endDate=2024` lists nothing. Only non-numeric bounds, such as `YYYY-MM-DD`, are modelled, compared as text.
- Schema.NextRowId: SQLite's fallback, when the largest id is already the maximum 64-bit integer, is not modelled. That fallback picks an unused id at random.
- Queries.SqlSum: overflow of SQLite's 64-bit integer `sum` is not modelled; integers are unbounded.
- Ids from the URL and the submitted forms (a form's `account_id`, `tags`, a page's `:id`) are modelled as integers that are present or absent. Text that SQLite's type affinity would not turn into an integer is not modelled. The `account_id` query parameter of the new-transaction page is the one exception: it is compared as text with `===`, and the model keeps it as an optional string. A repeated query parameter that arrives as a list is not modelled.
- Store.TransactionRowError: when several constraints fail at once, SQLite reports only one. The model picks column order, then the foreign key; only which error is reported depends on this.
- Queries.TagNames: `group_concat` joins tag names in an unspecified order, so the tags column is a multiset of names, not the joined string.
- Queries.SortNewestFirst: SQL leaves the order of transactions with equal timestamps unspecified. The model promises only non-increasing timestamps, not a particular order among ties.
- Concurrency between requests is not modelled. Handlers are taken to run one after another.
- Opening the database file is not modelled; Store.Ledger.Open takes the existing tables as a parameter.
- Store.Ledger.Open: requires existing tables to satisfy the schema invariant. `pragma foreign_keys = on` does not re-check rows already in the file, so a file written with foreign keys off can hold association or transaction rows whose referenced row is missing; such a file is not modelled.
- Store.Ledger.Open: models a database with all four tables or with none. A file where only some of the tables exist is not modelled; there, `create table if not exists` would create just the missing ones, empty.
- The view-only GET pages for the new-account and new-tag forms render no data and are not modelled.
