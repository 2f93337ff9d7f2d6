# thyme, modelled in Dafny

thyme is a small personal-finance tool. Bank and card statements go into a
transactions table by three routes:

- a delimited statement read through a column profile named after the institution
  (`parser.py`, `loader.load_xactions`);
- a tagged (QFX) statement read node by node (`loader.load_qfx`);
- a one-off importer (`read.py`) that uses `db.insert_xaction`, which skips
  duplicate rows.

An interactive shell (`thyme.py`) does the rest:

- `list` shows a month's transactions and numbers them;
- `updcat` re-files a listed transaction under another category;
- `bycat` totals the month by category against budgets;
- `acct` lists or renames accounts.

This project models those five files. Each module follows one source file:

| module | file | form |
|---|---|---|
| `StatementParser` | parser.py | pure functions over a `Profile` value |
| `TransactionStore` | db.py | `insert_xaction` and `exists`. The functions `ParseXactionRow` and `FindRow` do the reading and the duplicate test. The table is the class `TransactionTable`, whose `InsertXaction` method updates its fields in place. |
| `StatementReader` | read.py | the import loop as a method over a `TransactionTable`, proved against the function `Read` |
| `Review` | thyme.py | the class `Thyme` (it holds `tx_id_map`) with the `list` and `updcat` commands; `bycat` as a method with its loops, proved against the function `ByCat`; `get_start_end`, `start_of_next_month` and `acct`'s argument handling as functions |
| `Loader` | loader.py | both loaders as methods that make calls to a `Database` class, which logs `insert_transaction` calls; each is proved against a function of the input |

Three support modules hold what the Python code takes from its standard library:

- `Outcomes` holds `Option`, `Result` and the exceptions used (`PyError`).
- `PyText` holds these built-ins of Python 2 byte strings (`str`, as the CSV reader and the command line hand them over), whose whitespace is the six C-locale characters space, tab, line feed, vertical tab, form feed and carriage return:
  - `isspace`, `strip`, `split()` and `split(sep)`;
  - ASCII `lower` and `title`;
  - `int()` and `float()` over exact reals;
  - negative indexing and `s[:n]`.
- `Calendar` holds `date`/`datetime` validity and ordering, plus a `strptime` for the directives thyme uses (`%Y %m %d %H %M %S %a %%`, with whitespace matching any whitespace run).

Calls into the database that are not part of this model become parameters:

- `read_txn_for_time`;
- `read_txn_for_time_by_category`;
- `list_categories`;
- `find_category_id`;
- `find_institution_id`.

`date.today()` is a parameter as well. `insert_transaction` is a log of calls
(`Loader.Database`).

## Model

| member | source | states |
|---|---|---|
| PyText.Split | thyme.py:28 | `str.split()` yields only non-empty tokens without whitespace |
| PyText.SplitJoin | thyme.py:28 | splitting whitespace-separated tokens gives exactly those tokens back, for any number of them |
| PyText.SplitOnJoin | db.py:37 | joining the pieces of `split("/")` with `/` gives the text back |
| PyText.JoinOnSplit | db.py:37 | `split("/")` of pieces without `/`, joined by `/`, gives exactly those pieces back |
| PyText.StripPadded | thyme.py:55 | `strip()` removes exactly the whitespace padding around a text |
| PyText.IntOfDigits | db.py:37 | `int()` of a run of decimal digits is its decimal value |
| PyText.IntAfterSign | thyme.py:139 | `int()` accepts whitespace between a sign and the digits, so `int("- 42")` is -42 |
| PyText.FloatOfCents | parser.py:14 | `float()` of an amount written with two decimals is that many hundredths, sign included |
| PyText.Prefix | loader.py:33 | `s[:n]` has length `min(n, len(s))` and is a prefix of `s` |
| Calendar.MakeDate | db.py:38 | `date(year, month, day)` gives that date exactly when it is a possible date; otherwise it raises `OverflowError` when an argument does not fit a C `int`, and `ValueError` when all do |
| Calendar.Strptime | parser.py:19 | `strptime` only ever returns a valid date-time (month 1..12, day within the month, years 1..9999, time fields in range) |
| Calendar.CompactRoundTrip | loader.py:33 | `%Y%m%d%H%M%S` parses a fixed-width timestamp back to the timestamp it was written from |
| Calendar.SlashRoundTrip | parser.py:30-31 | `%m/%d/%Y` parses a zero-padded date back to midnight of that date |
| StatementParser.Parse | parser.py:12-27 | `Parser.parse(row)`: the amount field, then the date, then the description, any failure giving the empty result; its meaning is stated by `ParseSucceedsIff` and `ParseFields` |
| StatementParser.ParseSucceedsIff | parser.py:12-27 | a parse returns a draft exactly when the amount, date and description fields all exist, the amount is numeric and the date matches the profile's format (both directions); otherwise it returns the empty result and raises nothing |
| StatementParser.ParseFields | parser.py:14-22 | a draft holds the parsed date, the description field unchanged and the parsed amount, negated when the profile says so |
| StatementParser.ShortRowIsEmpty | parser.py:26-27 | a row too short for any of the three fields parses to the empty result |
| StatementParser.MalformedFieldIsEmpty | parser.py:24-25 | a non-numeric amount, or a date that does not match the format, gives the empty result |
| StatementParser.NegationFlipsAmount | parser.py:15-16 | flipping a profile's negate flag flips the sign of the amount and nothing else |
| StatementParser.ParseSlashRow | parser.py:12-22 | a row whose date field is a written `MM/DD/YYYY` date parses to midnight of that date, with the description cell and the row's amount |
| StatementParser.ProfileTable | parser.py:29-31 | the profile table has exactly `amex`, `bofa` and `chase`, with their column indices, formats and negate flags |
| StatementParser.BofaExample | parser.py:30 | a Bank of America row `10/31/2013, Starbucks Coffee Shop, -4.50` parses to October 31st 2013, -4.50 |
| TransactionStore.ParseInts | db.py:37 | the list comprehension of `int()` succeeds exactly when every piece is an integer, and then holds each piece's value in order |
| TransactionStore.ParseSlashDate | db.py:37-38 | the date built from a row's first column is valid and comes from at least three `/`-pieces; `IndexError` arises only when there are fewer. A piece that is not an integer raises `ValueError`; otherwise, with three or more pieces, the result is `MakeDate` of the third, first and second values (year, month, day), so `date()`'s own exceptions pass through |
| TransactionStore.ParseXactionRow | db.py:36-41 | a row is read without an exception exactly when it has three columns, a valid `M/D/Y` date and a numeric amount; the description is column 1 unchanged |
| TransactionStore.XactionRowErrors | db.py:37-41 | which exception each malformed row raises, in evaluation order: empty row, bad date, missing columns, bad amount |
| TransactionStore.ExtraColumnsIgnored | db.py:36-41 | columns after the third do not affect the reading |
| TransactionStore.SlashDateRoundTrip | db.py:37-38 | reading a `MM/DD/YYYY` date written from a valid date gives that date back |
| TransactionStore.PayrollRowExample | db.py:51 | the module's sample call, with its full description, reads as October 31st 2013, that description unchanged, 0.07 |
| TransactionStore.FindRow | db.py:29-34 | `exists` finds a row exactly when one has the same date, description and amount (both directions), and then returns the id of the first such row |
| TransactionStore.Inserted | db.py:43-49 | the table after `insert_xaction`'s insert: unchanged when `exists` finds the transaction, otherwise one more row with the next id; stated by `InsertedKeepsAndRecords`, `InsertIdempotent` and `InsertKeepsNumbering` |
| TransactionStore.InsertedKeepsAndRecords | db.py:43-49 | inserting keeps every earlier row, adds at most one, and afterwards the transaction is in the table |
| TransactionStore.InsertIdempotent | db.py:43-44 | inserting the same transaction twice is the same as inserting it once |
| TransactionStore.InsertKeepsNumbering | db.py:45-49 | ids stay strictly increasing and below the next id |
| TransactionStore.InsertKeepsRecorded | db.py:43-49 | a transaction already in the table stays in it |
| TransactionStore.TransactionTable.InsertXaction | db.py:36-49 | a row that raises leaves the table unchanged and returns the exception; otherwise the table becomes the table with that transaction inserted unless it already existed, and numbering is kept |
| StatementReader.Forwarded | read.py:6-12 | the rows passed on have four columns, are not the header and have a non-empty amount |
| StatementReader.Read | read.py:6-13 | the script's effect: the forwarded rows read and inserted in order, the first exception ending it; stated by `ReadFrom`, `InsertAllSucceeds`, `ReadRecordsAll` and `ReadTwiceIsReadOnce` |
| StatementReader.ReadFrom | read.py:6-13 | one step of the loop: a row is skipped, stops the script with its exception, or is inserted |
| StatementReader.InsertAllSucceeds | read.py:13 | the script ends without an exception exactly when every forwarded row reads without one |
| StatementReader.ReadRecordsAll | read.py:6-13 | after a run without an exception, every forwarded row of the file is in the table |
| StatementReader.ReadTwiceIsReadOnce | read.py:6-13 | importing the same statement a second time, after a first import that went through, changes nothing |
| StatementReader.HeaderAndBalanceSkipped | read.py:9-12 | the header line and balance lines without an amount are skipped |
| StatementReader.ReadStatement | read.py:4-13 | the loop leaves the table and returns the exception exactly as `Read` says, and keeps the numbering |
| Review.StartOfNextMonth | thyme.py:144-149 | when the next month's first day exists, it is a valid date on day 1 |
| Review.NextMonthBound | thyme.py:144-149 | a valid date is before the next month's first day exactly when it is in that month or earlier |
| Review.MonthRange | thyme.py:139-141 | `date(year, month, 1)` then `start_of_next_month`: both ends valid dates, and the only exceptions `ValueError` and `OverflowError` |
| Review.MonthRangeCovers | thyme.py:138-142 | a month number gives a range exactly when it is 1..12 (otherwise `ValueError`, or `OverflowError` for a year or month beyond a C `int`); the range starts on the 1st and holds exactly the dates of that month |
| Review.GetStartEnd | thyme.py:130-142 | `get_start_end`: both ends are valid dates, and it raises only `ValueError` or `OverflowError`; `GetStartEndCovers` says which month it picks |
| Review.GetStartEndCovers | thyme.py:130-142 | a non-integer argument raises `ValueError`. Otherwise the month is today's month when there is no argument, else `int()` of it. The call succeeds exactly when that month is 1 to 12 and is not December of the largest year. It then starts on the 1st of that month of the current year, and a valid date lies in the range exactly when it falls in that month. A failure is `ValueError`, or `OverflowError` for a month outside the C `int` range |
| Review.CurrentMonthHoldsToday | thyme.py:134-137 | the default range holds today |
| Review.ListArgs | thyme.py:28-34 | `list`'s arguments are accepted exactly when there is at least one token |
| Review.ListOneToken | thyme.py:29-31 | one token is the month, with no category filter |
| Review.ListTwoTokens | thyme.py:32-34 | with two or more tokens, the second is the month and the first, lower-cased, is the filter; later tokens are ignored |
| Review.ListWithoutArguments | thyme.py:28-33 | `list` without arguments raises `IndexError`; the help text's promise of a current-month default is not what the code does |
| Review.NumberingIndexes | thyme.py:38-44 | listing numbers the transactions 1..n, each number standing for that transaction's id |
| Review.ListRange | thyme.py:36 | a successful `list` query covers a non-empty date range |
| Review.Thyme.NumberListing | thyme.py:38-48 | the loop adds the numbering of the listed transactions to `tx_id_map` and returns the sum of their amounts |
| Review.Thyme.DoList | thyme.py:23-48 | a query that raises changes nothing; otherwise the map gains the listing's numbering and the total is the sum of amounts |
| Review.Thyme.UpdCat | thyme.py:50-64 | `updcat` needs exactly two tokens, otherwise `ValueError`. It succeeds exactly when the category is unknown or the first token is a number `tx_id_map` holds. On two tokens a failure is `ValueError` when the first token is not an integer and `KeyError` otherwise. An update carries the category's non-zero id and the transaction id mapped from that number |
| Review.UpdCatAfterList | thyme.py:44-60 | after `list`, `updcat k name` updates the transaction listed as number `k` with the category's id |
| Review.ListedNumber | thyme.py:44 | a number shown by the latest listing is in the map and names that listing's transaction |
| Review.UpdCatUnknownCategory | thyme.py:56-58 | a category with no id (or id 0) is reported by its lower-cased name |
| Review.StaleNumber | thyme.py:44 | a number beyond the latest listing still refers to an earlier listing's transaction |
| Review.ExcludedNames | thyme.py:80-82 | the categories skipped by `bycat` are exactly those whose name is `transfer` or `paycheck` in any case |
| Review.LinesSucceed | thyme.py:79-90 | `bycat` finishes without `KeyError` exactly when every category that is not excluded has a budget |
| Review.LinesMeaning | thyme.py:79-91 | the report's total is the sum over the categories that are not excluded, and its lines are theirs, in order |
| Review.LinesOfMeaning | thyme.py:84-90 | each line holds the category, its amount, its budget and headroom = budget + amount, green exactly when the headroom is positive |
| Review.BudgetMapLast | thyme.py:75-76 | a name has a budget exactly when some category has that name, and the last such category's budget wins |
| Review.TotalBudgetAppend | thyme.py:77 | the total budget adds up over concatenation |
| Review.LinesErrorSticks | thyme.py:84 | once a category without a budget is met, the command raises `KeyError` whatever follows |
| Review.ByCat | thyme.py:67-91 | `do_bycat`'s report; it raises only `ValueError` or `OverflowError` (the month) or `KeyError` (a category without a budget); `LinesMeaning`, `LinesSucceed` and `BudgetMapLast` give its contents |
| Review.LinesRaiseKeyError | thyme.py:84 | the only exception the report lines raise is `KeyError` |
| Review.DoByCat | thyme.py:67-91 | the command's loops compute exactly the report `ByCat` describes |
| Review.CollectBudgets | thyme.py:73-77 | the loop over the categories builds the budget map and the total budget |
| Review.CollectLines | thyme.py:79-90 | the loop over the category totals builds the report lines and the sum, or raises `KeyError` |
| Review.AcctCommand | thyme.py:105-113 | `acct` lists accounts exactly when there is no token or the first is `list`; any command other than `list` and `update` does nothing. `update` fails exactly when it has fewer than three tokens or a non-integer id, with `ValueError` for a non-integer second token and `IndexError` for a missing one. An update uses `int()` of the second token and the third as nickname |
| Review.AcctDefaultsToList | thyme.py:106 | `acct` without arguments lists accounts |
| Review.AcctUpdate | thyme.py:112-113 | `acct update <id> <nickname>` updates that institution's nickname |
| Review.AcctUpdateWithoutId | thyme.py:113 | `acct update` without an id raises `IndexError` |
| Loader.CsvCalls | loader.py:18-21 | one insert call per row, in file order, each with the row as the profile parses it, empty parses included |
| Loader.CsvCallsAppend | loader.py:18-21 | loading a statement in two pieces makes the same calls as loading it at once |
| Loader.LoadXactions | loader.py:9-22 | an unknown parser name raises `KeyError` before any insert; an unknown institution raises `TypeError` on the first row; otherwise every row is inserted with the same profile and institution, and the count is the number of rows |
| Loader.StrippedText | loader.py:31-36 | a missing element raises `AttributeError`, one without children `IndexError`, and only those fail; the text read neither starts nor ends with whitespace, and a child without padding is read as it is |
| Loader.ReadStmtTrn | loader.py:31-36 | one node read by the loop body: posted date, type, amount, name, the first failure raising; stated by `ReadStmtTrnFields` and `MissingElementRaises` |
| Loader.PostedDate | loader.py:33 | the posted-date reading is a valid date-time, and fails only with `ValueError` |
| Loader.Readings | loader.py:30-36 | every node is read, in document order |
| Loader.QfxInsertsMeaning | loader.py:30-39 | earlier calls stay; without an exception there is exactly one new call per node, in order; with one, there is a call for each node before the first that fails to read |
| Loader.QfxLoad | loader.py:30-39 | the loop over the nodes: the earlier calls stay, at most one new call per node, and it ends without an exception exactly when every node made its call |
| Loader.LoadQfx | loader.py:25-39 | the loop makes exactly the calls, and ends with exactly the exception, that `QfxLoad` describes |
| Loader.PostedPrefix | loader.py:33 | after stripping, the first fourteen characters are the timestamp, whatever padding comes before it and whatever follows it |
| Loader.PostedDateIgnoresSuffix | loader.py:32-33 | a trailing fractional-second or time-zone suffix does not change the posted date |
| Loader.MountainTimeExample | loader.py:32-33 | `20131207000000.000[-7:MST]` is midnight of December 7th 2013 |
| Loader.MissingElementRaises | loader.py:31-36 | a node missing its posted-date element raises `AttributeError`, one with an empty posted-date element `IndexError`; a node read without an exception has all four elements |
| Loader.ReadStmtTrnFields | loader.py:31-36 | a node read without an exception carries its posted date, its amount and its name, each from the element's first child, stripped |

## Left out

- All printing is left out: listings, reports, `Inserted tx ...` lines and the counts. Values printed as a command's result are returned instead. So are the display formatting in `do_list` and `do_bycat` (column widths, `title()`, truncation to 29 characters, the ANSI colour codes) and whatever part of a report was printed before a `KeyError`.
- SQL and the engine are left out. `db.exists` is modelled on an in-memory table, and its `fetchone()` is modelled as the first matching row. SQL does not fix that order.
- The database queries that are not part of this model are parameters (`read_txn_for_time`, `read_txn_for_time_by_category`, `list_categories`, `find_category_id`, `find_institution_id`). The database updates `update_tx_category` and `update_institution`, and `list_institutions`, are not performed: `UpdCat` and `AcctCommand` return the action the command would take (an update of a category, an update of an institution, the account listing), and nothing carries it out. `insert_transaction` is a call log. It is assumed to return normally, even for the empty dictionary of a failed parse.
- CSV reading (`csv.reader`), BeautifulSoup parsing and file opening are left out. The inputs are the rows, or the `stmttrn` nodes with their elements' text children.
- The `argparse` main block of loader.py, and load.py, are not part of this model.
- The module-level `insert_xaction` call at db.py:51 runs on every `import db`, so read.py, thyme.py and loader.py each insert the payroll row first. This import-time insert is not modelled; `PayrollRowExample` states only how that row reads.
- `do_cat`, `do_EOF`, `do_load` and the shell loop are left out. `do_load` calls a loader function that loader.py does not define.
- `float()`: the `inf` and `nan` spellings are not modelled; they are read as errors.
- Float rounding: amounts and sums are exact reals, so `float` rounding and the printed `%.2f` rounding are not modelled.
- Text follows Python 2 byte strings in the C locale: `lower()` and `title()` change ASCII letters only, and whitespace is the six C-locale characters. Unicode strings are not modelled. This holds for the CSV rows and the commands, not for the QFX loader (next two lines).
- Loader.StrippedText: the texts BeautifulSoup hands over are Python 2 `unicode`, whose `strip()` also removes Unicode whitespace such as U+00A0 (from `&nbsp;`). The model strips only the six C-locale characters, so a text padded with such a character is read with that padding kept.
- Loader.ReadStmtTrn: `float()` of a `unicode` amount also accepts Unicode whitespace around it and Unicode decimal digits. The model accepts ASCII digits and the six C-locale whitespace characters only, so it reports an error for an amount that Python reads.
- `strptime` covers only the directives thyme uses, and `%a` only C-locale weekday names.
- `load_qfx` does not skip a malformed node: the first node that fails to read raises, ending the load with the earlier inserts standing (loader.py:30-39).
- The trntype and fitid values of a QFX node are not passed on by the code, so the model does not carry them. Only the lookup of `trntype` is kept, because it can raise.
- Loader.LoadXactions: the categories map fetched by `start_load` is not represented. It is the same object in every call.
