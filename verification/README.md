# Monify ledger: model and proofs

Monify keeps personal accounts and transactions in PostgreSQL. Balances are never stored; several programs write
into one transactions table: a recurring-transaction runner that may be started by many processes at once, a CSV
importer, and the user's own edits. This project models those parts and proves what they promise.

- `Calendar`, `Recurrence`, `Catchup`: Go's calendar at day resolution (a date is a day number, decoded to year,
  month and day), the schedule step `Advance`, and what capped catch-up runs add up to.
- `Runner`: the rules table and `RunDue` as one object's method. `RunnerSteps`: any number of sessions as a step
  system, one statement at a time, with lock, row locks, staged writes, commit, abort and crash.
- `Backlog`: what the whole table owes and how runs work it off. `Epochs`, `Reachable`: what a rule's postings add up
  to across edits, and what holds in every reachable state beyond the invariant. `RuleForm`, `StaleSave`: a rule through
  its edit form, and the runs in which a save makes it post twice or past its end.
- `Ledger`, `TransactionRepo`, `RuleService`: the SQL aggregates as folds over join rows, the statements on the two
  tables, the database object, and what a committed run does to the total.
- `Wishlist`: the estimator with its floating-point ceiling, against a month-by-month simulation.
- `Text`, `Digits`, `Money`, `MoneyLaws`: the amount parser and both printers, in int64.
- `Sql`, `Filter`, `Paging`: the SQL that the queries use, with a reader and its meaning, the filter-to-SQL compiler,
  and pages.
- `CsvPort`, `Import`, `ImportCommit`, `ExportImport`: files, dedup keys, preview, commit, a second import, and the
  re-import of an export.
- `Budgets`: setting budgets and the monthly budget lines.

Integers are unbounded in the model; where the program computes in int64, `Domain.Wrap` is applied explicitly.

Where the code does not do what its comments suggest, the model follows the code:

- `Preview` uses the zero time to mean "no date seen yet", so 0001-01-01 disturbs the date window. The windowed
  check equals the full one exactly when the scanned span covers the importable rows.
- The preview page posts minor units and `Commit` parses them as whole units, so the created amount is 100 times the
  previewed one (modulo 2^64) and never the same. Idempotence of a second import is proved for a hand-over that writes
  units and sen, and its failure is proved for the one in the template, for every file.
- `Format` and the template printer lose their text at MinInt64, which has no negation in int64.
- `ProgressPct` says 0..100. The product 100 * saved wraps in int64, and a funded goal can show 0 or a number far below
  0; the exact condition for the right percentage is proved.
- The edit form of a rule posts back the next_run_at it was loaded with, and `Update` writes it unconditionally. A form
  loaded before a run and saved after it, to rename the rule say, rewinds it if it is accepted, and the same dates are
  posted again. A concrete run shows this. Between two writes of a rule (an epoch) posting is exactly once; across edits
  it is so exactly when each epoch that posts starts after the last date posted before it, and refusing any edit that
  puts next_run_at before the stored one is enough.
- That form has no field for note, day of the month and end date, and shows the amount without its sen. Any save, stale
  or not, drops them: a renamed rule posts on past the end date its user set (a concrete run shows it), and a rule of
  less than one unit cannot be saved at all. Exactly which saves are accepted and which change nothing is proved.
- The list is ordered by (occurred_at, created_at), and rows of one run share created_at. When such a class of ties
  lies across a page boundary, and only then, pages may repeat one row and lose another.

## Model

| member | source | states |
|---|---|---|
| Calendar.OrdinalIsChronological | internal/domain/recurring.go:43-68 | day numbers order dates exactly as year, month, day do, in both directions |
| Calendar.CivilOfOrdinal | internal/domain/recurring.go:43-68 | the civil date decoded from a day number is the date that was encoded |
| Calendar.DaysInMonthIsMonthLength | internal/domain/recurring.go:70-72 | "day 0 of the next month" gives the leap-year month table for every year and month, December included |
| Calendar.AddDateDays | internal/domain/recurring.go:49-52 | AddDate by days moves the day number by exactly that many, across months and years |
| Recurrence.MonthlyAdvance | internal/domain/recurring.go:53-65 | one monthly step lands exactly interval months on, on the wanted day clamped to that month's length |
| Recurrence.AdvanceIsLater | internal/domain/recurring.go:43-68 | every step is strictly later, by whole days, weeks or months, for any interval and for day-of-month 1..31 |
| Recurrence.ProgressIffKnownFreq | internal/domain/recurring.go:43-68 | the schedule moves forward if and only if the frequency is one of the three known ones |
| Recurrence.NonPositiveIntervalIsOne | internal/domain/recurring.go:44-47 | an interval below one counts as one |
| Recurrence.AdvanceCases | internal/domain/recurring_test.go:13-29 | the five documented steps, the clamped 31st and the year wrap among them |
| Recurrence.IterateIncreases | internal/domain/recurring.go:43-68 | the orbit of a schedule never repeats a date |
| Recurrence.MonthlyIndex | internal/domain/recurring.go:53-65 | n monthly steps are n times interval months, clamped or not |
| Recurrence.MonthlyClosedForm | internal/domain/recurring.go:53-65 | with a fixed day, n steps equal the wanted day clamped only to the final month: no drift |
| Recurrence.MonthlyStepsCollapse | internal/domain/recurring.go:53-65 | n steps of k months equal one step of n*k months |
| Recurrence.MonthlyDriftsDown | internal/domain/recurring.go:53-65 | without a fixed day, the day is the minimum of the start day and the lengths of all months visited |
| Catchup.UncappedIsOrbit | internal/postgres/recurring_repo.go:146-159 | the uncapped loop lists exactly the orbit dates up to asOf and the end date, and stops at the first other |
| Catchup.OwedExactly | internal/postgres/recurring_repo.go:146-149 | an orbit date is owed if and only if it is not after asOf and not after the end date |
| Catchup.CappedIsPrefix | internal/postgres/recurring_repo.go:146-159 | the capped loop posts the first 120 dates of the uncapped enumeration and stands at the next one |
| Catchup.RunPaysOff | internal/postgres/recurring_repo.go:143-168 | one run posts a prefix of what the rule owes and leaves exactly the rest owed |
| Catchup.OneRunPosts120 | internal/postgres/recurring_repo.go:146 | one run posts everything a rule owes if that is at most 120 occurrences, and else exactly the first 120 |
| Catchup.RepeatedRuns | internal/postgres/recurring_repo.go:143-168 | n runs at one date post exactly the first 120n dates owed, once each and in order |
| Catchup.RunProgressOrFixpoint | internal/postgres/recurring_repo.go:143-168 | a run that posts something strictly lowers what is owed; one that posts nothing is at the fixpoint: inactive and past its end, or not yet due |
| Catchup.EarlierRun | internal/postgres/recurring_repo.go:143-168 | a run at an earlier date works off a prefix of what is owed at a later date |
| Catchup.SeriesConverges | internal/postgres/recurring_repo.go:143-168 | any series of runs up to T posts a prefix of what one uncapped run at T would, and exactly that if and only if nothing is owed at the end |
| Backlog.RunLowersDebt | internal/postgres/recurring_repo.go:103-175 | over the whole table: what is owed before a committed run is its count plus what is owed after it, and the count is 0 if and only if no live rule owes anything |
| Backlog.OneRunPostsAll | internal/postgres/recurring_repo.go:143-174 | if no live rule owes more than 120 occurrences, one run posts the whole debt and nothing is owed after it |
| Backlog.RunsReachFixpoint | internal/postgres/recurring_repo.go:103-175 | as many runs at one date as occurrences are owed always reach the state in which nothing is owed |
| Runner.RecurringRepo.SelectDue | internal/postgres/recurring_repo.go:126-141 | the selection holds every due, active, undeleted rule once, as stored |
| Runner.RecurringRepo.CatchUpRule | internal/postgres/recurring_repo.go:145-159 | the inner loop inserts exactly the first 120 owed dates' transactions in order, or all if there are fewer, and fails only on a database error or a violated check |
| Runner.RecurringRepo.CatchUpAll | internal/postgres/recurring_repo.go:143-169 | the outer loop stages every due rule's inserts and its new position and active flag, and nothing else |
| Runner.RecurringRepo.RunDue | internal/postgres/recurring_repo.go:103-175 | all or nothing: with the lock taken or on any error nothing changes; otherwise the tables become exactly the specified ones, and the count is the number of inserts; if no live rule owed more than 120, none owes anything afterwards; it cannot fail without a database error when all rows keep the checks |
| Runner.SelectionDecides | internal/postgres/recurring_repo.go:126-169 | the resulting rule table does not depend on the order in which the database returns the due rows |
| RunnerSteps.EveryRunIsExactlyOnce | internal/postgres/recurring_repo.go:103-175 | over every interleaving of runners, crashes, aborts and users, the invariant holds: each epoch of each rule has posted exactly a prefix of its orbit, next_run_at is the first date not posted, and one session at most is past the lock |
| RunnerSteps.NothingPostedTwice | internal/postgres/recurring_repo.go:103-175 | in every reachable state the posted dates of one epoch are strictly increasing |
| RunnerSteps.StepKeepsInv | internal/postgres/recurring_repo.go:103-175 | every single step keeps that invariant, including the state in the middle of an open transaction |
| RunnerSteps.StepKeepsMutex | internal/postgres/recurring_repo.go:111-118 | at most one session is between try-lock and unlock |
| RunnerSteps.OnlyCommitPublishes | internal/postgres/recurring_repo.go:120-173 | aborts, crashes, inserts and updates before the commit change nothing that others can read |
| RunnerSteps.CommitIsOneRun | internal/postgres/recurring_repo.go:143-173 | a commit publishes in one step what RunDue does alone on the rows selected: same transactions in the same order, same new rows |
| RunnerSteps.EnvironmentKeepsRunner | internal/postgres/recurring_repo.go:58-98 | creating, editing and deleting rules never disturbs the rows a runner holds FOR UPDATE |
| Epochs.EveryRunInEpochOrder | internal/postgres/recurring_repo.go:143-173 | in every reachable state a rule's postings are its epochs' postings one after the other: no posting of an epoch follows one of a later epoch |
| Epochs.ExactlyOnceAcrossEditsIff | internal/postgres/recurring_repo.go:69-86 | over every run, edits included: all dates a rule ever posted strictly increase if and only if every epoch that posted anything starts after the last date posted before it |
| Epochs.EditKeepsForwardIff | internal/postgres/recurring_repo.go:69-86 | an edit keeps "dates increase and the stored position is after them" if and only if it puts the position after everything posted for the rule |
| Epochs.ForwardEditsKeepExactlyOnce | internal/postgres/recurring_repo.go:69-175 | if no edit puts a position before the stored one, then in every state every rule has posted strictly increasing dates over its whole life |
| RuleForm.SaveAcceptedIff | internal/http/handler/recurring.go:125-160 | exactly which saves of a rule's edit page are accepted (name not blank, at least a whole unit, a four-digit year other than the zero time, accounts offered and different), and that an accepted one drops sen, note, day of the month and end date and keeps the rest |
| RuleForm.UntouchedSaveIsIdentityIff | web/template/partial/recurring.html:40-72 | saving the untouched page changes nothing if and only if the rule has no sen, note, day of the month or end date, its accounts and category are offered, and name and position are ones the form accepts |
| RuleForm.SaveRevives | web/template/partial/recurring.html:40-72 | an accepted save of an active rule owes something at every date from its position on, though the rule as loaded owed nothing exactly when it was past its end date |
| StaleSave.StaleSaveRewinds | web/template/partial/recurring.html:40-72 | in every run: a form loaded, then saved under any name after the rule has posted; if accepted it can be stored, the next date is the first one posted since loading, and the whole transaction repeats if and only if note and sen are empty and the page offers the rule's accounts and category, shaped as its kind demands |
| StaleSave.StaleSavePostsTwice | internal/service/recurring.go:122-132 | a concrete run from empty tables, every write through the form: create, run, save the form loaded before the run under a new name, run; the rule's log holds the same transaction twice |
| StaleSave.RenamePostsPastEnd | web/template/partial/recurring.html:40-72 | a concrete run, every write through the form and no position put back: create a rule that ends on a day, rename it, run that day and the next; it has posted past the end date its user set, where the rule as created owes one date |
| StaleSave.SameStartPostsTwice | internal/postgres/recurring_repo.go:143-173 | two epochs that start alike and both post begin with the same transaction |
| Reachable.FormRunsStayInsertable | internal/postgres/recurring_repo.go:58-175 | if every rule written has passed the form, every stored rule can be inserted at every date in every state of every run, which is the hypothesis under which RunDue errs only with the database |
| Reachable.FormRunnersNeverStuck | internal/postgres/recurring_repo.go:143-173 | in those runs a runner inside its transaction always has exactly one next statement |
| Reachable.EveryRunConverges | internal/postgres/recurring_repo.go:143-173 | over every interleaving of runs up to T: nothing is posted after T or its epoch's end date, and a rule written as active owes nothing at T if and only if its current epoch posted exactly what one uncapped run at T would |
| RunnerSteps.LogOnlyGrows | internal/postgres/recurring_repo.go:150-158 | what was posted stays posted along every run |
| RuleService.RuleAcceptedIff | internal/service/recurring.go:47-104 | exactly which inputs are accepted, and every field of the rule they become |
| RuleForm.NewRuleFields | internal/http/handler/recurring.go:125-160 | a posted day of the month, end date and active mark arrive in the rule, and so does their absence |
| RuleService.AcceptedRulesNeverAbort | internal/service/recurring.go:47-104 | an accepted rule keeps the transactions table's checks at every date and has a progressing schedule |
| RuleService.RunsKeepRowsInsertable | internal/postgres/recurring_repo.go:160-168 | runs keep rules insertable, so later runs cannot abort either |
| RuleService.RunMovesTotal | internal/postgres/recurring_repo.go:150-173 | a committed run moves TotalBalance by the sum over its rules of occurrences times worth |
| RuleService.WorthOfRule | internal/postgres/recurring_repo.go:150-154 | worth is plus or minus the amount on a live account and 0 on a deleted one; a transfer is worth 0 if and only if both its accounts are live or neither is, and else its amount across that border |
| Ledger.CaseAgreesIffNoSelfTransfer | internal/domain/transaction.go:58-71 | the SQL CASE and SignedFor agree on a joined transaction if and only if it is not a self-transfer |
| Ledger.BalanceIsNetEffect | internal/postgres/account_repo.go:22-38 | the CASE sum over the left join is the initial balance plus SignedFor of every live transaction touching the account, each once |
| Ledger.TotalIsConserved | internal/postgres/report_repo.go:19-34 | the total is the live initial balances plus each live transaction's contribution |
| Ledger.TotalByMovement | internal/postgres/report_repo.go:19-34 | that contribution is income minus expense plus transfers from deleted accounts minus transfers to them; live-to-live transfers cancel |
| Ledger.EveryRunConserves | internal/postgres/report_repo.go:19-34 | after any sequence of account and transaction operations, refused ones included, keys and checks hold and the conservation law holds |
| Ledger.ApplyKeepsOk | migrations/20260906000003_transactions.sql:2-19 | every accepted statement keeps unique ids, the shape check and the foreign keys to accounts and categories |
| Ledger.ShapeIsConstraint | migrations/20260906000003_transactions.sql:5-18 | the shape predicate is the table's CHECKs |
| Ledger.ReferencesAreRows | migrations/20260906000003_transactions.sql:6-8 | the foreign keys ask for account and category rows, deleted or not |
| Ledger.CreateAccountMeans | internal/postgres/account_repo.go:69-78 | succeeds if and only if the id is new, and appends a live row with name and initial balance |
| Ledger.UpdateAccountMeans | internal/postgres/account_repo.go:80-92 | succeeds if and only if a live row has the id, and stores name and initial balance there and nowhere else |
| Ledger.UpdateAccountMovesTotal | internal/postgres/account_repo.go:80-92 | editing an initial balance moves the total by the difference |
| Ledger.DeleteAccountMeans | internal/postgres/account_repo.go:94-104 | succeeds if and only if a live row has the id, and marks it |
| Ledger.CreateTxMeans | internal/postgres/transaction_repo.go:104-112 | succeeds if and only if the id is new and CHECKs and foreign keys hold, and appends the row as given |
| Ledger.UpdateTxMeans | internal/postgres/transaction_repo.go:114-128 | succeeds if and only if a live row has the id and CHECKs and foreign keys hold, and replaces every column of that row |
| Ledger.DeleteTxMeans | internal/postgres/transaction_repo.go:130-140 | succeeds if and only if a live row has the id, and marks it wherever it is |
| Ledger.DeleteRemovesEffect | internal/postgres/transaction_repo.go:130-140 | soft-deleting any live transaction takes exactly its effect out of every balance |
| Ledger.OtherRowsKept | internal/postgres/transaction_repo.go:104-140 | a statement changes at most the row it names: no row disappears or moves, and every other row is as it was |
| Ledger.UpdateMovesBalances | internal/postgres/transaction_repo.go:114-128 | an update undoes the old row's effect and applies the new one's on every account, and leaves accounts that neither names |
| Ledger.CreateThenDeleteRestores | internal/postgres/transaction_repo.go:104-140 | creating applies the effect, and soft-deleting it restores every balance |
| Ledger.DeleteAccountRemovesItsBalance | internal/postgres/account_repo.go:94-104 | soft-deleting an account lowers the total by exactly its balance |
| TransactionRepo.Database.CreateTransaction | internal/postgres/transaction_repo.go:104-112 | a created transaction is appended and moves every balance by its effect |
| TransactionRepo.Database.UpdateTransaction | internal/postgres/transaction_repo.go:114-128 | succeeds if and only if a live row has the id and the constraints hold; then exactly that row is replaced, all columns, and every balance moves by new effect minus old effect |
| TransactionRepo.Database.SoftDeleteAccount | internal/postgres/account_repo.go:94-104 | only the account is closed, and the total falls by its balance |
| Wishlist.RemainingIsLeftIff | internal/domain/wishlist.go:39-46 | the amount left is target minus saved, or 0, if and only if the difference fits in int64 |
| Wishlist.ProgressIsPercentIff | internal/domain/wishlist.go:48-58 | for saved >= 0 and target > 0 the result is min(100, 100*saved/target) if and only if 100*saved fits in int64 or wraps to at least 100*target |
| Wishlist.FundedShowsZero | internal/domain/wishlist.go:53 | a fully funded goal of 1000000 minor units with saved 184467440737095517 shows 0 |
| Wishlist.FundedShowsNegative | internal/domain/wishlist.go:53 | target 1 with saved 92233720368547759 shows -9223372036854775716 |
| Wishlist.ProgressInRangeIff | internal/domain/wishlist.go:48 | the range 0..100 of the comment alone: it holds if and only if the wrapped product exceeds minus the target |
| Wishlist.MonthsExact | internal/domain/wishlist.go:104-107 | for basis and surplus below 2^53, under any rounding with relative error 2^-53 that fixes integers, months is the least m with m*surplus >= basis |
| Wishlist.MonthsWrongAboveBound | internal/domain/wishlist.go:104-107 | at 2^53 + 1, ties to even, the computed month is one too early |
| Wishlist.MonthsRightAwayFromMultiples | internal/domain/wishlist.go:104-107 | for any positive int64 pair months is the least that suffices, whenever the basis is further than 2^-51 of itself from the multiples of the surplus |
| Wishlist.SurplusOneIff | internal/domain/wishlist.go:104-107 | with surplus 1 the result is right if and only if the basis is a representable float |
| Wishlist.MonthsFitInt | internal/domain/wishlist.go:104 | the rounded quotient fits in a Go int for every int64 basis with surplus 2 or more, and with surplus 1 below the last few thousand |
| Wishlist.EstimateWishlist | internal/domain/wishlist.go:75-114 | the loop's output is, item by item, the specified estimate, with the int64 running total |
| Wishlist.ReadyDateIs | internal/domain/wishlist.go:80-112 | flags and date of every estimate: now if funded, none without surplus, else the day `months` calendar months on, the same day of the month up to the 28th and overflowing into the next month after that |
| Wishlist.ParallelMonths | internal/domain/wishlist.go:91-110 | in parallel mode the basis is the item's own remaining amount and months the least that cover it |
| Wishlist.EstimateCases | internal/domain/wishlist_test.go:5-36 | the documented estimates in both modes and without a surplus |
| Wishlist.SequentialMonths | internal/domain/wishlist.go:91-110 | while the prefix sum up to the item is below 2^53, the sequential basis is that plain sum and months the least that cover it |
| Wishlist.EstimateMatchesSaving | internal/domain/wishlist.go:75-114 | pouring the surplus each month into the first unfunded item funds item i in exactly its estimated month, not before |
| Wishlist.SequentialOrder | internal/domain/wishlist.go:75-114 | sequential months never decrease along the list and are never below the parallel ones |
| Wishlist.LastMonthIgnoresOrder | internal/domain/wishlist.go:91-110 | the last unfunded item's month is the same for every permutation of the list |
| Digits.NumeralIsDecimal | internal/platform/money/money.go:83-95 | a digit string without leading zeros is the numeral of its value: numerals are unique |
| Digits.GroupPrefixIsGroup | internal/platform/money/money.go:74-79 | the left-to-right dot loop writes groups of three counted from the right |
| Digits.UngroupGroup | internal/platform/money/money.go:19 | removing the dots undoes the grouping |
| Money.Itoa | internal/platform/money/money.go:83-95 | the backward fill stays inside its 20 bytes and yields the decimal numeral for every int64 n >= 0 |
| Money.Format | internal/platform/money/money.go:63-81 | the printed text is sign and grouped whole units, and a bare sign for MinInt64 |
| Money.Rupiah | internal/http/render/render.go:22-42 | the template printer's text, with "Rp" and grouping |
| Money.ParseWhole | internal/platform/money/money.go:29-36 | the accumulator is the numeral's value times 100 modulo 2^64, and any other character fails |
| Money.ParseFraction | internal/platform/money/money.go:38-54 | one digit counts tens of sen, two are taken, further characters are ignored |
| Money.Parse | internal/platform/money/money.go:12-60 | accepts exactly the specified texts and returns their exact meaning modulo 2^64 |
| MoneyLaws.ParsesDecimals | internal/platform/money/money.go:38-54 | a number with a comma parses if and only if the first one or two characters after it are digits; one digit is tens of sen, and whatever follows the second is ignored |
| MoneyLaws.ParsesSpaced | internal/platform/money/money.go:17-18 | spaces between the currency and the number do not matter |
| MoneyLaws.ParseCases | internal/platform/money/money_test.go:5-28 | the documented texts and their amounts |
| MoneyLaws.FormatCases | internal/http/render/render_test.go:18-30 | the documented amounts and their texts, for this printer and for Format |
| MoneyLaws.ParseIsExactIffInRange | internal/platform/money/money.go:29-59 | the parsed value is the written one if and only if that fits in int64 |
| MoneyLaws.RoundTrip | internal/platform/money/money.go:12-81 | Parse of either printer's output is the amount without its sen, if and only if the amount is not MinInt64 |
| MoneyLaws.ReformatIsStable | internal/platform/money/money.go:63-81 | printing what was parsed gives the same text if and only if the amount is neither MinInt64 nor in -99..-1 |
| MoneyLaws.MostNegativeRupiah | internal/http/render/render.go:22-42 | the template printer's text for MinInt64 does not parse at all |
| MoneyLaws.ParseOfDecimal | internal/platform/money/money.go:12-60 | a plain numeral n parses to 100n in int64, exact if and only if 100n fits |
| Filter.TxWhere | internal/postgres/transaction_repo.go:33-57 | text and arguments are the present tests in order, numbered from the arguments already there |
| Filter.CompilationPreservesMeaning | internal/postgres/transaction_repo.go:33-57 | the text, read with the final argument list, holds of a transaction if and only if the five optional tests do; every placeholder is in range and of the right type |
| Filter.ListQuery | internal/postgres/transaction_repo.go:59-67 | List's query is the compiled filter, the order, and LIMIT and OFFSET placeholders after it |
| Sql.ReadsAll | internal/postgres/transaction_repo.go:33-57 | a conjunction of comparisons written as SQL text reads back as itself, column, operator and placeholder |
| Filter.ListQueryMeansFilter | internal/postgres/transaction_repo.go:33-67 | the query as sent, read with the arguments as sent: its tests hold of a transaction if and only if the filter matches, it orders by date and then created_at, both descending, and it pages by the filter's limit and offset |
| Filter.JoinedOnce | internal/postgres/transaction_repo.go:21-31 | by primary and foreign keys the three joins neither drop nor repeat a transaction |
| Filter.ListIsSelection | internal/postgres/transaction_repo.go:59-92 | the unlimited List is the filtered table, and Count is its length |
| Paging.PagesCoverIff | internal/http/handler/transactions.go:160-217 | whatever order among ties each page request sees, the pages are the filtered list with nothing missing or repeated, if and only if no class tied on (occurred_at, created_at) lies across a page boundary |
| Paging.AheadIsOrderOfList | internal/postgres/transaction_repo.go:61 | the order in which pages are cut is the one that the database reads from the query |
| Paging.PagesOf25 | internal/http/handler/transactions.go:212-217 | the number of pages is 1 for nothing and else the least that hold 25 rows each |
| Paging.OneOrderCovers | internal/http/handler/transactions.go:212-217 | if all requests see one order, the pages concatenate to it, and the last page is not empty |
| Paging.NoTiesNoStraddle | internal/postgres/transaction_repo.go:61 | without ties the condition holds |
| Paging.OneBatchStraddles | internal/postgres/recurring_repo.go:126-158 | the rows that one run of 26 rules due on one day inserts agree on date and created_at, and two page requests may repeat one of them and lose another |
| CsvPort.ParseCsvDate | internal/service/import.go:40-49 | the date of the first layout that accepts the text, or none if none does |
| CsvPort.FirstLayoutIff | internal/service/import.go:40-49 | which texts are read as a given day: ISO, day first and slashed year first always; month first exactly when the text is no other date read day first |
| CsvPort.IsoExample | internal/service/csvport.go:80-83 | 24 June 1987 is written 1987-06-24 |
| CsvPort.IsoIff | internal/http/handler/importexport.go:81 | the ISO layout reads exactly the written dates of four-digit years |
| CsvPort.DateRoundTrip | internal/service/csvport.go:80-83 | a date of a four-digit year is read back from its ISO text |
| CsvPort.FourDigitYearIff | internal/service/import.go:40-49 | the dates that ISO text can carry are exactly 0000-01-01 to 9999-12-31 |
| CsvPort.KeyIsInjective | internal/service/csvport.go:80-83 | two dedup keys are equal if and only if kind, amount, date and normalised note are, even when notes contain the separator |
| CsvPort.ParseTransactionCsv | internal/service/csvport.go:30-77 | rows by header position, errors for an empty file and missing columns, blank records skipped but counted |
| CsvPort.RefusedIff | internal/service/csvport.go:41-52 | a file is refused if and only if it is empty or lacks one of date, kind, amount and account |
| CsvPort.FieldIs | internal/service/csvport.go:54-59 | a field is the trimmed cell of the last column with its name, empty if there is none or the record is too short |
| CsvPort.BlankIff | internal/service/csvport.go:63-65 | a record is blank if and only if none of its cells holds anything but space |
| CsvPort.RowPresentIff | internal/service/csvport.go:61-76 | every record that is not blank, and no other, has its row under its own line number |
| CsvPort.ColumnIsLast | internal/service/csvport.go:44-59 | a column is present if and only if some header cell has its normalised name, and then means the last such cell |
| CsvPort.ParsedLinesAscend | internal/service/csvport.go:61-76 | parsed rows are in strictly ascending line order |
| CsvPort.WriteTransactionCsv | internal/service/csvport.go:86-108 | one header and one record per transaction, in order |
| ExportImport.ExportParses | internal/service/csvport.go:27-108 | parsing an export yields one row per transaction, field by field, in order |
| ExportImport.ReadBackKey | internal/service/csvport.go:80-108 | an exported row is importable with its transaction's key if and only if the amount has no sen |
| ExportImport.ExportIsRecognised | internal/service/csvport.go:86-108 | previewing the application's own export flags every whole-unit transaction, and rejects amounts below one unit |
| Import.NameMapIsLast | internal/service/import.go:61-68 | a name is found if and only if some row has it up to case, and then means the last such row |
| Import.ResolvedIff | internal/service/import.go:73-129 | a row is importable if and only if every field it needs resolves, the error names the first that does not, and ids belong to the last account or category with the name |
| Import.ResolveRows | internal/service/import.go:69-130 | all rows resolved in order, and the scanned date span with the zero time as "unset" |
| Import.MarkDuplicates | internal/service/import.go:140-153 | the growing seen-set flags exactly the importable rows whose key is listed or occurs in an earlier importable row |
| Import.Preview | internal/service/import.go:52-158 | the answer is the specified one, in line order |
| Import.SortSorts | internal/service/import.go:156 | the sort is a permutation in line order, and keeps a list already in order |
| Import.PreviewKeepsFileOrder | internal/service/import.go:156-157 | for parsed files Preview answers row for row |
| Import.WindowedDedupIff | internal/service/import.go:133-153 | on every ledger the windowed check equals the full scan of ledger and file, if and only if the scanned span covers the importable rows |
| Import.UncoveredMissesDuplicate | internal/service/import.go:81-87 | otherwise some one-transaction ledger exposes a duplicate that goes unflagged |
| Import.NoZeroDateIsCovered | internal/service/import.go:81-87 | a file without the date 0001-01-01 is always covered |
| Import.ZeroDateFileIsUncovered | internal/service/import.go:81-87 | a one-row file dated 0001-01-01 is not |
| Import.ZeroDateHidesDuplicate | internal/service/import.go:81-87 | an ordinary dated row followed by a 0001-01-01 row: the first duplicates an ordinary ledger transaction and goes unflagged |
| Import.TickedRowsAreNew | internal/service/import.go:133-153 | rows ticked by default have pairwise distinct keys, none in the ledger |
| ImportCommit.AcceptedTxIsShaped | internal/service/transaction.go:41-81 | exactly which form inputs are accepted, and that they keep the table's checks |
| ImportCommit.Commit | internal/http/handler/importexport.go:70-105 | the loop leaves the specified ledger; created is the number of rows added, created plus failed the number posted, and the consistency of the tables is kept |
| ImportCommit.HandedAmount | web/template/partial/importexport.html:16 | what Commit reads from the form: 100n modulo 2^64 as the template writes it, n if units and sen were written |
| ImportCommit.MinorUnitsNeverArrive | web/template/partial/importexport.html:16 | as written, no positive amount ever arrives as previewed |
| ImportCommit.PostedRow | internal/http/handler/importexport.go:76-100 | a posted row is created if and only if its amount arrives positive and it is neither a self-transfer nor undated; it becomes the previewed row's transaction, field by field, with the amount that arrived |
| ImportCommit.PostedDateIsIso | internal/http/handler/importexport.go:81-85 | a posted row gets in only with the ISO text of its date |
| ImportCommit.CommitAddsKeys | internal/http/handler/importexport.go:76-100 | after a commit a key is in the ledger if and only if it was before or an accepted row created it; accounts are untouched |
| ImportCommit.ExactImportIsIdempotent | internal/service/import.go:133-153 | with the corrected hand-over a second import flags every importable row but those Create refused the first time |
| ImportCommit.SecondImportMissesARow | internal/http/handler/importexport.go:76-100 | with the hand-over as written, if anything was ticked some ticked row is not recognised afterwards, whatever the file and the wrap-around |
| ImportCommit.ReimportFlagsAll | internal/service/import.go:52-158 | the idempotence from the parsed file to the second preview: only self-transfers ticked the first time stay unflagged |
| ImportCommit.ReimportMissesARow | internal/service/import.go:52-158 | the failure from the parsed file to the second preview, for the form as the template writes it |
| Budgets.BudgetRepo.Set | internal/postgres/budget_repo.go:51-66 | one call decides one category's month (zero removes, any other amount overwrites or revives), every other budget keeps its value, a refused call changes nothing, and no second row is made for the same key |
| Budgets.BudgetsRefineMap | internal/postgres/budget_repo.go:51-66 | over every sequence of Set calls the table stands for the map the calls describe, and keeps UNIQUE, CHECK and foreign key |
| Budgets.LineMeans | internal/postgres/budget_repo.go:22-33 | one line per category: its budget or 0, and the sum of the live expenses under it whose civil month is the period's, each once |
| Budgets.LinesAreFor | internal/postgres/budget_repo.go:32 | a category has a line if and only if it is live and an expense category |
| Budgets.PageAddsUp | internal/postgres/budget_repo.go:20-33 | the spent column sums to the month's live expenses less those outside the live expense categories |
| Budgets.PeriodIsMonth | internal/postgres/budget_repo.go:21 | for a period that starts a month, the half-open range is exactly that calendar month |
| Text.SpaceIs | internal/service/transaction.go:61 | the 25 characters that are trimmed |
| Text.TrimSpaceIdempotent | internal/service/transaction.go:61 | trimming an already stored note changes nothing |

## Left out

- HTTP routing, middleware, templates other than the rule edit page and the import preview, sessions, API keys and passwords: no property of the ledger depends on them.
- PostgreSQL itself: atomic commit, FOR UPDATE row locks, the session advisory lock and constraint checking are step rules and invariants, not derived.
- Time zones, time of day, the hourly ticker and contexts: dates are calendar days and asOf is a parameter of each run.
- Edits and deletions of posted transactions inside the step system: its log is the insert history, so the law is about what the runner posts, not what a user later removes.
- Epochs are counted by the model alone; the program keeps no such column.
- Reachable.FormRunnersNeverStuck: progress of one session between its statements; fairness between sessions is not modelled.
- The order of the due rows: any order is allowed for the selection.
- Quoting in encoding/csv: a file is a sequence of records, and writing then reading records is taken to be the identity.
- Unicode lower-casing: an arbitrary function; ExportImport asks only that it leaves lower-case ASCII words alone.
- Overflow inside SQL sums: SUM over BIGINT is numeric in PostgreSQL, and the scan of a total beyond int64 into Go is not modelled.
- Wishlist.MonthsExact: the rounding is any function with the stated error bound; subnormal numbers and overflow to infinity do not occur for int64 operands.
- Wishlist.EstimateMatchesSaving: stated while the sum up to the item and the surplus are below 2^53, where the float step is exact.
- Wishlist.SequentialOrder: the same bound.
- Wishlist.LastMonthIgnoresOrder: the same bound, on the whole list.
- Wishlist.MonthsRightAwayFromMultiples: sufficient above 2^53, not necessary. The model knows of rounding only its error bound, which exact arithmetic meets as well, so no converse holds for every rounding; for surplus 1 there is one.
- Wishlist.EstimateWishlist: with surplus 1 and a basis in the last few thousand below 2^63 the float may be 2^63, and Go leaves its conversion to int open; the model gives 2^63 there. MonthsFitInt excludes every other input.
- RuleForm.SaveAcceptedIff: what a browser does to a value before posting it (line breaks in a name, a date field with year 0) is not modelled; the page posts what it was given.
- Overflow of Go's int in years and intervals: schedule arithmetic is unbounded here, while a column of type INT bounds the interval.
- Import.ResolvedIff: the error is one of six kinds; the message text is not modelled.
- ImportCommit.ReimportFlagsAll: ids are the ones the database would generate, taken as fresh and distinct; rows ticked by hand beyond the default are covered by CommitAddsKeys only.
- The category hierarchy: only direct self-parenting is refused by the program, so acyclicity is not claimed.
- Upcoming, Overview, AddSaving and SetStatus, TopExpenseCategories: filters and single-row updates that would add only easy members.
- AvgMonthlySurplus: the surplus is an arbitrary integer here.
- The name order of budget lines and accounts: lists are taken in the order given.
- Failures of the database connection other than a failing statement in RunDue: every other method fails only on its own checks.
