# Expense splitting bot: line parser and even-split settlement

A Discord bot keeps a shared-expenses channel. Each expense is a chat line
`- Valor;Descrição;Pessoa`. The bot's commands read those lines and reply:

- `total_splited`: each person's total and balance, and who pays whom.
- `save_monthly` / `load_monthly`: store a month's expenses and payments in
  SQLite, and read them back.
- `summary`: the lines grouped by person.

This project models the bot's core in Dafny:

- **The line rule** (`LineParser`, `Text`, `Decimal`). A line counts when its
  first character is `-` and it holds exactly two `;`. Each field is cleaned
  with `strip('- ')` and then `strip()`. The value has `,` read as `.` and is
  converted with `float`. A value that does not convert drops the line.
- **The settlement calculator** (`Ledger`, `Settlement`, `CalculationService`).
  - `calculate_expenses` totals the records per payer in a dict that keeps
    first-seen order.
  - It divides the sum by the number of payers to get the average.
  - It splits people into debtors and creditors by the sign of their balance.
  - A greedy nested loop settles the debts. It updates the creditors list in
    place and emits `(debtor, creditor, amount)` payments.
  - `ExpenseService._calculate_splits` and the `total_splited` command repeat
    this loop nearly word for word. The model has one in-place method
    (`Settlement.SettleInPlace`) proved against the functions `PayDebtor` and
    `Settle`. The two copies are separate loops proved against the same
    functions.
- **The commands** (`TotalSplited`, `SaveMonthly`, `LoadMonthly`,
  `SummaryCommand`, with `Validation`, `Report`, `ExpenseService` and
  `Repository`).
  - Period validation.
  - The replies, built from their fixed texts.
  - Saving and loading a month over a value model of the two tables.
  - The summary's dict of lists and its sorted rendering.

**Modelling choices**

- Amounts are exact `real`s, so balances sum to exactly zero and the greedy
  loop settles every debt exactly.
- A Python dict is a sequence of entries with pairwise distinct keys, in
  insertion order.
- Python's `sorted` on names is `Sorting.Sort`: ascending code-point order,
  proved to be a permutation.
- Each loop in the source is a Dafny method with a loop. The method is proved
  to return what a recursive specification function computes.
- The properties are lemmas about those functions.
- The month save is modelled as written: an empty batch of splits saves
  nothing, so a month re-saved without payments keeps its earlier splits
  (see "## Findings"). The replacement the split repository's interface
  describes is `ExpenseService.Saved`, and the save and load lemmas state
  both.
- The `:.2f` rendering of an amount is a function parameter `money`. Every
  other part of the replies is written out character for character.

## Model

| member | source | states |
|---|---|---|
| Ledger.Contributions | services/calculation_service.py:44 | the `(person, value)` pairs of the records, one per record, in order |
| Ledger.Accumulate | services/calculation_service.py:43-45 | the accumulation loop leaves exactly the dict `TotalsOf` describes |
| Ledger.PutPersons | services/calculation_service.py:45 | assigning a key keeps an existing key in its place and appends a new key last |
| Ledger.GetPut | services/calculation_service.py:45 | after `d[p] = v`, `d.get(p)` is `v` and every other key reads as before |
| Ledger.GetAbsent | services/calculation_service.py:45 | `d.get(p, 0)` is 0 for a missing key |
| Ledger.SumPut | services/calculation_service.py:45 | overwriting a key changes the sum by the new value less the old one |
| Ledger.TotalsKeys | services/calculation_service.py:43-47 | the totals are a dict whose keys are exactly the payers, compared by exact string equality |
| Ledger.TotalsKeyOrder | services/calculation_service.py:43-47 | the keys come in the order in which their payers first appear |
| Ledger.TotalsValues | services/calculation_service.py:45 | each key's total is the sum of the values of exactly that payer's records |
| Ledger.TotalsSum | services/calculation_service.py:48 | the totals add up to the sum of all record values |
| Ledger.SortedItems | services/calculation_service.py:104 | `sorted(d.items())` lists the keys in sorted order |
| Ledger.SortedItemsOfDict | services/calculation_service.py:104 | the sorted items of a dict are exactly its items, by strictly ascending key |
| Sorting.BelowIrreflexive | services/calculation_service.py:104 | no name sorts before itself |
| Sorting.BelowTransitive | services/calculation_service.py:104 | the name order is transitive |
| Sorting.BelowTotal | services/calculation_service.py:104 | of two different names, one sorts before the other |
| Sorting.Insert | services/calculation_service.py:104 | inserting into an ascending list adds one copy of the name and keeps it ascending |
| Sorting.Sort | services/calculation_service.py:104 | `sorted` returns an ascending permutation of its input |
| Sorting.SortDistinct | services/calculation_service.py:104 | sorting distinct names gives a strictly ascending list of the same names |
| Sorting.StrictlyAscendingUnique | services/calculation_service.py:104 | one strictly ascending list holds a given set of names, so the sort is determined |
| CalculationService.CalculateExpenses | services/calculation_service.py:20-79 | the method (accumulation loop, comprehensions, in-place settlement) returns exactly `Calculation(records)` |
| CalculationService.CalculationEmpty | services/calculation_service.py:30-40 | no records gives the all-empty, all-zero result, and the people count is 0 only then |
| CalculationService.CalculationTotals | services/calculation_service.py:43-49 | the totals are a dict keyed by exactly the payers, first-seen order, per-payer sums; the people count is the number of keys and the total sum the sum of all values |
| CalculationService.AverageTimesPeople | services/calculation_service.py:49 | the average times the number of people is the total sum |
| CalculationService.BalancesPersons | services/calculation_service.py:52 | the balances have the same keys as the totals, in the same order |
| CalculationService.BalancesGet | services/calculation_service.py:52 | each person's balance is their total less the average |
| CalculationService.BalancesSum | services/calculation_service.py:52 | the balances add up to the total sum less people times average |
| CalculationService.BalancesSumZero | services/calculation_service.py:49-52 | against their own average the balances add up to exactly 0 |
| CalculationService.CalculationBalances | services/calculation_service.py:52 | the returned balances are a dict with the totals' keys, each total less the average, summing to 0 |
| CalculationService.SideKeys | services/calculation_service.py:55-56 | debtors hold exactly the people with a negative balance, creditors exactly those with a positive one |
| CalculationService.SideMembers | services/calculation_service.py:55-56 | each side is a dict holding exactly the people on that side |
| CalculationService.SideDict | services/calculation_service.py:55-56 | each side has distinct persons |
| CalculationService.SideAmounts | services/calculation_service.py:55-56 | each side's amounts are positive and equal the absolute value of the person's balance |
| CalculationService.SideOrder | services/calculation_service.py:55-56 | each side keeps the balances' order |
| CalculationService.SideSums | services/calculation_service.py:55-56 | creditors' sum less debtors' sum is the balances' sum, and the two sides together have at most as many entries as the balances |
| CalculationService.BalanceSides | services/calculation_service.py:52-56 | for balances summing to 0, the sides are positive dicts of exactly the negative and positive balances, with equal sums |
| CalculationService.CalculationSides | services/calculation_service.py:52-56 | the returned debtors and the initial creditors are those sides, and together number at most the people count |
| CalculationService.CalculationSideOrder | services/calculation_service.py:55-56 | debtors and creditors keep the encounter order of the balances |
| CalculationService.CalculationPayments | services/calculation_service.py:59-68 | every payment is positive, from a debtor to a different creditor; each debtor pays exactly what it owes; payments come by debtor position, then creditor position |
| CalculationService.CalculationCreditors | services/calculation_service.py:60-77 | the returned creditors list, updated in place, keeps its persons, is all zeros, and each creditor received exactly its original receivable |
| CalculationService.CalculationCount | services/calculation_service.py:59-68 | fewer payments than people, and fewer than debtors plus creditors when anyone owes |
| CalculationService.FormatSummaryText | services/calculation_service.py:82-114 | the `+=` loops build exactly `SummaryText` |
| CalculationService.TotalsTextLine | services/calculation_service.py:131-134 | the i-th total and balance lines of `format_totals_text` are the i-th name in sorted order, a payer, with that person's sum and that sum less the average |
| CalculationService.CalculationKeys | services/calculation_service.py:43-52 | the totals are a dict and the balances have exactly its keys, in order |
| CalculationService.CalculationPayer | services/calculation_service.py:43-52 | a key of the totals is a payer whose total is the sum of its values and whose balance is that sum less the average |
| CalculationService.SortedLine | services/calculation_service.py:131-139 | the i-th sorted total and balance lines of two dicts with the same keys carry the i-th sorted key and its values |
| CalculationService.TotalsTextSettled | services/calculation_service.py:127-149 | for records, the totals reply is the sorted totals, the sorted balances and the payments, and the payments part is "Todos estão quitados!" exactly when everyone spent the average |
| CalculationService.CalculationSettled | services/calculation_service.py:55-68 | the settlement emits no payment exactly when every person's total is the average |
| CalculationService.NoPaymentsSides | services/calculation_service.py:55-68 | with no payment, sides paid in full mean every balance is zero |
| CalculationService.ZeroBalancesSides | services/calculation_service.py:55-56 | zero balances put no one among debtors or creditors |
| CalculationService.DebtorsPaid | services/calculation_service.py:60-68 | debtors who each paid a positive amount left a payment |
| CalculationService.SumPositive | services/calculation_service.py:56 | positive creditor amounts have a positive sum |
| CalculationService.SideOfZeros | services/calculation_service.py:55-56 | all-zero balances give empty sides |
| CalculationService.FormatEmptyRule | services/calculation_service.py:95-96 | both format helpers reply "Nenhum gasto encontrado." exactly when the people count is 0 (also lines 127-128) |
| CalculationService.PersonLinesAgainstAverage | services/calculation_service.py:104-107 | when every balance is total less average, the summary's person lines are the sorted totals each against the average |
| CalculationService.PersonLineAt | services/calculation_service.py:104-107 | the same, one line at a time |
| CalculationService.SummaryPersonLinesAgainstAverage | services/calculation_service.py:104-107 | for a calculation of records, the summary's person lines are those the save and load replies write |
| Settlement.PayDebtorStep | services/calculation_service.py:61-68 | one inner iteration: pay `min(owed, receivable)`, emit it when positive, update that creditor, go on with the rest |
| Settlement.PayFromSlice | services/calculation_service.py:61 | the indexed walk `enumerate(creditors)` from position `i` is the pass over the rest of the list |
| Settlement.PayFromStep | services/calculation_service.py:61-68 | one loop iteration keeps the in-place pass in step with the recursive pass |
| Settlement.PayCreditor | services/calculation_service.py:62-68 | one creditor of the inner loop: the payment, the new creditor entry written in place, and what is still owed |
| Settlement.PayDebtorInPlace | services/calculation_service.py:61-68 | the inner loop over the creditors array emits `PayDebtor`'s payments and leaves its creditors in the array |
| Settlement.SettleInPlace | services/calculation_service.py:60-68 | the nested loop emits `Settle`'s payments and leaves its creditors in the array |
| Settlement.PayDebtor | services/calculation_service.py:61-68 | one pass of the inner loop leaves one entry per creditor |
| Settlement.Settle | services/calculation_service.py:60-68 | the outer loop keeps the creditors' persons, in order |
| Settlement.PayDebtorNames | services/calculation_service.py:61-68 | a pass keeps the creditors' persons; its payments go from this debtor, positive, to listed creditors |
| Settlement.PayDebtorPersons | services/calculation_service.py:67 | `creditors[i] = (creditor_name, ...)` keeps every creditor's name |
| Settlement.PayDebtorPayments | services/calculation_service.py:64-66 | each payment of a pass is positive, from this debtor, to a listed creditor |
| Settlement.PayDebtorBounds | services/calculation_service.py:64-67 | a pass never leaves a creditor below zero or above what it had |
| Settlement.PayDebtorConservation | services/calculation_service.py:64-68 | paid plus still owed is what was owed; paid is taken off the creditors' sum |
| Settlement.PayDebtorFull | services/calculation_service.py:62-68 | a debtor owing no more than the creditors hold ends owing exactly 0 |
| Settlement.PayDebtorReceived | services/calculation_service.py:67 | after a pass each creditor holds what it had less what it received |
| Settlement.PayDebtorCount | services/calculation_service.py:62-68 | a pass makes at most one payment more than the creditors it empties, and none more when it owes all that is left |
| Settlement.PayDebtorOrder | services/calculation_service.py:61 | a pass pays creditors in list order, each at most once |
| Settlement.SettleNames | services/calculation_service.py:60-68 | the outer loop keeps the creditors' persons; every payment is positive, from a listed debtor to a listed creditor |
| Settlement.SettleBounds | services/calculation_service.py:60-68 | no creditor ever goes below zero |
| Settlement.SettleConservation | services/calculation_service.py:60-68 | what is paid is taken off the creditors' sum |
| Settlement.SettleTotal | services/calculation_service.py:60-68 | when creditors hold at least what debtors owe, payments total the debts and the creditors keep the difference |
| Settlement.SettleFull | services/calculation_service.py:60-68 | each debtor pays exactly what it owes |
| Settlement.SettleReceived | services/calculation_service.py:60-68 | each remaining receivable is the original less what that creditor received |
| Settlement.SettleCount | services/calculation_service.py:60-68 | payments plus still-open creditors are at most open creditors plus debtors, strictly fewer when debts and receivables are equal |
| Settlement.SettleOrder | services/calculation_service.py:60-68 | payments come debtor by debtor in the debtors' order, and in creditor order within a debtor |
| Settlement.TotalConcat | services/calculation_service.py:66 | appending payments adds their total, and per debtor and per creditor |
| ExpenseService.ToExpensesRoundTrip | services/expense_service.py:23-33 | one new expense per record, in order, holding that record's fields, with no id and the given month and year |
| ExpenseService.CalculateSplits | services/expense_service.py:42-81 | the method's loops return exactly the splits of the calculated payments |
| ExpenseService.SettleToSplits | services/expense_service.py:64-79 | the nested loop appends one split per `Settle` payment and leaves `Settle`'s creditors in place |
| ExpenseService.ToSplitsAppend | services/expense_service.py:70-77 | splits of appended payments are the appended splits |
| ExpenseService.SplitsMatchCalculation | services/expense_service.py:47-79 | the splits are `calculate_expenses`'s payments in order, new rows of the month, positive, debtor not creditor, each debtor's splits summing to its debt |
| ExpenseService.SaveMonthlyData | services/expense_service.py:13-40 | the save, with the settlement loop, stores exactly `SavedAsWritten`: the month's expenses replaced, its splits replaced only by a non-empty batch |
| ExpenseService.GetMonthlySummary | services/expense_service.py:83-95 | the summary carries the month and year asked for and only rows of that month |
| ExpenseService.SaveThenLoad | services/expense_service.py:13-40 | with the month's rows replaced (`Saved`), reading a saved month gives its expenses and splits; every other month reads as before |
| ExpenseService.SaveAsWrittenThenLoad | services/expense_service.py:13-40 | as written, reading a saved month gives its expenses, and its new splits or, when there are none, the splits it held before; every other month reads as before |
| ExpenseService.SavedAsWrittenAgrees | repositories/sqlite_split_repository.py:27-41 | the save as written replaces the month's splits exactly when there are new splits or none were stored |
| ExpenseService.StaleSplits | repositories/sqlite_split_repository.py:28-29 | a month re-saved with no payments keeps its old split as written, and loses it when replaced |
| Repository.Select | repositories/sqlite_split_repository.py:59-82 | a read returns only rows of the period, no more rows than stored |
| Repository.Delete | repositories/sqlite_split_repository.py:38-41 | a delete leaves no row of the period |
| Repository.SelectAppend | repositories/sqlite_split_repository.py:44-55 | reading appended rows gives the old rows of the period, then the new ones |
| Repository.SelectAllIn | repositories/sqlite_split_repository.py:44-55 | a batch of one period is read whole there and nowhere else |
| Repository.SelectDelete | repositories/sqlite_split_repository.py:38-41 | deleting a period empties it and leaves other periods as they were |
| Repository.DeleteCount | repositories/sqlite_split_repository.py:38-41 | a delete removes exactly the rows a read of that period returns |
| Repository.ReplaceThenSelect | repositories/sqlite_split_repository.py:37-55 | replacing a period by a batch: the period reads as the batch, others unchanged |
| Repository.SaveBatch | repositories/sqlite_split_repository.py:27-55 | an empty batch leaves the rows as they were; otherwise the batch's period loses its stored rows and reads back as the batch |
| Repository.SaveBatchReplaces | repositories/sqlite_split_repository.py:27-55 | the save is that replacement exactly when the batch is non-empty or the period is empty |
| Repository.DeleteAll | repositories/sqlite_split_repository.py:38-41 | deleting an empty period changes nothing |
| Validation.PeriodError | commands/save_monthly.py:24-30 | a rejected period is answered only with the month error or the year error |
| Validation.PeriodErrorCases | commands/save_monthly.py:24-30 | accepted exactly for month 1..12 and year 2000..2100; the month error whatever the year, the year error only with a good month |
| LineParser.Clean | commands/total_splited.py:19 | a cleaned field has no whitespace at either end |
| LineParser.Fields | commands/total_splited.py:19 | one field more than the line has `;` |
| LineParser.ParseLines | commands/total_splited.py:16-23 | the history loop keeps exactly the records of the lines, in line order |
| LineParser.Accepts | commands/total_splited.py:17 | a line is accepted exactly when it starts with `-` and splits on `;` into three fields |
| LineParser.ParseRecord | commands/total_splited.py:17-23 | a record comes only from an accepted line, with its second and third cleaned fields as description and person |
| LineParser.ParseRecordCases | commands/total_splited.py:17-23 | a line gives a record exactly when accepted and its value converts; the record holds the value and the cleaned description and person |
| LineParser.CollectAppend | commands/total_splited.py:16-23 | the records of two runs of lines are the first run's followed by the second's |
| LineParser.CollectMembers | commands/total_splited.py:16-23 | every record comes from a line, and every line with a record contributes it |
| LineParser.CollectEmpty | commands/total_splited.py:25 | no record exactly when no line gives one |
| LineParser.RenderFields | commands/summary.py:45 | a line written from clean fields is accepted and gives back those fields |
| LineParser.RenderSplit | commands/summary.py:45 | the written line splits into its three written pieces |
| LineParser.FieldsOfThree | commands/total_splited.py:19 | the fields of a three-piece line are the cleaned pieces |
| LineParser.CleanPrefixed | commands/total_splited.py:19 | cleaning `"- " + value` gives the clean value |
| LineParser.ParseRendered | commands/total_splited.py:17-21 | a line written from clean fields parses to the converted value, the description and the person |
| LineParser.ParseExample | commands/total_splited.py:17-21 | `- 10,5;Pão;Ana` is 10.5 paid by Ana for bread |
| LineParser.RejectNoDash | commands/total_splited.py:17 | a line not starting with `-` is skipped |
| LineParser.RejectExtraSeparator | commands/total_splited.py:17 | a line with three `;` is skipped |
| LineParser.RejectNotANumber | commands/total_splited.py:20-23 | a line whose value does not convert is skipped |
| Decimal.ParseUnsigned | commands/total_splited.py:20 | an accepted unsigned literal is non-negative and made of digits and `.` |
| Decimal.ParseAmount | commands/total_splited.py:20 | a value that converts is a non-empty string of sign, ASCII digits and `.` (the subset of `float` modelled) |
| Decimal.ParseDecimalLiteral | commands/total_splited.py:20 | `whole.digits` converts to whole plus fraction, and with `-` to its negation |
| Decimal.ParseNat | commands/total_splited.py:20 | a written natural number converts to itself |
| Decimal.NegatedLiteral | commands/total_splited.py:20 | a `-` in front negates the converted value |
| Decimal.ParseRejectsBare | commands/total_splited.py:20-23 | an empty value, a lone `.`, a lone sign and `+.` do not convert |
| Decimal.NatToStringValue | commands/save_monthly.py:68 | the digits written for a number read back as that number |
| Decimal.Pad2 | commands/save_monthly.py:68 | `{month:02d}` writes at least two digits that read back as the number, exactly two below 100 |
| Text.Count | commands/total_splited.py:17 | `count` is at most the length, and 0 exactly when the character is absent |
| Text.CountAppend | commands/total_splited.py:17 | the count over two joined strings is the sum of their counts |
| Text.LStrip | commands/summary.py:17 | `lstrip` removes a prefix of set characters and stops at the first other character |
| Text.RStrip | commands/total_splited.py:19 | `rstrip` removes a suffix of set characters and stops at the last other character |
| Text.Strip | commands/total_splited.py:19 | no set character is left at either end |
| Text.StripSlice | commands/total_splited.py:19 | `strip` keeps a contiguous piece and removes only set characters |
| Text.StripKeepsOut | commands/total_splited.py:19 | stripping adds no character |
| Text.StripIdempotent | commands/total_splited.py:19 | stripping twice with the same set is stripping once |
| Text.SplitOn | commands/total_splited.py:19 | `split` gives one piece more than there are separators, none holding the separator |
| Text.JoinSplit | commands/summary.py:54 | joining the pieces of a split with the separator gives back the string |
| Text.SplitJoin | commands/summary.py:17 | splitting a join of separator-free pieces gives back the pieces |
| Text.Replace | commands/total_splited.py:20 | `replace(',', '.')` changes exactly the commas |
| Report.Abs | services/calculation_service.py:107 | `abs` is non-negative and equals the value or its negation |
| Report.SummaryHeader | services/calculation_service.py:98-101 | the header opens with `**` |
| Report.AppendLines | services/calculation_service.py:103-107 | the `text += line` loop appends the lines' concatenation |
| Report.ConcatStep | services/calculation_service.py:107 | one more `+=` appends one more line |
| Report.StatusCases | services/calculation_service.py:106 | "recebe" exactly for a positive balance, "deve" otherwise, so also for 0 |
| Report.SummaryNotEmptyReply | services/calculation_service.py:98 | a summary starts with `*` and is never the no-expenses reply |
| Report.TotalsReplyNotEmptyReply | services/calculation_service.py:145-149 | the totals reply starts with `*` and is never the no-expenses reply |
| TotalSplited.TotalSplitedCommand | commands/total_splited.py:13-63 | the command's loops give exactly `TotalSplitedReply` |
| TotalSplited.SettleBalances | commands/total_splited.py:41-53 | the settlement part writes one payment text per `Settle` payment over the balances' sides |
| TotalSplited.SettleToTexts | commands/total_splited.py:45-53 | the nested loop appends one text per `Settle` payment and leaves `Settle`'s creditors in place |
| TotalSplited.PaymentTextsAppend | commands/total_splited.py:51 | texts of appended payments are the appended texts |
| TotalSplited.TotalSplitedEmpty | commands/total_splited.py:25-27 | the no-records reply is sent exactly when no line gives a record |
| TotalSplited.TotalSplitedPeople | commands/total_splited.py:29-39 | one total and one balance line per person, people in first-seen order |
| TotalSplited.TotalSplitedLine | commands/total_splited.py:38-39 | the i-th total line carries that person's sum and the balance line that sum less the average |
| TotalSplited.EntryLines | commands/total_splited.py:38-39 | the same for any totals and balances dicts related that way |
| SaveMonthly.SaveMonthlyCommand | commands/save_monthly.py:16-79 | the command's loops give exactly `SaveMonthlyReply` |
| SaveMonthly.ConfirmationText | commands/save_monthly.py:59-77 | the feedback loops build exactly the confirmation |
| SaveMonthly.SaveMonthlyOutcome | commands/save_monthly.py:24-56 | a bad period gets its error, no records get the hint, both save nothing; otherwise the month holds exactly the records, and their splits or, when they have none, the month's earlier splits; other months untouched |
| SaveMonthly.ConfirmationIsSummary | commands/save_monthly.py:68-77 | the confirmation is `format_summary_text` for the records without its payments part |
| LoadMonthly.LoadMonthlyCommand | commands/load_monthly.py:16-70 | the command's loops give exactly `LoadMonthlyReply` |
| LoadMonthly.WriteLoadedText | commands/load_monthly.py:45-68 | the accumulation and text loops build exactly `LoadedText` |
| LoadMonthly.LoadedTextOfTotals | commands/load_monthly.py:45-51 | the loaded text depends on the expenses only through their per-person totals |
| LoadMonthly.SavedRowsRoundTrip | commands/load_monthly.py:65-68 | saved expenses read back as their records, saved splits as the calculated payments |
| LoadMonthly.LoadAfterSave | commands/load_monthly.py:38-68 | loading a month just saved replies `format_summary_text` for the records, payments in the same order, except that records with no payment show the month's earlier payments; with the rows replaced, always the records' own |
| LoadMonthly.LoadMonthlyEmpty | commands/load_monthly.py:24-42 | a bad period gets its error; otherwise the no-data reply is sent exactly when the month has no expense |
| LoadMonthly.LoadedTextBold | commands/load_monthly.py:54 | the loaded text opens with `*` |
| SummaryCommand.GroupLines | commands/summary.py:38-47 | the history loop builds exactly the dict of lists `Grouped` describes |
| SummaryCommand.RenderLines | commands/summary.py:51-53 | the loop over sorted keys gives exactly the result lines |
| SummaryCommand.Summarize | commands/summary.py:35-63 | the command gives exactly `SummaryReply` |
| SummaryCommand.GroupedAppend | commands/summary.py:43-45 | one more line is one more step of the loop |
| SummaryCommand.AddItemKeys | commands/summary.py:43-44 | a new person becomes the last key; a known one keeps its place |
| SummaryCommand.AddItemLines | commands/summary.py:45 | a line is appended to its person's list only |
| SummaryCommand.GroupedKeys | commands/summary.py:42-45 | one key per person, each once, in first-seen order |
| SummaryCommand.GroupedLines | commands/summary.py:45 | each person's list is that person's lines in encounter order |
| SummaryCommand.GatherGrouped | commands/summary.py:52-53 | extending over a list of persons gives each person's lines in turn |
| SummaryCommand.SummaryLines | commands/summary.py:51-54 | the result lists each person once, by name, with all of that person's lines in encounter order |
| SummaryCommand.ItemOfCases | commands/summary.py:40-45 | every accepted line gives an item of the person the parser reads, written from the cleaned fields |
| SummaryCommand.ItemOfRendered | commands/summary.py:42-45 | a line written from clean fields gives back that line under its person |
| SummaryCommand.SummaryKeepsUnconverted | commands/summary.py:40-42 | `- abc;Bar;Ana` is listed here though no other command reads a record from it |
| SummaryCommand.GroupedEmpty | commands/summary.py:48 | the dict is empty exactly when no line is accepted |
| SummaryCommand.SummaryReplyCases | commands/summary.py:48-63 | the hint exactly when nothing is accepted, the too-long message exactly past 1900 characters, otherwise the result within the limit |
| SummaryCommand.CleanKeepsNoSeparator | commands/summary.py:42 | a cleaned field holds no `;` |
| SummaryCommand.AcceptedFields | commands/summary.py:40-42 | an accepted line has three fields, none with `;`, none with whitespace at an end |
| SummaryCommand.SplitThree | commands/summary.py:17 | three `;`-free pieces joined by `;` split back into them |
| SummaryCommand.LStripRendered | commands/summary.py:17 | `lstrip('- ')` of a written line removes only the leading `- ` when the value does not start with `-` or a space |
| SummaryCommand.XlsxRow | commands/summary.py:17-18 | a line gives an xlsx row exactly when, after `lstrip('- ')`, it holds two `;` |
| SummaryCommand.XlsxRoundTrip | commands/summary.py:17-18 | re-splitting a written line gives back its three fields when the value does not start with `-` |

## Left out

- The Discord plumbing: `defer`, `followup`, the `NotFound` handling, the buttons and views. The channel history is a sequence of line strings taken in the order given. The history limits (`MAX_MESSAGE_HISTORY`, and 500 in `summary`) and the newest-first order are not modelled.
- The `:.2f` rendering of amounts is the parameter `money`. No property depends on its digits.
- IEEE floating point: rounding, and an `amount_owed == 0` test that may never fire after rounding. Amounts are exact reals.
- Decimal.ParseAmount: `float()` is modelled on plain decimal literals: an optional sign, ASCII digits, an optional `.` and digits. Exponents, `inf`, `nan`, underscores, surrounding whitespace and non-ASCII Unicode decimal digits (such as `٣` or `５`, which `float()` accepts) are read as failures.
- The SQLite tables are a value `Store` with two row sequences. `ORDER BY created_at` is read as insertion order.
- The `created_at` timestamps (the clock) and the database ids assigned on insert are not modelled. New rows carry no id.
- Exceptions: the `except Exception` branches that reply with an error text are not modelled. The only exceptions the model's operations could raise are the conversion failure, modelled as a skipped line, and the division by zero, which the non-empty guards exclude.
- The openpyxl workbook, `BytesIO` and the file upload of `generate_xlsx`. The re-split of each line is modelled; building and sending the workbook is not.
- `play_song.py`, `hello.py`, `main.py`, `config.py`, `excel_service.py`: voice playback, a greeting, wiring and an export service outside the expense core.
- Unicode: names compare by code point as Python's `str` does; there is no normalisation.
- SummaryCommand.XlsxRoundTrip: requires the cleaned value not to start with `-`, because `lstrip('- ')` would then remove that dash as well. A cleaned value can start with `-` when other whitespace came first, as in `"\t-5"`.

## Findings

| source | as written | input that shows it | evidently intended | confidence | as-written member | corrected member |
|---|---|---|---|---|---|---|
| repositories/sqlite_split_repository.py:27-29 | `save_splits([])` returns before deleting, so re-saving a month whose new expenses settle with no payment leaves the month's old splits in place, and `load_monthly` shows them | a month saved with a split Bia→Ana of 5.0, then re-saved with the single record `(10.0, "Mercado", "Ana")` | the month's splits are replaced by the new (empty) list, as the expenses are | not executed | ExpenseService.StaleSplits | ExpenseService.SaveThenLoad |
