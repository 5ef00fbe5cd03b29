/**
  The `load_monthly` command: check the period, read the month's saved
  expenses and splits, and reply with the totals recomputed from the
  expenses, each person against the average, then the saved splits.
 */
module LoadMonthly {
  import opened Optional
  import opened Ledger
  import opened Settlement
  import opened CalculationService
  import opened Report
  import opened Decimal
  import opened Validation
  import opened ExpenseService
  import opened Repository
  import opened Seqs

  /** The title of the reply. */
  const LOADED_TITLE := "Dados carregados de"

  /** The reply when the month has no saved expense. */
  function NoDataReply(month: nat, year: nat): string {
    "Nenhum dado encontrado para " + Pad2(month) + "/" + NatToString(year) + "."
  }

  /** The records the saved expenses hold, in order. */
  function ExpenseRecords(es: seq<Expense>): (records: seq<Record>)
    ensures |records| == |es|
  {
    seq(|es|, i requires 0 <= i < |es| => RecordOf(es[i]))
  }

  /** The payments the saved splits hold, in order. */
  function SplitPayments(ss: seq<Split>): (ps: seq<Payment>)
    ensures |ps| == |ss|
  {
    seq(|ss|, i requires 0 <= i < |ss| => PaymentOf(ss[i]))
  }

  /** The reply to a load of the month from the tables. */
  function LoadMonthlyReply(store: Store, month: int, year: int, money: real -> string): string {
    match PeriodError(month, year)
    case Some(error) => error
    case None =>
      var summary := GetMonthlySummary(store, month, year);
      if |summary.expenses| == 0 then NoDataReply(month, year)
      else LoadedText(summary, month, year, money)
  }

  /** The reply for a month with saved expenses: the totals recomputed from
      the expenses, then the saved splits. */
  function LoadedText(summary: MonthlySummary, month: nat, year: nat, money: real -> string): string {
    var calculation := Calculation(ExpenseRecords(summary.expenses));
    Summary(SummaryHeader(LOADED_TITLE, month, year, calculation.totalSum, calculation.peopleCount,
                          calculation.average, money),
            SortedPersonLines(calculation.totalByPerson, calculation.average, money),
            PaymentLines(SplitPayments(summary.splits), money))
  }

  /** The command: the period checks, the read, the accumulation loop, the
      loop over the sorted totals and the loop over the splits. */
  method LoadMonthlyCommand(store: Store, month: int, year: int, money: real -> string) returns (reply: string)
    ensures reply == LoadMonthlyReply(store, month, year, money)
  {
    var error := PeriodError(month, year);
    if error.Some? {
      return error.value;
    }
    var summary := GetMonthlySummary(store, month, year);
    if |summary.expenses| == 0 {
      return NoDataReply(month, year);
    }
    reply := WriteLoadedText(summary, month, year, money);
  }

  /** The text of the command from the accumulation loop on. */
  method WriteLoadedText(summary: MonthlySummary, month: nat, year: nat, money: real -> string) returns (reply: string)
    requires |summary.expenses| > 0
    ensures reply == LoadedText(summary, month, year, money)
  {
    var records := ExpenseRecords(summary.expenses);
    var totalByPerson := Accumulate(Contributions(records));
    TotalsNonEmpty(records);
    var totalSum := Sum(totalByPerson);
    var peopleCount := |totalByPerson|;
    var average := totalSum / (peopleCount as real);
    var header := SummaryHeader(LOADED_TITLE, month, year, totalSum, peopleCount, average, money);
    var paymentLines := PaymentLines(SplitPayments(summary.splits), money);
    reply := AppendLines(header, SortedPersonLines(totalByPerson, average, money));
    if |summary.splits| > 0 {
      ghost var before := reply;
      reply := reply + PAYMENTS_HEADING;
      reply := AppendLines(reply, paymentLines);
      AppendAssoc(before, PAYMENTS_HEADING, Concat(paymentLines));
    }
    LoadedTextOfTotals(summary, month, year, money);
  }

  /** The loaded text in terms of the per-person totals alone. */
  lemma LoadedTextOfTotals(summary: MonthlySummary, month: nat, year: nat, money: real -> string)
    requires |summary.expenses| > 0
    ensures var totals := TotalsOf(Contributions(ExpenseRecords(summary.expenses)));
      && |totals| > 0
      && LoadedText(summary, month, year, money)
         == Summary(SummaryHeader(LOADED_TITLE, month, year, Sum(totals), |totals|,
                                  Sum(totals) / (|totals| as real), money),
                    SortedPersonLines(totals, Sum(totals) / (|totals| as real), money),
                    PaymentLines(SplitPayments(summary.splits), money))
  {
    CalculationUnfold(ExpenseRecords(summary.expenses));
  }

  /** A saved expense gives back its record and a saved split its payment. */
  lemma SavedRowsRoundTrip(records: seq<Record>, month: int, year: int)
    requires |records| > 0
    ensures ExpenseRecords(ToExpenses(records, month, year)) == records
    ensures SplitPayments(Splits(records, month, year)) == Calculation(records).payments
  {
    ToExpensesRoundTrip(records, month, year);
    SplitsMatchCalculation(records, month, year);
  }

  /** Loading a month just saved replies what `format_summary_text` writes
      for the saved records under the load title: the same totals, average
      and balances, and the same payments in the same order; but when the
      records settle with no payment, the payments the month held before
      the save. With the month's splits replaced, the reply is always that
      of the records. */
  lemma LoadAfterSave(store: Store, records: seq<Record>, month: int, year: int, money: real -> string)
    requires PeriodError(month, year).None? && |records| > 0
    ensures var calculation := Calculation(records);
      var earlier := SplitPayments(GetMonthlySummary(store, month, year).splits);
      LoadMonthlyReply(SavedAsWritten(store, records, month, year), month, year, money)
      == SummaryText(if calculation.payments == [] then calculation.(payments := earlier) else calculation,
                     month, year, LOADED_TITLE, money)
    ensures LoadMonthlyReply(Saved(store, records, month, year), month, year, money)
         == SummaryText(Calculation(records), month, year, LOADED_TITLE, money)
  {
    SaveThenLoad(store, records, month, year, Period(month + 1, year));
    SaveAsWrittenThenLoad(store, records, month, year, Period(month + 1, year));
    SavedRowsRoundTrip(records, month, year);
    CalculationEmpty(records);
    SummaryPersonLinesAgainstAverage(records, money);
  }

  /** The no-data reply is sent exactly when the period is accepted and the
      month has no saved expense; a rejected period gets its error. */
  lemma LoadMonthlyEmpty(store: Store, month: int, year: int, money: real -> string)
    ensures PeriodError(month, year).Some? ==> LoadMonthlyReply(store, month, year, money) == PeriodError(month, year).value
    ensures PeriodError(month, year).None? ==>
      (LoadMonthlyReply(store, month, year, money) == NoDataReply(month, year)
       <==> GetMonthlySummary(store, month, year).expenses == [])
  {
    if PeriodError(month, year).None? {
      var summary := GetMonthlySummary(store, month, year);
      if |summary.expenses| > 0 {
        LoadedTextBold(summary, month, year, money);
        assert NoDataReply(month, year)[0] == 'N';
      }
    }
  }

  /** A loaded month's text opens with its bold title. */
  lemma LoadedTextBold(summary: MonthlySummary, month: nat, year: nat, money: real -> string)
    ensures var text := LoadedText(summary, month, year, money);
      |text| > 0 && text[0] == '*'
  {
    var calculation := Calculation(ExpenseRecords(summary.expenses));
    var header := SummaryHeader(LOADED_TITLE, month, year, calculation.totalSum, calculation.peopleCount,
                                calculation.average, money);
    assert header[..2] == "**";
    SummaryNotEmptyReply(header, SortedPersonLines(calculation.totalByPerson, calculation.average, money),
                         PaymentLines(SplitPayments(summary.splits), money));
  }
}
