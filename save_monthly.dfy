/**
  The `save_monthly` command: check the period, parse the channel's expense
  lines, save them with their splits for the month, and reply with the
  month's totals, each person against the average.
 */
module SaveMonthly {
  import opened Optional
  import opened Ledger
  import opened CalculationService
  import opened Report
  import opened LineParser
  import opened Validation
  import opened ExpenseService
  import opened Repository

  /** The reply when no line gives a record. */
  const NO_LINES_REPLY := "Nenhum gasto encontrado no padrão esperado (- Valor;Descrição;Pessoa)"

  /** The title of the confirmation. */
  const SAVED_TITLE := "Dados salvos para"

  /** What a command sends back and the tables after it. */
  datatype Response = Response(reply: string, store: Store)

  /** The confirmation for the records: the summary header, then the totals
      by name, each against the average, and no payments. */
  function Confirmation(records: seq<Record>, month: nat, year: nat, money: real -> string): string {
    var calculation := Calculation(records);
    SummaryHeader(SAVED_TITLE, month, year, calculation.totalSum, calculation.peopleCount, calculation.average, money)
    + Concat(SortedPersonLines(calculation.totalByPerson, calculation.average, money))
  }

  /** The command on the lines of the channel: a rejected period or no
      records leave the tables as they were. */
  function SaveMonthlyReply(store: Store, lines: seq<string>, month: int, year: int, money: real -> string): Response {
    match PeriodError(month, year)
    case Some(error) => Response(error, store)
    case None =>
      var records := ParseAll(lines);
      if |records| == 0 then Response(NO_LINES_REPLY, store)
      else Response(Confirmation(records, month, year, money), SavedAsWritten(store, records, month, year))
  }

  /** The command: the period checks, the history loop, the save, the
      accumulation loop and the loop over the sorted totals. */
  method SaveMonthlyCommand(store: Store, lines: seq<string>, month: int, year: int, money: real -> string)
    returns (response: Response)
    ensures response == SaveMonthlyReply(store, lines, month, year, money)
  {
    var error := PeriodError(month, year);
    if error.Some? {
      return Response(error.value, store);
    }
    var records := ParseLines(lines);
    if |records| == 0 {
      return Response(NO_LINES_REPLY, store);
    }
    var saved := SaveMonthlyData(store, records, month, year);
    var text := ConfirmationText(records, month, year, money);
    response := Response(text, saved);
  }

  /** The feedback part of the command, from the accumulation loop on. */
  method ConfirmationText(records: seq<Record>, month: nat, year: nat, money: real -> string) returns (text: string)
    requires |records| > 0
    ensures text == Confirmation(records, month, year, money)
  {
    var totalByPerson := Accumulate(Contributions(records));
    TotalsNonEmpty(records);
    var totalSum := Sum(totalByPerson);
    var peopleCount := |totalByPerson|;
    var average := totalSum / (peopleCount as real);
    text := SummaryHeader(SAVED_TITLE, month, year, totalSum, peopleCount, average, money);
    text := AppendLines(text, SortedPersonLines(totalByPerson, average, money));
  }

  /** A rejected period is answered with its error, lines without records
      with the pattern hint, and in both cases nothing is saved; otherwise
      the month holds exactly the records, its splits are the records'
      splits or, when those are none, the splits it held before, and every
      other month is as before. */
  lemma SaveMonthlyOutcome(store: Store, lines: seq<string>, month: int, year: int, money: real -> string,
                           other: Period)
    ensures var response := SaveMonthlyReply(store, lines, month, year, money);
      && (PeriodError(month, year).Some? ==> response == Response(PeriodError(month, year).value, store))
      && (PeriodError(month, year).None? && |ParseAll(lines)| == 0 ==> response == Response(NO_LINES_REPLY, store))
    ensures var response := SaveMonthlyReply(store, lines, month, year, money);
      var records := ParseAll(lines);
      PeriodError(month, year).None? && |records| > 0 && other != Period(month, year) ==>
        && GetMonthlySummary(response.store, month, year).expenses == ToExpenses(records, month, year)
        && GetMonthlySummary(response.store, month, year).splits
           == (if |Splits(records, month, year)| > 0 then Splits(records, month, year)
               else GetMonthlySummary(store, month, year).splits)
        && GetMonthlySummary(response.store, other.month, other.year) == GetMonthlySummary(store, other.month, other.year)
  {
    var records := ParseAll(lines);
    if PeriodError(month, year).None? && |records| > 0 && other != Period(month, year) {
      SaveAsWrittenThenLoad(store, records, month, year, other);
    }
  }

  /** The confirmation is what `format_summary_text` writes for the
      records under the same title, without its payments part. */
  lemma ConfirmationIsSummary(records: seq<Record>, month: nat, year: nat, money: real -> string)
    requires |records| > 0
    ensures var calculation := Calculation(records);
      SummaryText(calculation, month, year, SAVED_TITLE, money)
      == Confirmation(records, month, year, money)
         + (if |calculation.payments| > 0 then PAYMENTS_HEADING + Concat(PaymentLines(calculation.payments, money)) else "")
  {
    CalculationEmpty(records);
    SummaryPersonLinesAgainstAverage(records, money);
  }
}
