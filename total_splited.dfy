/**
  The `total_splited` command: the records of the channel's expense lines,
  each person's total and balance in the order people first appear, and the
  payments of the greedy settlement, which the command computes inline.
 */
module TotalSplited {
  import opened Ledger
  import opened Settlement
  import opened CalculationService
  import opened Report
  import opened LineParser

  /** The reply when no line gives a record. */
  const NO_RECORDS_REPLY := "Nenhum gasto encontrado no padrão esperado."

  /** The reply to the lines: the no-records message, or the totals reply
      over what `calculate_expenses` computes for the records, with totals
      and balances in the dicts' order. */
  function TotalSplitedReply(lines: seq<string>, money: real -> string): string {
    var records := ParseAll(lines);
    if |records| == 0 then NO_RECORDS_REPLY
    else
      var calculation := Calculation(records);
      TotalsReply(TotalLines(calculation.totalByPerson, money), BalanceLines(calculation.balanceByPerson, money),
                  PaymentTexts(calculation.payments, money))
  }

  lemma PaymentTextsAppend(a: seq<Payment>, b: seq<Payment>, money: real -> string)
    ensures PaymentTexts(a + b, money) == PaymentTexts(a, money) + PaymentTexts(b, money)
  {
  }

  /** The command: the parse loop, the accumulation loop, and the nested
      settlement loop. */
  method TotalSplitedCommand(lines: seq<string>, money: real -> string) returns (reply: string)
    ensures reply == TotalSplitedReply(lines, money)
  {
    var records := ParseLines(lines);
    if |records| == 0 {
      return NO_RECORDS_REPLY;
    }
    var totalByPerson := Accumulate(Contributions(records));
    TotalsNonEmpty(records);
    var people := Persons(totalByPerson);
    var average := Sum(totalByPerson) / (|people| as real);
    var balanceByPerson := Balances(totalByPerson, average);
    var payments := SettleBalances(balanceByPerson, money);
    reply := TotalsReply(TotalLines(totalByPerson, money), BalanceLines(balanceByPerson, money), payments);
  }

  /** The settlement part of the command: a fresh creditors list, settled
      against every debtor in turn. */
  method SettleBalances(balances: seq<Entry>, money: real -> string) returns (payments: seq<string>)
    ensures payments == PaymentTexts(Settle(Debtors(balances), Creditors(balances)).payments, money)
  {
    var initial := Creditors(balances);
    var creditors := new Entry[|initial|](i requires 0 <= i < |initial| => initial[i]);
    assert creditors[..] == initial;
    payments := SettleToTexts(Debtors(balances), creditors, money);
  }

  /** The nested settlement loop of the command, appending one formatted
      payment per positive payment and updating `creditors` in place. */
  method SettleToTexts(debtors: seq<Entry>, creditors: array<Entry>, money: real -> string) returns (payments: seq<string>)
    modifies creditors
    ensures payments == PaymentTexts(Settle(debtors, old(creditors[..])).payments, money)
    ensures creditors[..] == Settle(debtors, old(creditors[..])).creditors
  {
    payments := [];
    var k := 0;
    while k < |debtors|
      invariant 0 <= k <= |debtors|
      invariant payments == PaymentTexts(Settle(debtors[..k], old(creditors[..])).payments, money)
      invariant creditors[..] == Settle(debtors[..k], old(creditors[..])).creditors
    {
      var emitted := PayDebtorInPlace(debtors[k].person, debtors[k].amount, creditors);
      PaymentTextsAppend(Settle(debtors[..k], old(creditors[..])).payments, emitted, money);
      payments := payments + PaymentTexts(emitted, money);
      assert debtors[..k + 1][..k] == debtors[..k];
      k := k + 1;
    }
    assert debtors[..|debtors|] == debtors;
  }

  /** The no-records message is the reply exactly when no line gives a
      record; otherwise the reply starts with `**`-bold totals. */
  lemma TotalSplitedEmpty(lines: seq<string>, money: real -> string)
    ensures TotalSplitedReply(lines, money) == NO_RECORDS_REPLY
        <==> forall i :: 0 <= i < |lines| ==> ParseRecord(lines[i]).None?
  {
    CollectEmpty(lines, ParseRecord);
    var records := ParseAll(lines);
    if |records| > 0 {
      var calculation := Calculation(records);
      TotalsReplyNotEmptyReply(TotalLines(calculation.totalByPerson, money), BalanceLines(calculation.balanceByPerson, money),
                               PaymentTexts(calculation.payments, money));
    }
  }

  /** For the records the lines give, the reply lists one total line and
      one balance line per person, in the order people first appear. */
  lemma TotalSplitedPeople(records: seq<Record>, money: real -> string)
    ensures var calculation := Calculation(records);
      var people := Persons(calculation.totalByPerson);
      && FirstSeenOrder(people, Persons(Contributions(records)))
      && |TotalLines(calculation.totalByPerson, money)| == |people|
      && |BalanceLines(calculation.balanceByPerson, money)| == |people|
  {
    CalculationTotals(records);
    CalculationBalances(records);
  }

  /** The `i`-th person's total line carries the sum of that person's values
      and the balance line that sum less the average. */
  lemma TotalSplitedLine(records: seq<Record>, money: real -> string, i: nat)
    requires i < |Calculation(records).totalByPerson|
    ensures var calculation := Calculation(records);
      var person := calculation.totalByPerson[i].person;
      var total := SumFor(Contributions(records), person);
      && TotalLines(calculation.totalByPerson, money)[i] == TotalLine(Entry(person, total), money)
      && i < |BalanceLines(calculation.balanceByPerson, money)|
      && BalanceLines(calculation.balanceByPerson, money)[i] == BalanceLine(Entry(person, total - calculation.average), money)
  {
    var calculation := Calculation(records);
    CalculationTotals(records);
    CalculationBalances(records);
    EntryLines(calculation.totalByPerson, calculation.balanceByPerson, Contributions(records), calculation.average, money);
  }

  /** The total and balance lines of two dicts with the same keys, whose
      totals are the contributions' sums and whose balances are those less
      the average. */
  lemma EntryLines(totals: seq<Entry>, balances: seq<Entry>, contributions: seq<Entry>, average: real,
                   money: real -> string)
    requires IsDict(totals) && IsDict(balances) && Persons(balances) == Persons(totals)
    requires forall p :: Get(totals, p) == SumFor(contributions, p)
    requires forall p :: p in Persons(totals) ==> Get(balances, p) == Get(totals, p) - average
    ensures var people := Persons(totals);
      forall i :: 0 <= i < |people| ==>
        TotalLines(totals, money)[i] == TotalLine(Entry(people[i], SumFor(contributions, people[i])), money)
        && BalanceLines(balances, money)[i]
           == BalanceLine(Entry(people[i], SumFor(contributions, people[i]) - average), money)
  {
    var people := Persons(totals);
    forall i | 0 <= i < |people|
      ensures TotalLines(totals, money)[i] == TotalLine(Entry(people[i], SumFor(contributions, people[i])), money)
      ensures BalanceLines(balances, money)[i]
           == BalanceLine(Entry(people[i], SumFor(contributions, people[i]) - average), money)
    {
      GetAt(totals, i);
      assert Persons(balances)[i] == people[i];
      GetAt(balances, i);
    }
  }
}
