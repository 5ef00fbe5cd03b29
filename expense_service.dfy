/**
  `ExpenseService`: turns parsed records into `Expense` rows of one month,
  computes the `Split` rows (who pays whom) with the same greedy settlement
  as `calculate_expenses`, saves both, and reads a month back.
 */
module ExpenseService {
  import opened Optional
  import opened Ledger
  import opened Settlement
  import opened CalculationService
  import opened Repository

  /** The `Expense` dataclass, without its `created_at` timestamp. */
  datatype Expense = Expense(id: Option<int>, value: real, description: string, paidBy: string,
                             month: int, year: int)

  /** The `Split` dataclass, without its `created_at` timestamp. */
  datatype Split = Split(id: Option<int>, debtor: string, creditor: string, amount: real,
                         month: int, year: int)

  function ExpensePeriod(e: Expense): Period {
    Period(e.month, e.year)
  }

  function SplitPeriod(s: Split): Period {
    Period(s.month, s.year)
  }

  /** The two tables. */
  datatype Store = Store(expenses: seq<Expense>, splits: seq<Split>)

  /** The dict `get_monthly_summary` returns. */
  datatype MonthlySummary = MonthlySummary(expenses: seq<Expense>, splits: seq<Split>, month: int, year: int)

  /** The list comprehension of `save_monthly_data`: one new expense per
      record, in order, stamped with the month and year. */
  function ToExpenses(records: seq<Record>, month: int, year: int): (es: seq<Expense>)
    ensures |es| == |records|
  {
    seq(|records|, i requires 0 <= i < |records| =>
      Expense(None, records[i].value, records[i].description, records[i].person, month, year))
  }

  /** The record an expense row was made from. */
  function RecordOf(e: Expense): Record {
    Record(e.value, e.description, e.paidBy)
  }

  /** One new split per payment, stamped with the month and year. */
  function ToSplits(ps: seq<Payment>, month: int, year: int): (ss: seq<Split>)
    ensures |ss| == |ps|
  {
    seq(|ps|, i requires 0 <= i < |ps| => Split(None, ps[i].debtor, ps[i].creditor, ps[i].amount, month, year))
  }

  /** The payment a split row records. */
  function PaymentOf(s: Split): Payment {
    Payment(s.debtor, s.creditor, s.amount)
  }

  /** `_calculate_splits(records, month, year)`. */
  function Splits(records: seq<Record>, month: int, year: int): seq<Split> {
    ToSplits(Calculation(records).payments, month, year)
  }

  lemma ToSplitsAppend(a: seq<Payment>, b: seq<Payment>, month: int, year: int)
    ensures ToSplits(a + b, month, year) == ToSplits(a, month, year) + ToSplits(b, month, year)
  {
  }

  /** `_calculate_splits`: the accumulation loop, then the nested settlement
      loop, appending a split for every positive payment. The totals are
      divided by the number of people without a guard, so there must be a
      record. */
  method CalculateSplits(records: seq<Record>, month: int, year: int) returns (splits: seq<Split>)
    requires |records| > 0
    ensures splits == Splits(records, month, year)
  {
    var totalByPerson := Accumulate(Contributions(records));
    TotalsNonEmpty(records);
    var people := Persons(totalByPerson);
    var average := Sum(totalByPerson) / (|people| as real);
    var balanceByPerson := Balances(totalByPerson, average);
    var initial := Creditors(balanceByPerson);
    var creditors := new Entry[|initial|](i requires 0 <= i < |initial| => initial[i]);
    assert creditors[..] == initial;
    splits := SettleToSplits(Debtors(balanceByPerson), creditors, month, year);
  }

  /** The nested settlement loop of `_calculate_splits`, appending one split
      per positive payment and updating `creditors` in place. */
  method SettleToSplits(debtors: seq<Entry>, creditors: array<Entry>, month: int, year: int) returns (splits: seq<Split>)
    modifies creditors
    ensures splits == ToSplits(Settle(debtors, old(creditors[..])).payments, month, year)
    ensures creditors[..] == Settle(debtors, old(creditors[..])).creditors
  {
    splits := [];
    var k := 0;
    while k < |debtors|
      invariant 0 <= k <= |debtors|
      invariant splits == ToSplits(Settle(debtors[..k], old(creditors[..])).payments, month, year)
      invariant creditors[..] == Settle(debtors[..k], old(creditors[..])).creditors
    {
      var emitted := PayDebtorInPlace(debtors[k].person, debtors[k].amount, creditors);
      ToSplitsAppend(Settle(debtors[..k], old(creditors[..])).payments, emitted, month, year);
      splits := splits + ToSplits(emitted, month, year);
      assert debtors[..k + 1][..k] == debtors[..k];
      k := k + 1;
    }
    assert debtors[..|debtors|] == debtors;
  }

  /** The expenses give back the records, in order, and all are new rows of
      the month. */
  lemma ToExpensesRoundTrip(records: seq<Record>, month: int, year: int)
    ensures var es := ToExpenses(records, month, year);
      && (forall k :: 0 <= k < |es| ==> es[k].id == None && RecordOf(es[k]) == records[k])
      && AllIn(es, ExpensePeriod, Period(month, year))
  {
  }

  /** The splits give back the payments of `calculate_expenses`, in order:
      each is a new row of the month moving a positive amount from a debtor
      to a different creditor, and each debtor's splits add up to what it
      owes. */
  lemma SplitsMatchCalculation(records: seq<Record>, month: int, year: int)
    requires |records| > 0
    ensures var ss, r := Splits(records, month, year), Calculation(records);
      && |ss| == |r.payments|
      && (forall k :: 0 <= k < |ss| ==> ss[k].id == None && PaymentOf(ss[k]) == r.payments[k])
      && AllIn(ss, SplitPeriod, Period(month, year))
      && (forall k :: 0 <= k < |ss| ==>
            ss[k].amount > 0.0 && ss[k].debtor != ss[k].creditor
            && ss[k].debtor in Persons(r.debtors) && ss[k].creditor in Persons(Creditors(r.balanceByPerson)))
      && (forall k :: 0 <= k < |r.debtors| ==> PaidBy(r.payments, r.debtors[k].person) == r.debtors[k].amount)
  {
    CalculationPayments(records);
  }

  /** `save_monthly_data` as written: the split save does nothing when there
      are no splits. */
  function SavedAsWritten(store: Store, records: seq<Record>, month: int, year: int): Store {
    Store(SaveBatch(store.expenses, ExpensePeriod, ToExpenses(records, month, year)),
          SaveBatch(store.splits, SplitPeriod, Splits(records, month, year)))
  }

  /** `save_monthly_data` as the split repository's interface describes the
      save: the month's splits are replaced even by none. */
  function Saved(store: Store, records: seq<Record>, month: int, year: int): Store {
    Store(SaveBatch(store.expenses, ExpensePeriod, ToExpenses(records, month, year)),
          ReplacePeriod(store.splits, SplitPeriod, Period(month, year), Splits(records, month, year)))
  }

  /** `save_monthly_data`: save the expenses, compute the splits with the
      settlement loop, and save the splits. */
  method SaveMonthlyData(store: Store, records: seq<Record>, month: int, year: int) returns (saved: Store)
    requires |records| > 0
    ensures saved == SavedAsWritten(store, records, month, year)
  {
    var expenses := ToExpenses(records, month, year);
    var expenseRows := SaveBatch(store.expenses, ExpensePeriod, expenses);
    var splits := CalculateSplits(records, month, year);
    saved := Store(expenseRows, SaveBatch(store.splits, SplitPeriod, splits));
  }

  /** `get_monthly_summary(month, year)`. */
  function GetMonthlySummary(store: Store, month: int, year: int): (s: MonthlySummary)
    ensures s.month == month && s.year == year
    ensures AllIn(s.expenses, ExpensePeriod, Period(month, year)) && AllIn(s.splits, SplitPeriod, Period(month, year))
  {
    MonthlySummary(Select(store.expenses, ExpensePeriod, Period(month, year)),
                   Select(store.splits, SplitPeriod, Period(month, year)), month, year)
  }

  /** Saving a month and reading it back gives that month's expenses and
      splits, and every other month reads as before. */
  lemma SaveThenLoad(store: Store, records: seq<Record>, month: int, year: int, other: Period)
    requires |records| > 0 && other != Period(month, year)
    ensures GetMonthlySummary(Saved(store, records, month, year), month, year)
         == MonthlySummary(ToExpenses(records, month, year), Splits(records, month, year), month, year)
    ensures var after := GetMonthlySummary(Saved(store, records, month, year), other.month, other.year);
      after == GetMonthlySummary(store, other.month, other.year)
  {
    var p := Period(month, year);
    var es, ss := ToExpenses(records, month, year), Splits(records, month, year);
    ToExpensesRoundTrip(records, month, year);
    SplitsMatchCalculation(records, month, year);
    assert ExpensePeriod(es[0]) == p;
    ReplaceThenSelect(store.expenses, ExpensePeriod, p, es, p);
    ReplaceThenSelect(store.expenses, ExpensePeriod, p, es, other);
    ReplaceThenSelect(store.splits, SplitPeriod, p, ss, p);
    ReplaceThenSelect(store.splits, SplitPeriod, p, ss, other);
  }

  /** As written, reading a month just saved gives the month's expenses and
      its new splits, or, when the records settle with no payment, the
      splits the month held before; every other month reads as before. */
  lemma SaveAsWrittenThenLoad(store: Store, records: seq<Record>, month: int, year: int, other: Period)
    requires |records| > 0 && other != Period(month, year)
    ensures var splits := Splits(records, month, year);
      GetMonthlySummary(SavedAsWritten(store, records, month, year), month, year)
      == MonthlySummary(ToExpenses(records, month, year),
                        if |splits| > 0 then splits else GetMonthlySummary(store, month, year).splits, month, year)
    ensures var after := GetMonthlySummary(SavedAsWritten(store, records, month, year), other.month, other.year);
      after == GetMonthlySummary(store, other.month, other.year)
  {
    SaveThenLoad(store, records, month, year, other);
    SavedAsWrittenAgrees(store, records, month, year);
  }

  /** The save as written agrees with the replacement exactly when the new
      data has splits or the month held none before. */
  lemma SavedAsWrittenAgrees(store: Store, records: seq<Record>, month: int, year: int)
    requires |records| > 0
    ensures SavedAsWritten(store, records, month, year) == Saved(store, records, month, year)
        <==> |Splits(records, month, year)| > 0
             || GetMonthlySummary(store, month, year).splits == []
  {
    SplitsMatchCalculation(records, month, year);
    SaveBatchReplaces(store.splits, SplitPeriod, Period(month, year), Splits(records, month, year));
  }

  /** A month first saved with a debt, then saved again with one payer only:
      as written, the reload still shows the stale split although the new
      data settles with no payment. */
  lemma StaleSplits()
    ensures var stale := Split(None, "Bia", "Ana", 5.0, 3, 2024);
      var records := [Record(10.0, "Mercado", "Ana")];
      var store := Store([], [stale]);
      && Splits(records, 3, 2024) == []
      && GetMonthlySummary(SavedAsWritten(store, records, 3, 2024), 3, 2024).splits == [stale]
      && GetMonthlySummary(Saved(store, records, 3, 2024), 3, 2024).splits == []
  {
    var stale := Split(None, "Bia", "Ana", 5.0, 3, 2024);
    var records := [Record(10.0, "Mercado", "Ana")];
    var cs := Contributions(records);
    assert cs == [Entry("Ana", 10.0)];
    assert TotalsOf(cs) == Put(TotalsOf([]), "Ana", Get(TotalsOf([]), "Ana") + 10.0);
    assert TotalsOf(cs) == [Entry("Ana", 10.0)];
    var balances := Balances([Entry("Ana", 10.0)], 10.0);
    assert balances == [Entry("Ana", 0.0)];
    assert Debtors(balances) == [];
    assert Calculation(records).payments == [];
    var store := Store([], [stale]);
    assert Select(store.splits, SplitPeriod, Period(3, 2024)) == [stale];
    SavedAsWrittenAgrees(store, records, 3, 2024);
    ReplaceThenSelect(store.splits, SplitPeriod, Period(3, 2024), [], Period(3, 2024));
  }
}
